/**
 * Properties of the static resolver of jlox/src/com/yadav/lox/Resolver.java,
 * stated about the functions of module Resolution.
 */
module ResolutionFacts {
  import opened Ast
  import opened Scopes
  import opened Resolution

  // ---------------------------------------------------------------------
  // The side table does not steer resolution
  // ---------------------------------------------------------------------

  /** The same resolver state with an empty side table and no reports. */
  function Fresh(st: State): State {
    st.(locals := map[], errors := [])
  }

  /**
   * `r` is what resolving from `st` gave, when the same resolution from
   * `Fresh(st)` gave `delta`: the scopes and function kind agree, the
   * annotations of `delta` are laid over those of `st`, and the reports of
   * `delta` follow those of `st`.
   */
  predicate Extends(st: State, delta: State, r: State) {
    r == delta.(locals := st.locals + delta.locals, errors := st.errors + delta.errors)
  }

  lemma NothingDone(st: State)
    ensures Extends(st, Fresh(st), st)
  {
    assert st.locals + map[] == st.locals;
    assert st.errors + [] == st.errors;
  }

  // Each lemma below takes two runs of the resolver that so far differ only
  // in the table and reports they started from (`Extends(st, d, s)`), and
  // shows that one more step of both keeps them so.

  lemma DeclareAfter(st: State, s: State, d: State, name: Token)
    requires Extends(st, d, s)
    ensures Extends(st, Declare(d, name), Declare(s, name))
    ensures Extends(st, Define(d, name), Define(s, name))
  {
    if |s.scopes| > 0 {
      var reports := if name.lexeme in Top(s.scopes) then [Diagnostic(name, AlreadyDeclared)] else [];
      assert st.errors + d.errors + reports == st.errors + (d.errors + reports);
    }
  }

  lemma ReadAfter(st: State, s: State, d: State, id: NodeId, name: Token)
    requires Extends(st, d, s)
    ensures Extends(st, CheckRead(d, name), CheckRead(s, name))
    ensures Extends(st, ResolveLocal(d, id, name), ResolveLocal(s, id, name))
  {
    var report := [Diagnostic(name, ReadInOwnInitializer)];
    assert st.errors + d.errors + report == st.errors + (d.errors + report);
    var hops := Hops(s.scopes, name.lexeme);
    if hops.Some? {
      assert (st.locals + d.locals)[id := hops.value] == st.locals + d.locals[id := hops.value];
    }
  }

  lemma ReportAfter(st: State, s: State, d: State, report: Diagnostic)
    requires Extends(st, d, s)
    ensures Extends(st, d.(errors := d.errors + [report]), s.(errors := s.errors + [report]))
  {
    assert st.errors + d.errors + [report] == st.errors + (d.errors + [report]);
  }

  lemma {:induction false} ExprAfter(st: State, s: State, d: State, e: Expr)
    requires Extends(st, d, s)
    decreases e, 1
    ensures Extends(st, ResolveExpr(d, e), ResolveExpr(s, e))
  {
    match e
    case Ternary(left, _, mid, _, right) =>
      ExprAfter(st, s, d, left);
      ExprAfter(st, ResolveExpr(s, left), ResolveExpr(d, left), mid);
      ExprAfter(st, ResolveExpr(ResolveExpr(s, left), mid), ResolveExpr(ResolveExpr(d, left), mid), right);
    case Binary(left, _, right) =>
      ExprAfter(st, s, d, left);
      ExprAfter(st, ResolveExpr(s, left), ResolveExpr(d, left), right);
    case Call(callee, _, arguments) =>
      ExprAfter(st, s, d, callee);
      ExprsAfter(st, ResolveExpr(s, callee), ResolveExpr(d, callee), arguments);
    case Get(obj, _) => ExprAfter(st, s, d, obj);
    case Grouping(inner) => ExprAfter(st, s, d, inner);
    case Literal(_) =>
    case Logical(left, _, right) =>
      ExprAfter(st, s, d, left);
      ExprAfter(st, ResolveExpr(s, left), ResolveExpr(d, left), right);
    case Set(obj, _, value) =>
      ExprAfter(st, s, d, value);
      ExprAfter(st, ResolveExpr(s, value), ResolveExpr(d, value), obj);
    case Unary(_, right) => ExprAfter(st, s, d, right);
    case Variable(id, name) =>
      ReadAfter(st, s, d, id, name);
      ReadAfter(st, CheckRead(s, name), CheckRead(d, name), id, name);
    case Assign(id, name, value) =>
      ExprAfter(st, s, d, value);
      ReadAfter(st, ResolveExpr(s, value), ResolveExpr(d, value), id, name);
  }

  lemma {:induction false} ExprsAfter(st: State, s: State, d: State, es: seq<Expr>)
    requires Extends(st, d, s)
    decreases es, 0
    ensures Extends(st, ResolveExprs(d, es), ResolveExprs(s, es))
  {
    if es != [] {
      var front := es[..|es| - 1];
      ExprsAfter(st, s, d, front);
      ExprAfter(st, ResolveExprs(s, front), ResolveExprs(d, front), es[|es| - 1]);
    }
  }

  lemma ScopeAfter(st: State, s: State, d: State, kind: FunctionType)
    requires Extends(st, d, s)
    ensures Extends(st, BeginScope(d), BeginScope(s))
    ensures |s.scopes| > 0 ==> Extends(st, EndScope(d), EndScope(s))
    ensures Extends(st, d.(currentFunction := kind), s.(currentFunction := kind))
  {
  }

  lemma {:induction false} StmtAfter(st: State, s: State, d: State, stmt: Stmt)
    requires Extends(st, d, s) && NullFree(stmt)
    decreases stmt, 1
    ensures Extends(st, ResolveStmt(d, stmt), ResolveStmt(s, stmt))
  {
    match stmt
    case Block(statements) => BlockAfter(st, s, d, statements);
    case Class(name) =>
      DeclareAfter(st, s, d, name);
      DeclareAfter(st, Declare(s, name), Declare(d, name), name);
    case Function(name, params, body) =>
      DeclareAfter(st, s, d, name);
      DeclareAfter(st, Declare(s, name), Declare(d, name), name);
      FunctionAfter(st, Define(Declare(s, name), name), Define(Declare(d, name), name), params, body, FUNCTION);
    case Expression(e) => ExprAfter(st, s, d, e);
    case If(condition, thenBranch, elseBranch) =>
      ExprAfter(st, s, d, condition);
      var s1, d1 := ResolveExpr(s, condition), ResolveExpr(d, condition);
      StmtAfter(st, s1, d1, thenBranch);
      if elseBranch.Some? {
        StmtAfter(st, ResolveStmt(s1, thenBranch), ResolveStmt(d1, thenBranch), elseBranch.value);
      }
    case Print(e) => ExprAfter(st, s, d, e);
    case Return(keyword, value) =>
      ReportAfter(st, s, d, Diagnostic(keyword, TopLevelReturn));
      if value.Some? {
        if s.currentFunction == NONE {
          ExprAfter(st, s.(errors := s.errors + [Diagnostic(keyword, TopLevelReturn)]),
                    d.(errors := d.errors + [Diagnostic(keyword, TopLevelReturn)]), value.value);
        } else {
          ExprAfter(st, s, d, value.value);
        }
      }
    case Var(name, initializer) =>
      DeclareAfter(st, s, d, name);
      var s1, d1 := Declare(s, name), Declare(d, name);
      if initializer.Some? {
        ExprAfter(st, s1, d1, initializer.value);
        DeclareAfter(st, ResolveExpr(s1, initializer.value), ResolveExpr(d1, initializer.value), name);
      } else {
        DeclareAfter(st, s1, d1, name);
      }
    case While(condition, loopBody) =>
      ExprAfter(st, s, d, condition);
      StmtAfter(st, ResolveExpr(s, condition), ResolveExpr(d, condition), loopBody);
  }

  lemma {:induction false} BlockAfter(st: State, s: State, d: State, statements: seq<Option<Stmt>>)
    requires Extends(st, d, s) && NullFreeList(statements)
    decreases statements, 4
    ensures Extends(st, ResolveBlock(d, statements), ResolveBlock(s, statements))
  {
    ScopeAfter(st, s, d, NONE);
    StmtsAfter(st, BeginScope(s), BeginScope(d), statements);
    ScopeAfter(st, ResolveStmts(BeginScope(s), statements), ResolveStmts(BeginScope(d), statements), NONE);
  }

  lemma {:induction false} StmtsAfter(st: State, s: State, d: State, ss: seq<Option<Stmt>>)
    requires Extends(st, d, s) && NullFreeList(ss)
    decreases ss, 3
    ensures Extends(st, ResolveStmts(d, ss), ResolveStmts(s, ss))
  {
    if ss != [] {
      var front := ss[..|ss| - 1];
      StmtsAfter(st, s, d, front);
      EntryAfter(st, ResolveStmts(s, front), ResolveStmts(d, front), ss[|ss| - 1]);
    }
  }

  lemma {:induction false} EntryAfter(st: State, s: State, d: State, entry: Option<Stmt>)
    requires Extends(st, d, s) && NullFreeEntry(entry)
    decreases entry, 2
    ensures Extends(st, ResolveEntry(d, entry), ResolveEntry(s, entry))
  {
    StmtAfter(st, s, d, entry.value);
  }

  lemma {:induction false} ParamsAfter(st: State, s: State, d: State, params: seq<Token>)
    requires Extends(st, d, s)
    ensures Extends(st, DeclareParams(d, params), DeclareParams(s, params))
  {
    if params != [] {
      var front, p := params[..|params| - 1], params[|params| - 1];
      ParamsAfter(st, s, d, front);
      DeclareAfter(st, DeclareParams(s, front), DeclareParams(d, front), p);
      DeclareAfter(st, Declare(DeclareParams(s, front), p), Declare(DeclareParams(d, front), p), p);
    }
  }

  lemma {:induction false} FunctionAfter(st: State, s: State, d: State, params: seq<Token>, body: seq<Option<Stmt>>, kind: FunctionType)
    requires Extends(st, d, s) && NullFreeList(body)
    decreases body, 4
    ensures Extends(st, ResolveFunction(d, params, body, kind), ResolveFunction(s, params, body, kind))
  {
    ScopeAfter(st, s, d, NONE);
    var s1, d1 := BeginScope(s), BeginScope(d);
    ScopeAfter(st, s1, d1, kind);
    var s2, d2 := s1.(currentFunction := kind), d1.(currentFunction := kind);
    ParamsAfter(st, s2, d2, params);
    StmtsAfter(st, DeclareParams(s2, params), DeclareParams(d2, params), body);
    var s3, d3 := ResolveStmts(DeclareParams(s2, params), body), ResolveStmts(DeclareParams(d2, params), body);
    ScopeAfter(st, s3, d3, NONE);
    ScopeAfter(st, EndScope(s3), EndScope(d3), s.currentFunction);
  }

  /**
   * Resolving statements from any side table and any reports gives the
   * annotations and reports they give from an empty table and no reports,
   * laid over the old ones: the hop counts written depend on the program
   * and the scopes alone.
   */
  lemma StmtsIgnoreTable(st: State, ss: seq<Option<Stmt>>)
    requires NullFreeList(ss)
    ensures var delta := ResolveStmts(Fresh(st), ss);
            ResolveStmts(st, ss) == delta.(locals := st.locals + delta.locals, errors := st.errors + delta.errors)
  {
    NothingDone(st);
    StmtsAfter(st, st, Fresh(st), ss);
  }

  /**
   * Running the resolver a second time over the same program, into the
   * side table the first run filled, leaves every hop count as it was and
   * reports the same diagnostics again.
   */
  lemma ResolvingTwice(ss: seq<Option<Stmt>>)
    requires NullFreeList(ss)
    ensures var first := ResolveStmts(Initial(), ss);
            var second := ResolveStmts(Initial().(locals := first.locals), ss);
            second.locals == first.locals && second.errors == first.errors
  {
    var first := ResolveStmts(Initial(), ss);
    StmtsIgnoreTable(Initial(), ss);
    assert Fresh(Initial()) == Initial();
    StmtsIgnoreTable(Initial().(locals := first.locals), ss);
    assert Fresh(Initial().(locals := first.locals)) == Initial();
    assert first.locals + first.locals == first.locals;
  }

  // ---------------------------------------------------------------------
  // Declarations and reads
  // ---------------------------------------------------------------------

  /**
   * `declare` and `define` do nothing while no scope is open. Otherwise
   * `declare` leaves the name declared but undefined in the innermost scope
   * whatever it held before, and reports exactly one duplicate exactly when
   * the innermost scope already held the name: what outer scopes hold plays
   * no part.
   */
  lemma DeclareChecksInnermostOnly(st: State, name: Token)
    ensures |st.scopes| == 0 ==> Declare(st, name) == st && Define(st, name) == st
    ensures var r := Declare(st, name);
            |st.scopes| > 0 ==>
              && Top(r.scopes) == Top(st.scopes)[name.lexeme := false]
              && r.errors[..|st.errors|] == st.errors
              && (|r.errors| == |st.errors| + 1 <==> name.lexeme in Top(st.scopes))
              && (|r.errors| == |st.errors| + 1 ==> r.errors[|st.errors|] == Diagnostic(name, AlreadyDeclared))
              && (|r.errors| != |st.errors| + 1 ==> r.errors == st.errors)
  {
  }

  /**
   * A `var` statement in a local scope: its name is declared but undefined
   * while the initializer is resolved and defined afterwards, no other scope
   * changes, and the first report it makes is a duplicate declaration exactly
   * when the innermost scope already held the name.
   */
  lemma VarDeclaration(st: State, name: Token, initializer: Option<Expr>)
    requires |st.scopes| > 0
    ensures Uninitialized(Declare(st, name).scopes, name.lexeme)
    ensures var r := ResolveVar(st, name, initializer);
            && Top(r.scopes) == Top(st.scopes)[name.lexeme := true]
            && r.scopes[..|r.scopes| - 1] == st.scopes[..|st.scopes| - 1]
            && ((|r.errors| > |st.errors| && r.errors[|st.errors|] == Diagnostic(name, AlreadyDeclared))
                <==> name.lexeme in Top(st.scopes))
  {
    var declared := Declare(st, name);
    var initialized := if initializer.Some? then ResolveExpr(declared, initializer.value) else declared;
    assert initialized.scopes == declared.scopes;
    assert AddsOnly(declared.errors, initialized.errors, ReadInOwnInitializer);
  }

  /** With no scope open, resolving an expression changes nothing: every name is global. */
  lemma {:induction false} TopLevelExpr(st: State, e: Expr)
    requires st.scopes == []
    decreases e, 1
    ensures ResolveExpr(st, e) == st
  {
    match e
    case Ternary(left, _, mid, _, right) =>
      TopLevelExpr(st, left);
      TopLevelExpr(st, mid);
      TopLevelExpr(st, right);
    case Binary(left, _, right) =>
      TopLevelExpr(st, left);
      TopLevelExpr(st, right);
    case Call(callee, _, arguments) =>
      TopLevelExpr(st, callee);
      TopLevelExprs(st, arguments);
    case Get(obj, _) => TopLevelExpr(st, obj);
    case Grouping(inner) => TopLevelExpr(st, inner);
    case Literal(_) =>
    case Logical(left, _, right) =>
      TopLevelExpr(st, left);
      TopLevelExpr(st, right);
    case Set(obj, _, value) =>
      TopLevelExpr(st, value);
      TopLevelExpr(st, obj);
    case Unary(_, right) => TopLevelExpr(st, right);
    case Variable(_, _) =>
    case Assign(_, _, value) => TopLevelExpr(st, value);
  }

  lemma {:induction false} TopLevelExprs(st: State, es: seq<Expr>)
    requires st.scopes == []
    decreases es, 0
    ensures ResolveExprs(st, es) == st
  {
    if es != [] {
      TopLevelExprs(st, es[..|es| - 1]);
      TopLevelExpr(st, es[|es| - 1]);
    }
  }

  /**
   * A declaration outside every block and function is not recorded and is
   * never reported, whatever its initializer reads.
   */
  lemma TopLevelVar(st: State, name: Token, initializer: Option<Expr>)
    requires st.scopes == []
    ensures ResolveVar(st, name, initializer) == st
  {
    if initializer.Some? {
      TopLevelExpr(st, initializer.value);
    }
  }

  /**
   * A read of a name is reported exactly when the innermost scope holds the
   * name declared but not yet defined; a name held only by outer scopes, or
   * by none, is never reported.
   */
  lemma ReadCheck(st: State, id: NodeId, name: Token)
    ensures var r := ResolveExpr(st, Variable(id, name));
            && (Uninitialized(st.scopes, name.lexeme) ==> r.errors == st.errors + [Diagnostic(name, ReadInOwnInitializer)])
            && (!Uninitialized(st.scopes, name.lexeme) ==> r.errors == st.errors)
  {
  }

  /**
   * A read of a name some scope declares is annotated with the number of
   * scopes between the innermost one and the nearest one declaring the
   * name; no other annotation changes.
   */
  lemma ReadHops(st: State, id: NodeId, name: Token)
    requires exists i | 0 <= i < |st.scopes| :: name.lexeme in st.scopes[i]
    ensures var r := ResolveExpr(st, Variable(id, name));
            && id in r.locals
            && r.locals[id] < |st.scopes|
            && name.lexeme in st.scopes[|st.scopes| - 1 - r.locals[id]]
            && (forall j | |st.scopes| - 1 - r.locals[id] < j < |st.scopes| :: name.lexeme !in st.scopes[j])
            && r.locals == st.locals[id := r.locals[id]]
  {
    var checked := CheckRead(st, name);
    assert checked.scopes == st.scopes && checked.locals == st.locals;
    var hops := Hops(st.scopes, name.lexeme);
    assert hops.Some?;
    assert ResolveExpr(st, Variable(id, name)) == ResolveLocal(checked, id, name);
    assert ResolveLocal(checked, id, name).locals == st.locals[id := hops.value];
  }

  /** A read of a name no scope declares is left unannotated: it is global. */
  lemma ReadGlobal(st: State, id: NodeId, name: Token)
    requires forall i | 0 <= i < |st.scopes| :: name.lexeme !in st.scopes[i]
    ensures ResolveExpr(st, Variable(id, name)).locals == st.locals
  {
  }

  /**
   * A `return` is reported exactly when it is outside every function, and
   * its value is resolved just as it would be without the report.
   */
  lemma ReturnReported(st: State, keyword: Token, value: Option<Expr>)
    ensures var r := ResolveReturn(st, keyword, value);
            && ((|r.errors| > |st.errors| && r.errors[|st.errors|] == Diagnostic(keyword, TopLevelReturn))
                <==> st.currentFunction == NONE)
            && (value.Some? ==> r.locals == ResolveExpr(st, value.value).locals)
  {
    if value.Some? {
      var reported := st.(errors := st.errors + [Diagnostic(keyword, TopLevelReturn)]);
      NothingDone(st);
      ExprAfter(st, st, Fresh(st), value.value);
      NothingDone(reported);
      ExprAfter(reported, reported, Fresh(reported), value.value);
      assert Fresh(reported) == Fresh(st);
    }
  }

  // ---------------------------------------------------------------------
  // Programs
  // ---------------------------------------------------------------------

  lemma OneStatement(st: State, a: Option<Stmt>)
    requires NullFreeEntry(a)
    ensures NullFreeList([a]) && ResolveStmts(st, [a]) == ResolveEntry(st, a)
  {
    assert [a][..0] == [];
  }

  lemma TwoStatements(st: State, a: Option<Stmt>, b: Option<Stmt>)
    requires NullFreeEntry(a) && NullFreeEntry(b)
    ensures NullFreeList([a, b]) && ResolveStmts(st, [a, b]) == ResolveEntry(ResolveEntry(st, a), b)
  {
    assert [a, b][..1] == [a];
    OneStatement(st, a);
  }

  /** `{ var x = 1; var x = 2; }` reports exactly one diagnostic, on the second `x`. */
  lemma DuplicateInBlock(st: State, block: Stmt, first: Token, second: Token, one: Value, two: Value)
    requires block == Block([Some(Var(first, Some(Literal(one)))), Some(Var(second, Some(Literal(two))))])
    requires first.lexeme == second.lexeme
    ensures NullFree(block)
    ensures ResolveStmt(st, block).errors == st.errors + [Diagnostic(second, AlreadyDeclared)]
  {
    var entered := BeginScope(st);
    var afterFirst := ResolveVar(entered, first, Some(Literal(one)));
    assert afterFirst.errors == st.errors && first.lexeme in Top(afterFirst.scopes);
    var afterSecond := ResolveVar(afterFirst, second, Some(Literal(two)));
    assert afterSecond.errors == st.errors + [Diagnostic(second, AlreadyDeclared)];
    TwoStatements(entered, block.statements[0], block.statements[1]);
  }

  /** The inner declaration of `ShadowingInitializer`, in a fresh scope. */
  lemma ReadInInitializer(st: State, inner: Token, reference: Token, id: NodeId, one: Value, plus: Token)
    requires st.scopes == [] && inner.lexeme == reference.lexeme
    ensures var initializer := Binary(Variable(id, reference), plus, Literal(one));
            ResolveVar(BeginScope(st), inner, Some(initializer)).errors
              == st.errors + [Diagnostic(reference, ReadInOwnInitializer)]
  {
    var declared := Declare(BeginScope(st), inner);
    assert declared.errors == st.errors && Uninitialized(declared.scopes, reference.lexeme);
    var read := ResolveExpr(declared, Variable(id, reference));
    assert read.errors == st.errors + [Diagnostic(reference, ReadInOwnInitializer)];
    assert ResolveExpr(declared, Binary(Variable(id, reference), plus, Literal(one))) == read;
  }

  /**
   * `var a = 1; { var a = a + 1; }`: the inner `a` is only declared while
   * its initializer is resolved, so the read of `a` there is reported, even
   * though an outer `a` is defined.
   */
  lemma ShadowingInitializer(st: State, program: seq<Option<Stmt>>, outer: Token, inner: Token, reference: Token,
                             id: NodeId, one: Value, plus: Token)
    requires program == [
               Some(Var(outer, Some(Literal(one)))),
               Some(Block([Some(Var(inner, Some(Binary(Variable(id, reference), plus, Literal(one)))))]))]
    requires st.scopes == [] && outer.lexeme == inner.lexeme == reference.lexeme
    ensures NullFreeList(program)
    ensures ResolveStmts(st, program).errors == st.errors + [Diagnostic(reference, ReadInOwnInitializer)]
  {
    var initializer := Binary(Variable(id, reference), plus, Literal(one));
    TopLevelVar(st, outer, Some(Literal(one)));
    assert ResolveEntry(st, program[0]) == st;
    ReadInInitializer(st, inner, reference, id, one, plus);
    var body := program[1].value.statements;
    OneStatement(BeginScope(st), body[0]);
    assert ResolveStmts(BeginScope(st), body) == ResolveVar(BeginScope(st), inner, Some(initializer));
    assert ResolveStmt(st, program[1].value) == ResolveBlock(st, body);
    assert ResolveEntry(st, program[1]).errors == st.errors + [Diagnostic(reference, ReadInOwnInitializer)];
    TwoStatements(st, program[0], program[1]);
  }

  /** `{ var a = 1; { print a; } }`: the read of `a` is annotated one scope out. */
  lemma NestedRead(st: State, program: Stmt, name: Token, reference: Token, id: NodeId, one: Value)
    requires program == Block([
               Some(Var(name, Some(Literal(one)))),
               Some(Block([Some(Print(Variable(id, reference)))]))])
    requires st.scopes == [] && name.lexeme == reference.lexeme
    ensures NullFree(program)
    ensures ResolveStmt(st, program).locals == st.locals[id := 1]
  {
    var entered := BeginScope(st);
    var declared := ResolveVar(entered, name, Some(Literal(one)));
    assert |declared.scopes| == 1 && name.lexeme in declared.scopes[0] && declared.locals == st.locals;
    assert ResolveEntry(entered, program.statements[0]) == declared;
    var nested := BeginScope(declared);
    assert Innermost(nested.scopes, reference.lexeme) == Some(0);
    var read := ResolveExpr(nested, Variable(id, reference));
    assert read.locals == st.locals[id := 1];
    var body := program.statements[1].value.statements;
    OneStatement(nested, body[0]);
    assert ResolveStmts(nested, body) == read;
    assert ResolveStmt(declared, program.statements[1].value) == ResolveBlock(declared, body);
    TwoStatements(entered, program.statements[0], program.statements[1]);
    assert ResolveStmt(st, program) == ResolveBlock(st, program.statements);
  }
}
