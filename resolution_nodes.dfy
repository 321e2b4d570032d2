/**
 * Which nodes the static resolver of jlox/src/com/yadav/lox/Resolver.java
 * annotates: `interpreter.resolve` is only ever called on the Variable and
 * Assign nodes of the code being resolved, and no annotation is removed.
 */
module ResolutionNodes {
  import opened Ast
  import opened Scopes
  import opened Resolution

  lemma Chain(a: map<NodeId, nat>, b: map<NodeId, nat>, c: map<NodeId, nat>, first: set<NodeId>, second: set<NodeId>)
    requires Keeps(a, b, first) && Keeps(b, c, second)
    ensures Keeps(a, c, first + second)
  {
  }

  lemma Widen(a: map<NodeId, nat>, b: map<NodeId, nat>, ids: set<NodeId>, wider: set<NodeId>)
    requires Keeps(a, b, ids) && ids <= wider
    ensures Keeps(a, b, wider)
  {
  }

  lemma {:induction false} ExprAnnotatesOwnNodes(st: State, e: Expr)
    decreases e, 1
    ensures Keeps(st.locals, ResolveExpr(st, e).locals, ExprIds(e))
  {
    match e
    case Ternary(left, _, mid, _, right) =>
      var s1 := ResolveExpr(st, left);
      var s2 := ResolveExpr(s1, mid);
      ExprAnnotatesOwnNodes(st, left);
      ExprAnnotatesOwnNodes(s1, mid);
      ExprAnnotatesOwnNodes(s2, right);
      Chain(st.locals, s1.locals, s2.locals, ExprIds(left), ExprIds(mid));
      Chain(st.locals, s2.locals, ResolveExpr(s2, right).locals, ExprIds(left) + ExprIds(mid), ExprIds(right));
    case Binary(left, _, right) =>
      ExprAnnotatesOwnNodes(st, left);
      ExprAnnotatesOwnNodes(ResolveExpr(st, left), right);
      Chain(st.locals, ResolveExpr(st, left).locals, ResolveExpr(st, e).locals, ExprIds(left), ExprIds(right));
    case Call(callee, _, arguments) =>
      ExprAnnotatesOwnNodes(st, callee);
      ExprsAnnotateOwnNodes(ResolveExpr(st, callee), arguments);
      Chain(st.locals, ResolveExpr(st, callee).locals, ResolveExpr(st, e).locals, ExprIds(callee), ExprListIds(arguments));
    case Get(obj, _) => ExprAnnotatesOwnNodes(st, obj);
    case Grouping(inner) => ExprAnnotatesOwnNodes(st, inner);
    case Literal(_) =>
    case Logical(left, _, right) =>
      ExprAnnotatesOwnNodes(st, left);
      ExprAnnotatesOwnNodes(ResolveExpr(st, left), right);
      Chain(st.locals, ResolveExpr(st, left).locals, ResolveExpr(st, e).locals, ExprIds(left), ExprIds(right));
    case Set(obj, _, value) =>
      ExprAnnotatesOwnNodes(st, value);
      ExprAnnotatesOwnNodes(ResolveExpr(st, value), obj);
      Chain(st.locals, ResolveExpr(st, value).locals, ResolveExpr(st, e).locals, ExprIds(value), ExprIds(obj));
      Widen(st.locals, ResolveExpr(st, e).locals, ExprIds(value) + ExprIds(obj), ExprIds(e));
    case Unary(_, right) => ExprAnnotatesOwnNodes(st, right);
    case Variable(id, name) =>
    case Assign(id, name, value) =>
      var resolved := ResolveExpr(st, value);
      ExprAnnotatesOwnNodes(st, value);
      assert Keeps(resolved.locals, ResolveLocal(resolved, id, name).locals, {id});
      Chain(st.locals, resolved.locals, ResolveExpr(st, e).locals, ExprIds(value), {id});
      Widen(st.locals, ResolveExpr(st, e).locals, ExprIds(value) + {id}, ExprIds(e));
  }

  lemma {:induction false} ExprsAnnotateOwnNodes(st: State, es: seq<Expr>)
    decreases es, 0
    ensures Keeps(st.locals, ResolveExprs(st, es).locals, ExprListIds(es))
  {
    if es != [] {
      var front := es[..|es| - 1];
      ExprsAnnotateOwnNodes(st, front);
      ExprAnnotatesOwnNodes(ResolveExprs(st, front), es[|es| - 1]);
      Chain(st.locals, ResolveExprs(st, front).locals, ResolveExprs(st, es).locals, ExprListIds(front), ExprIds(es[|es| - 1]));
    }
  }

  lemma {:induction false} StmtAnnotatesOwnNodes(st: State, s: Stmt)
    requires NullFree(s)
    decreases s, 1
    ensures Keeps(st.locals, ResolveStmt(st, s).locals, StmtIds(s))
  {
    match s
    case Block(statements) =>
      StmtsAnnotateOwnNodes(BeginScope(st), statements);
    case Class(name) =>
    case Function(name, params, body) =>
      FunctionAnnotatesOwnNodes(Define(Declare(st, name), name), params, body, FUNCTION);
    case Expression(e) => ExprAnnotatesOwnNodes(st, e);
    case If(condition, thenBranch, elseBranch) =>
      var s1 := ResolveExpr(st, condition);
      var s2 := ResolveStmt(s1, thenBranch);
      ExprAnnotatesOwnNodes(st, condition);
      StmtAnnotatesOwnNodes(s1, thenBranch);
      Chain(st.locals, s1.locals, s2.locals, ExprIds(condition), StmtIds(thenBranch));
      if elseBranch.Some? {
        StmtAnnotatesOwnNodes(s2, elseBranch.value);
        Chain(st.locals, s2.locals, ResolveStmt(s2, elseBranch.value).locals,
              ExprIds(condition) + StmtIds(thenBranch), StmtIds(elseBranch.value));
      } else {
        Widen(st.locals, s2.locals, ExprIds(condition) + StmtIds(thenBranch), StmtIds(s));
      }
    case Print(e) => ExprAnnotatesOwnNodes(st, e);
    case Return(keyword, value) =>
      var reported := if st.currentFunction == NONE
                      then st.(errors := st.errors + [Diagnostic(keyword, TopLevelReturn)])
                      else st;
      if value.Some? {
        ExprAnnotatesOwnNodes(reported, value.value);
      }
    case Var(name, initializer) =>
      if initializer.Some? {
        ExprAnnotatesOwnNodes(Declare(st, name), initializer.value);
      }
    case While(condition, loopBody) =>
      ExprAnnotatesOwnNodes(st, condition);
      StmtAnnotatesOwnNodes(ResolveExpr(st, condition), loopBody);
      Chain(st.locals, ResolveExpr(st, condition).locals, ResolveStmt(st, s).locals, ExprIds(condition), StmtIds(loopBody));
  }

  lemma {:induction false} EntryAnnotatesOwnNodes(st: State, d: Option<Stmt>)
    requires NullFreeEntry(d)
    decreases d, 2
    ensures Keeps(st.locals, ResolveEntry(st, d).locals, EntryIds(d))
  {
    StmtAnnotatesOwnNodes(st, d.value);
  }

  lemma {:induction false} StmtsAnnotateOwnNodes(st: State, ss: seq<Option<Stmt>>)
    requires NullFreeList(ss)
    decreases ss, 3
    ensures Keeps(st.locals, ResolveStmts(st, ss).locals, EntryListIds(ss))
  {
    if ss != [] {
      var front := ss[..|ss| - 1];
      StmtsAnnotateOwnNodes(st, front);
      EntryAnnotatesOwnNodes(ResolveStmts(st, front), ss[|ss| - 1]);
      Chain(st.locals, ResolveStmts(st, front).locals, ResolveStmts(st, ss).locals, EntryListIds(front), EntryIds(ss[|ss| - 1]));
    }
  }

  lemma {:induction false} FunctionAnnotatesOwnNodes(st: State, params: seq<Token>, body: seq<Option<Stmt>>, kind: FunctionType)
    requires NullFreeList(body)
    decreases body, 4
    ensures Keeps(st.locals, ResolveFunction(st, params, body, kind).locals, EntryListIds(body))
  {
    var entered := BeginScope(st).(currentFunction := kind);
    StmtsAnnotateOwnNodes(DeclareParams(entered, params), body);
  }

  /**
   * Resolving a whole program from a fresh resolver annotates only the
   * program's own Variable and Assign nodes.
   */
  lemma ProgramAnnotatesOwnNodes(program: seq<Option<Stmt>>)
    requires NullFreeList(program)
    ensures ResolveStmts(Initial(), program).locals.Keys <= EntryListIds(program)
  {
    StmtsAnnotateOwnNodes(Initial(), program);
  }
}
