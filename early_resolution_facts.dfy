/**
 * Properties of the partial resolver of src/com/yadav/lox/Resolver.java,
 * and how it compares with the full resolver of
 * jlox/src/com/yadav/lox/Resolver.java.
 */
module EarlyResolutionFacts {
  import opened Ast
  import opened Scopes
  import opened EarlyResolution
  import Resolution
  import ResolutionFacts

  // ---------------------------------------------------------------------
  // Which programs the partial resolver gets through
  // ---------------------------------------------------------------------

  lemma SupportedListSplit(ss: seq<Option<Stmt>>)
    requires ss != []
    ensures SupportedList(ss) <==> SupportedList(ss[..|ss| - 1]) && SupportedEntry(ss[|ss| - 1])
  {
    if SupportedList(ss[..|ss| - 1]) && SupportedEntry(ss[|ss| - 1]) {
      forall i | 0 <= i < |ss|
        ensures SupportedEntry(ss[i])
      {
        if i < |ss| - 1 {
          assert ss[i] == ss[..|ss| - 1][i];
        }
      }
    }
  }

  /**
   * A statement is resolved without an `UnsupportedOperationException`
   * exactly when it is built from blocks, `var` statements and initializers
   * that are plain variable reads.
   */
  lemma {:induction false} CompletesIffSupported(st: EarlyState, s: Stmt)
    requires NullFree(s)
    decreases s, 1
    ensures ResolveStmt(st, s).Completed? <==> Supported(s)
  {
    match s
    case Block(statements) => ListCompletesIffSupported(BeginScope(st), statements);
    case _ =>
  }

  lemma {:induction false} ListCompletesIffSupported(st: EarlyState, ss: seq<Option<Stmt>>)
    requires NullFreeList(ss)
    decreases ss, 3
    ensures ResolveStmts(st, ss).Completed? <==> SupportedList(ss)
  {
    if ss != [] {
      var front := ss[..|ss| - 1];
      ListCompletesIffSupported(st, front);
      SupportedListSplit(ss);
      var r := ResolveStmts(st, front);
      if r.Completed? {
        EntryCompletesIffSupported(r.state, ss[|ss| - 1]);
      }
    }
  }

  lemma {:induction false} EntryCompletesIffSupported(st: EarlyState, d: Option<Stmt>)
    requires NullFreeEntry(d)
    decreases d, 2
    ensures ResolveEntry(st, d).Completed? <==> SupportedEntry(d)
  {
    CompletesIffSupported(st, d.value);
  }

  /** Once a statement throws, the rest of the list is never looked at. */
  lemma {:induction false} ThrowSkipsRest(st: EarlyState, ss: seq<Option<Stmt>>, k: nat)
    requires NullFreeList(ss) && k <= |ss|
    requires ResolveStmts(st, ss[..k]).Unsupported?
    decreases |ss| - k
    ensures ResolveStmts(st, ss) == ResolveStmts(st, ss[..k])
  {
    if k < |ss| {
      var longer := ss[..k + 1];
      assert longer[..k] == ss[..k];
      ThrowSkipsRest(st, ss, k + 1);
    } else {
      assert ss[..k] == ss;
    }
  }

  /**
   * `var a = 1;` throws from `visitLiteralExpr` after `a` has been declared,
   * so a local `a` is left declared but not defined.
   */
  lemma LiteralInitializerThrows(st: EarlyState, name: Token, v: Value)
    requires |st.scopes| > 0
    ensures var r := ResolveStmt(st, Var(name, Some(Literal(v))));
            r.Unsupported? && Uninitialized(r.state.scopes, name.lexeme) && r.state.errors == st.errors
  {
    var declared := Declare(st, name);
    assert ResolveExpr(declared, Literal(v)) == Unsupported(declared);
    assert ResolveStmt(st, Var(name, Some(Literal(v)))) == Unsupported(declared);
    assert Top(declared.scopes) == Top(st.scopes)[name.lexeme := false];
  }

  // ---------------------------------------------------------------------
  // Agreement with the full resolver
  // ---------------------------------------------------------------------

  /** The reports other than duplicate declarations, in order. */
  function WithoutDuplicates(ds: seq<Diagnostic>): (r: seq<Diagnostic>)
    ensures |r| <= |ds|
    ensures forall i | 0 <= i < |r| :: r[i].message != AlreadyDeclared
  {
    if ds == [] then []
    else WithoutDuplicates(ds[..|ds| - 1]) + (if ds[|ds| - 1].message == AlreadyDeclared then [] else [ds[|ds| - 1]])
  }

  lemma WithoutDuplicatesAppend(ds: seq<Diagnostic>, d: Diagnostic)
    ensures WithoutDuplicates(ds + [d]) == WithoutDuplicates(ds) + (if d.message == AlreadyDeclared then [] else [d])
  {
    assert (ds + [d])[..|ds|] == ds;
  }

  /** A state of the partial resolver matches one of the full resolver. */
  predicate Agrees(early: EarlyState, full: Resolution.State) {
    && early.scopes == full.scopes
    && early.locals == full.locals
    && early.errors == WithoutDuplicates(full.errors)
  }

  /**
   * On every program the partial resolver gets through, it computes the
   * same scopes and the same hop counts as the full resolver, and the same
   * reports except that it never reports a duplicate declaration.
   */
  lemma {:induction false} AgreesWithFull(early: EarlyState, full: Resolution.State, s: Stmt)
    requires NullFree(s) && Supported(s) && Agrees(early, full)
    decreases s, 1
    ensures var r := ResolveStmt(early, s);
            r.Completed? && Agrees(r.state, Resolution.ResolveStmt(full, s))
  {
    match s
    case Block(statements) =>
      ListAgreesWithFull(BeginScope(early), Resolution.BeginScope(full), statements);
    case Var(name, initializer) =>
      VarAgreesWithFull(early, full, name, initializer);
  }

  lemma DeclareAgrees(early: EarlyState, full: Resolution.State, name: Token)
    requires Agrees(early, full)
    ensures Agrees(Declare(early, name), Resolution.Declare(full, name))
  {
    if |full.scopes| > 0 && name.lexeme in Top(full.scopes) {
      WithoutDuplicatesAppend(full.errors, Diagnostic(name, AlreadyDeclared));
    } else {
      assert Resolution.Declare(full, name).errors == full.errors;
    }
  }

  lemma ReadAgrees(early: EarlyState, full: Resolution.State, e: Expr)
    requires Agrees(early, full) && e.Variable?
    ensures ResolveExpr(early, e).Completed?
    ensures Agrees(ResolveExpr(early, e).state, Resolution.ResolveExpr(full, e))
  {
    var checked := Resolution.CheckRead(full, e.name);
    if Uninitialized(full.scopes, e.name.lexeme) {
      WithoutDuplicatesAppend(full.errors, Diagnostic(e.name, ReadInOwnInitializer));
    }
    assert Resolution.ResolveExpr(full, e) == Resolution.ResolveLocal(checked, e.id, e.name);
  }

  lemma VarAgreesWithFull(early: EarlyState, full: Resolution.State, name: Token, initializer: Option<Expr>)
    requires Agrees(early, full) && (initializer.None? || initializer.value.Variable?)
    ensures var r := ResolveStmt(early, Var(name, initializer));
            r.Completed? && Agrees(r.state, Resolution.ResolveVar(full, name, initializer))
  {
    var declared := Declare(early, name);
    DeclareAgrees(early, full, name);
    if initializer.Some? {
      ReadAgrees(declared, Resolution.Declare(full, name), initializer.value);
    }
  }

  lemma {:induction false} ListAgreesWithFull(early: EarlyState, full: Resolution.State, ss: seq<Option<Stmt>>)
    requires NullFreeList(ss) && SupportedList(ss) && Agrees(early, full)
    decreases ss, 3
    ensures var r := ResolveStmts(early, ss);
            r.Completed? && Agrees(r.state, Resolution.ResolveStmts(full, ss))
  {
    if ss != [] {
      var front := ss[..|ss| - 1];
      SupportedListSplit(ss);
      ListAgreesWithFull(early, full, front);
      EntryAgreesWithFull(ResolveStmts(early, front).state, Resolution.ResolveStmts(full, front), ss[|ss| - 1]);
    }
  }

  lemma {:induction false} EntryAgreesWithFull(early: EarlyState, full: Resolution.State, d: Option<Stmt>)
    requires NullFreeEntry(d) && SupportedEntry(d) && Agrees(early, full)
    decreases d, 2
    ensures var r := ResolveEntry(early, d);
            r.Completed? && Agrees(r.state, Resolution.ResolveEntry(full, d))
  {
    AgreesWithFull(early, full, d.value);
  }

  /** The full resolver's half of `DuplicateAccepted`. */
  lemma FullReportsDuplicate(full: Resolution.State, block: Stmt, first: Token, second: Token)
    requires block == Block([Some(Var(first, None)), Some(Var(second, None))])
    requires first.lexeme == second.lexeme
    ensures NullFree(block)
    ensures Resolution.ResolveStmt(full, block).errors == full.errors + [Diagnostic(second, AlreadyDeclared)]
  {
    var entered := Resolution.BeginScope(full);
    var afterFirst := Resolution.ResolveVar(entered, first, None);
    assert afterFirst.errors == full.errors && first.lexeme in Top(afterFirst.scopes);
    var afterSecond := Resolution.ResolveVar(afterFirst, second, None);
    assert afterSecond.errors == full.errors + [Diagnostic(second, AlreadyDeclared)];
    ResolutionFacts.TwoStatements(entered, block.statements[0], block.statements[1]);
  }

  /**
   * `{ var x; var x; }`: the full resolver reports the second `x`, the
   * partial one gets through it and reports nothing.
   */
  lemma DuplicateAccepted(early: EarlyState, full: Resolution.State, block: Stmt, first: Token, second: Token)
    requires block == Block([Some(Var(first, None)), Some(Var(second, None))])
    requires first.lexeme == second.lexeme && Agrees(early, full)
    ensures NullFree(block) && Supported(block)
    ensures Resolution.ResolveStmt(full, block).errors == full.errors + [Diagnostic(second, AlreadyDeclared)]
    ensures ResolveStmt(early, block).Completed?
    ensures ResolveStmt(early, block).state.errors == early.errors
  {
    FullReportsDuplicate(full, block, first, second);
    assert SupportedEntry(block.statements[0]) && SupportedEntry(block.statements[1]);
    WithoutDuplicatesAppend(full.errors, Diagnostic(second, AlreadyDeclared));
    AgreesWithFull(early, full, block);
  }
}
