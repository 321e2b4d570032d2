/**
 * What the earlier, partial resolver of src/com/yadav/lox/Resolver.java
 * computes, as functions on its state. It supports only blocks, `var`
 * statements and variable reads; every other visitor throws
 * `UnsupportedOperationException`, which abandons the whole pass. Its
 * `declare` never reports a duplicate.
 *
 * That version of the syntax trees has no class statements and no property
 * get or set; the model treats those nodes like the other unsupported ones.
 */
module EarlyResolution {
  import opened Ast
  import opened Scopes

  datatype EarlyState = EarlyState(scopes: seq<Scope>, locals: map<NodeId, nat>, errors: seq<Diagnostic>)

  /** How a pass ends: normally, or by an `UnsupportedOperationException` thrown in `state`. */
  datatype Outcome = Completed(state: EarlyState) | Unsupported(state: EarlyState)

  function Initial(): EarlyState {
    EarlyState([], map[], [])
  }

  function BeginScope(st: EarlyState): EarlyState {
    st.(scopes := st.scopes + [map[]])
  }

  function EndScope(st: EarlyState): EarlyState
    requires |st.scopes| > 0
  {
    st.(scopes := st.scopes[..|st.scopes| - 1])
  }

  /** Marks `name` declared but not defined in the innermost scope, whatever it held before. */
  function Declare(st: EarlyState, name: Token): (r: EarlyState)
    ensures r.errors == st.errors && r.locals == st.locals
    ensures |st.scopes| == 0 ==> r == st
    ensures |st.scopes| > 0 ==> |r.scopes| == |st.scopes| && Top(r.scopes) == Top(st.scopes)[name.lexeme := false]
  {
    if |st.scopes| == 0 then st else st.(scopes := Put(st.scopes, name.lexeme, false))
  }

  function Define(st: EarlyState, name: Token): (r: EarlyState)
    ensures r.errors == st.errors && r.locals == st.locals
    ensures |st.scopes| == 0 ==> r == st
    ensures |st.scopes| > 0 ==> |r.scopes| == |st.scopes| && Top(r.scopes) == Top(st.scopes)[name.lexeme := true]
  {
    if |st.scopes| == 0 then st else st.(scopes := Put(st.scopes, name.lexeme, true))
  }

  function ResolveLocal(st: EarlyState, id: NodeId, name: Token): EarlyState {
    match Hops(st.scopes, name.lexeme)
    case None => st
    case Some(hops) => st.(locals := st.locals[id := hops])
  }

  /** Only a variable read is supported: it is checked and annotated as by the full resolver. */
  function ResolveExpr(st: EarlyState, e: Expr): (r: Outcome)
    ensures r.state.scopes == st.scopes && st.errors <= r.state.errors
    ensures r.Completed? <==> e.Variable?
  {
    match e
    case Variable(id, name) =>
      var checked := if Uninitialized(st.scopes, name.lexeme)
                     then st.(errors := st.errors + [Diagnostic(name, ReadInOwnInitializer)])
                     else st;
      Completed(ResolveLocal(checked, id, name))
    case _ => Unsupported(st)
  }

  /** The statements the partial resolver can get through without throwing. */
  predicate Supported(s: Stmt)
    decreases s, 1
  {
    match s
    case Block(statements) => SupportedList(statements)
    case Var(_, initializer) => initializer.None? || initializer.value.Variable?
    case _ => false
  }

  predicate SupportedEntry(d: Option<Stmt>)
    decreases d, 2
  {
    d.Some? && Supported(d.value)
  }

  predicate SupportedList(ss: seq<Option<Stmt>>)
    decreases ss, 3
  {
    forall i | 0 <= i < |ss| :: SupportedEntry(ss[i])
  }

  /**
   * A completed statement leaves the stack as high as it found it, with all
   * scopes but the top one unchanged; a thrown one leaves every block it was
   * inside still pushed. Either way the only reports are reads in an own
   * initializer.
   */
  function ResolveStmt(st: EarlyState, s: Stmt): (r: Outcome)
    requires NullFree(s)
    decreases s, 1
    ensures r.Completed? ==> |r.state.scopes| == |st.scopes|
    ensures r.Completed? && s.Block? ==> r.state.scopes == st.scopes
    ensures |r.state.scopes| >= |st.scopes|
    ensures forall i | 0 <= i < |st.scopes| - 1 :: r.state.scopes[i] == st.scopes[i]
    ensures AddsOnly(st.errors, r.state.errors)
  {
    match s
    case Block(statements) =>
      (match ResolveStmts(BeginScope(st), statements)
       case Completed(inner) => Completed(EndScope(inner))
       case Unsupported(inner) => Unsupported(inner))
    case Var(name, initializer) =>
      var declared := Declare(st, name);
      if initializer.None? then Completed(Define(declared, name))
      else
        (match ResolveExpr(declared, initializer.value)
         case Completed(initialized) => Completed(Define(initialized, name))
         case Unsupported(thrown) => Unsupported(thrown))
    case _ => Unsupported(st)
  }

  function ResolveEntry(st: EarlyState, d: Option<Stmt>): (r: Outcome)
    requires NullFreeEntry(d)
    decreases d, 2
    ensures r.Completed? ==> |r.state.scopes| == |st.scopes|
    ensures |r.state.scopes| >= |st.scopes|
    ensures forall i | 0 <= i < |st.scopes| - 1 :: r.state.scopes[i] == st.scopes[i]
    ensures AddsOnly(st.errors, r.state.errors)
  {
    ResolveStmt(st, d.value)
  }

  /** `resolve(List<Stmt>)`: the statements in order, until one throws. */
  function ResolveStmts(st: EarlyState, ss: seq<Option<Stmt>>): (r: Outcome)
    requires NullFreeList(ss)
    decreases ss, 3
    ensures r.Completed? ==> |r.state.scopes| == |st.scopes|
    ensures |r.state.scopes| >= |st.scopes|
    ensures forall i | 0 <= i < |st.scopes| - 1 :: r.state.scopes[i] == st.scopes[i]
    ensures AddsOnly(st.errors, r.state.errors)
  {
    if ss == [] then Completed(st)
    else
      match ResolveStmts(st, ss[..|ss| - 1])
      case Completed(before) => ResolveEntry(before, ss[|ss| - 1])
      case Unsupported(thrown) => Unsupported(thrown)
  }

  /** `after` extends `before` with reads in an own initializer only. */
  predicate AddsOnly(before: seq<Diagnostic>, after: seq<Diagnostic>) {
    before <= after && forall i | |before| <= i < |after| :: after[i].message == ReadInOwnInitializer
  }
}
