/**
 * What the static resolver of jlox/src/com/yadav/lox/Resolver.java computes,
 * as functions on the resolver's state. The class in resolver.dfy updates its
 * fields in place and is proved to follow these functions step by step.
 *
 * The state is the stack of scopes, the kind of function being resolved, the
 * hop counts handed to the interpreter through `interpreter.resolve` (a map
 * keyed by node identity), and the reports made through `Lox.error`.
 */
module Resolution {
  import opened Ast
  import opened Scopes

  datatype FunctionType = NONE | FUNCTION

  datatype State = State(
    scopes: seq<Scope>,
    currentFunction: FunctionType,
    locals: map<NodeId, nat>,
    errors: seq<Diagnostic>)

  /** A freshly constructed resolver: no scopes, outside any function. */
  function Initial(): State {
    State([], NONE, map[], [])
  }

  // ---------------------------------------------------------------------
  // Scope bookkeeping
  // ---------------------------------------------------------------------

  function BeginScope(st: State): State {
    st.(scopes := st.scopes + [map[]])
  }

  function EndScope(st: State): State
    requires |st.scopes| > 0
  {
    st.(scopes := st.scopes[..|st.scopes| - 1])
  }

  /** Marks `name` declared but not defined in the innermost scope, reporting a duplicate there. */
  function Declare(st: State, name: Token): (r: State)
    ensures StmtEffect(st, r)
  {
    if |st.scopes| == 0 then st
    else
      var reports := if name.lexeme in Top(st.scopes) then [Diagnostic(name, AlreadyDeclared)] else [];
      st.(scopes := Put(st.scopes, name.lexeme, false), errors := st.errors + reports)
  }

  function Define(st: State, name: Token): (r: State)
    ensures StmtEffect(st, r)
  {
    if |st.scopes| == 0 then st
    else st.(scopes := Put(st.scopes, name.lexeme, true))
  }

  /** The check `visitVariableExpr` makes before resolving the name. */
  function CheckRead(st: State, name: Token): (r: State)
    ensures ExprEffect(st, r)
  {
    if Uninitialized(st.scopes, name.lexeme)
    then st.(errors := st.errors + [Diagnostic(name, ReadInOwnInitializer)])
    else st
  }

  /** Records the hop count of node `id`, if some scope declares `name`. */
  function ResolveLocal(st: State, id: NodeId, name: Token): (r: State)
    ensures ExprEffect(st, r)
  {
    match Hops(st.scopes, name.lexeme)
    case None => st
    case Some(hops) => st.(locals := st.locals[id := hops])
  }

  // ---------------------------------------------------------------------
  // Summaries of what a traversal may change
  // ---------------------------------------------------------------------

  /** `after` extends `before`, and every report added carries `m`. */
  predicate AddsOnly(before: seq<Diagnostic>, after: seq<Diagnostic>, m: Message) {
    before <= after && forall i | |before| <= i < |after| :: after[i].message == m
  }

  /**
   * No annotation was dropped, and every annotation that is new or changed
   * is on one of the nodes `ids`.
   */
  predicate Keeps(before: map<NodeId, nat>, after: map<NodeId, nat>, ids: set<NodeId>) {
    && before.Keys <= after.Keys
    && forall id | id in after :: id in ids || (id in before && after[id] == before[id])
  }

  /** No annotation was dropped, and every annotation that is new or changed is below `depth`. */
  predicate HopsBelow(before: map<NodeId, nat>, after: map<NodeId, nat>, depth: nat) {
    && before.Keys <= after.Keys
    && forall id | id in after :: (id in before && after[id] == before[id]) || after[id] < depth
  }

  /** The two stacks have the same height and agree everywhere but on the top scope. */
  predicate SameBelowTop(before: seq<Scope>, after: seq<Scope>) {
    |after| == |before| && forall i | 0 <= i < |before| - 1 :: after[i] == before[i]
  }

  /**
   * What resolving an expression may do to the state: leave the scopes and
   * the function kind alone, report only reads in an own initializer, and
   * annotate nodes only with hop counts that name a scope.
   */
  predicate ExprEffect(before: State, after: State) {
    && after.scopes == before.scopes
    && after.currentFunction == before.currentFunction
    && AddsOnly(before.errors, after.errors, ReadInOwnInitializer)
    && HopsBelow(before.locals, after.locals, |before.scopes|)
  }

  /**
   * What resolving a statement may do to the state: keep the height of the
   * stack, every scope but the top one and the function kind, only add
   * reports, and drop no annotation.
   */
  predicate StmtEffect(before: State, after: State) {
    && SameBelowTop(before.scopes, after.scopes)
    && after.currentFunction == before.currentFunction
    && before.errors <= after.errors
    && before.locals.Keys <= after.locals.Keys
  }

  // ---------------------------------------------------------------------
  // Expressions
  // ---------------------------------------------------------------------

  /**
   * Resolving an expression leaves the scopes alone, only reports reads in
   * an own initializer, and only annotates the expression's own Variable and
   * Assign nodes, each with a hop count that names an existing scope.
   */
  function ResolveExpr(st: State, e: Expr): (r: State)
    decreases e, 1
    ensures ExprEffect(st, r)
  {
    match e
    case Ternary(left, _, mid, _, right) => ResolveExpr(ResolveExpr(ResolveExpr(st, left), mid), right)
    case Binary(left, _, right) => ResolveExpr(ResolveExpr(st, left), right)
    case Call(callee, _, arguments) => ResolveExprs(ResolveExpr(st, callee), arguments)
    case Get(obj, _) => ResolveExpr(st, obj)
    case Grouping(inner) => ResolveExpr(st, inner)
    case Literal(_) => st
    case Logical(left, _, right) => ResolveExpr(ResolveExpr(st, left), right)
    case Set(obj, _, value) => ResolveExpr(ResolveExpr(st, value), obj) // the value first, then the object
    case Unary(_, right) => ResolveExpr(st, right)
    case Variable(id, name) => ResolveLocal(CheckRead(st, name), id, name)
    case Assign(id, name, value) => ResolveLocal(ResolveExpr(st, value), id, name)
  }

  /** The call arguments, left to right. */
  function ResolveExprs(st: State, es: seq<Expr>): (r: State)
    decreases es, 0
    ensures ExprEffect(st, r)
  {
    if es == [] then st
    else ResolveExpr(ResolveExprs(st, es[..|es| - 1]), es[|es| - 1])
  }

  // ---------------------------------------------------------------------
  // Statements
  // ---------------------------------------------------------------------

  /**
   * Resolving a statement keeps the height of the stack and every scope but
   * the top one; a block, an expression, a print or a return keeps the whole
   * stack.
   */
  function ResolveStmt(st: State, s: Stmt): (r: State)
    requires NullFree(s)
    decreases s, 1
    ensures StmtEffect(st, r)
    ensures s.Block? || s.Expression? || s.Print? || s.Return? ==> r.scopes == st.scopes
  {
    match s
    case Block(statements) => ResolveBlock(st, statements)
    case Class(name) => Define(Declare(st, name), name)
    case Function(name, params, body) => ResolveFunction(Define(Declare(st, name), name), params, body, FUNCTION)
    case Expression(e) => ResolveExpr(st, e)
    case If(condition, thenBranch, elseBranch) =>
      var afterThen := ResolveStmt(ResolveExpr(st, condition), thenBranch);
      if elseBranch.Some? then ResolveStmt(afterThen, elseBranch.value) else afterThen
    case Print(e) => ResolveExpr(st, e)
    case Return(keyword, value) => ResolveReturn(st, keyword, value)
    case Var(name, initializer) => ResolveVar(st, name, initializer)
    case While(condition, loopBody) => ResolveStmt(ResolveExpr(st, condition), loopBody)
  }

  /** `visitReturnStmt`: a return outside any function is reported; its value is resolved either way. */
  function ResolveReturn(st: State, keyword: Token, value: Option<Expr>): (r: State)
    ensures StmtEffect(st, r) && r.scopes == st.scopes
  {
    var reported := if st.currentFunction == NONE
                    then st.(errors := st.errors + [Diagnostic(keyword, TopLevelReturn)])
                    else st;
    if value.Some? then ResolveExpr(reported, value.value) else reported
  }

  /** `visitVarStmt`: declare, resolve the initializer, then define. */
  function ResolveVar(st: State, name: Token, initializer: Option<Expr>): (r: State)
    ensures StmtEffect(st, r)
  {
    var declared := Declare(st, name);
    var initialized := if initializer.Some? then ResolveExpr(declared, initializer.value) else declared;
    Define(initialized, name)
  }

  /** `visitBlockStmt`: the statements in a scope of their own, which is popped again. */
  function ResolveBlock(st: State, statements: seq<Option<Stmt>>): (r: State)
    requires NullFreeList(statements)
    decreases statements, 4
    ensures StmtEffect(st, r) && r.scopes == st.scopes
  {
    EndScope(ResolveStmts(BeginScope(st), statements))
  }

  function ResolveEntry(st: State, d: Option<Stmt>): (r: State)
    requires NullFreeEntry(d)
    decreases d, 2
    ensures StmtEffect(st, r)
  {
    ResolveStmt(st, d.value)
  }

  /** `resolve(List<Stmt>)`: the statements in order. */
  function ResolveStmts(st: State, ss: seq<Option<Stmt>>): (r: State)
    requires NullFreeList(ss)
    decreases ss, 3
    ensures StmtEffect(st, r)
  {
    if ss == [] then st
    else ResolveEntry(ResolveStmts(st, ss[..|ss| - 1]), ss[|ss| - 1])
  }

  /**
   * `resolveFunction`: the body is resolved in a new scope holding the
   * parameters, as a function of kind `kind`; afterwards the stack and the
   * enclosing function kind are exactly as they were.
   */
  function ResolveFunction(st: State, params: seq<Token>, body: seq<Option<Stmt>>, kind: FunctionType): (r: State)
    requires NullFreeList(body)
    decreases body, 4
    ensures StmtEffect(st, r) && r.scopes == st.scopes
  {
    var entered := BeginScope(st).(currentFunction := kind);
    var resolved := ResolveStmts(DeclareParams(entered, params), body);
    EndScope(resolved).(currentFunction := st.currentFunction)
  }

  /**
   * Declares and defines each parameter in turn. Afterwards every parameter
   * is defined in the top scope, every name the top scope held is still
   * there, and the only reports are duplicate parameter names.
   */
  function DeclareParams(st: State, params: seq<Token>): (r: State)
    ensures SameBelowTop(st.scopes, r.scopes)
    ensures r.currentFunction == st.currentFunction && r.locals == st.locals
    ensures AddsOnly(st.errors, r.errors, AlreadyDeclared)
    ensures |st.scopes| > 0 ==>
              && (forall k | k in Top(st.scopes) :: k in Top(r.scopes))
              && (forall p | p in params :: p.lexeme in Top(r.scopes) && Top(r.scopes)[p.lexeme])
  {
    if params == [] then st
    else
      var p := params[|params| - 1];
      Define(Declare(DeclareParams(st, params[..|params| - 1]), p), p)
  }
}
