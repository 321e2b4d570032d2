/**
 * The resolvers' stack of scopes (`Stack<Map<String, Boolean>>`), shared
 * by the full resolver of jlox/src/com/yadav/lox/Resolver.java and the
 * early one of src/com/yadav/lox/Resolver.java. The top of the stack is the
 * last element; a name maps to `false` while it is declared but not yet
 * defined and to `true` once it is defined.
 */
module Scopes {
  import opened Ast

  type Scope = map<string, bool>

  function Top(scopes: seq<Scope>): Scope
    requires |scopes| > 0
  {
    scopes[|scopes| - 1]
  }

  /** `scopes.peek().put(name, state)`. */
  function Put(scopes: seq<Scope>, name: string, state: bool): (r: seq<Scope>)
    requires |scopes| > 0
    ensures |r| == |scopes| && r[..|r| - 1] == scopes[..|scopes| - 1]
    ensures Top(r) == Top(scopes)[name := state]
  {
    scopes[|scopes| - 1 := Top(scopes)[name := state]]
  }

  /**
   * The index of the innermost scope that holds `name`, scanning from the
   * top of the stack down, as the loop of `resolveLocal` does.
   */
  function Innermost(scopes: seq<Scope>, name: string): (r: Option<nat>)
    ensures r.Some? ==>
              && r.value < |scopes| && name in scopes[r.value]
              && forall j | r.value < j < |scopes| :: name !in scopes[j]
    ensures r.None? ==> forall j | 0 <= j < |scopes| :: name !in scopes[j]
  {
    if |scopes| == 0 then None
    else if name in Top(scopes) then Some(|scopes| - 1)
    else Innermost(scopes[..|scopes| - 1], name)
  }

  /**
   * The hop count `resolveLocal` records: how many scopes lie between the
   * top of the stack and the innermost one declaring `name`; none when no
   * scope declares it (the name is then looked up globally at run time).
   */
  function Hops(scopes: seq<Scope>, name: string): (r: Option<nat>)
    ensures r.Some? <==> exists i | 0 <= i < |scopes| :: name in scopes[i]
    ensures r.Some? ==>
              && r.value < |scopes|
              && name in scopes[|scopes| - 1 - r.value]
              && forall j | |scopes| - 1 - r.value < j < |scopes| :: name !in scopes[j]
  {
    match Innermost(scopes, name)
    case None => None
    case Some(i) => Some(|scopes| - 1 - i)
  }

  /** `name` is declared in the innermost scope and not yet defined: a read of it is a read in its own initializer. */
  predicate Uninitialized(scopes: seq<Scope>, name: string) {
    |scopes| > 0 && name in Top(scopes) && !Top(scopes)[name]
  }
}
