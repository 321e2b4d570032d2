/**
 * The partial resolver of src/com/yadav/lox/Resolver.java as a class whose
 * stack of scopes is updated in place. A visitor that throws
 * `UnsupportedOperationException` is a method returning `false`: the caller
 * stops at once, as the exception would make it, and the state is left as it
 * was at the throw. Every method is proved to follow the functions of module
 * EarlyResolution.
 */
module EarlyResolving {
  import opened Ast
  import opened Scopes
  import opened EarlyResolution
  import EarlyResolutionFacts

  class EarlyResolver {
    var scopes: seq<Scope>
    /** The interpreter's side table: what `interpreter.resolve(expr, depth)` writes. */
    var locals: map<NodeId, nat>
    /** What `Lox.error` has reported. */
    var errors: seq<Diagnostic>

    function Snapshot(): EarlyState
      reads this
    {
      EarlyState(scopes, locals, errors)
    }

    /** How a call that returned `ok` ended, in the terms of module EarlyResolution. */
    function Ended(ok: bool): Outcome
      reads this
    {
      if ok then Completed(Snapshot()) else Unsupported(Snapshot())
    }

    constructor ()
      ensures Snapshot() == Initial()
    {
      scopes := [];
      locals := map[];
      errors := [];
    }

    method BeginScope()
      modifies this
      ensures Snapshot() == EarlyResolution.BeginScope(old(Snapshot()))
    {
      scopes := scopes + [map[]];
    }

    method EndScope()
      requires |scopes| > 0
      modifies this
      ensures Snapshot() == EarlyResolution.EndScope(old(Snapshot()))
    {
      scopes := scopes[..|scopes| - 1];
    }

    method Declare(name: Token)
      modifies this
      ensures Snapshot() == EarlyResolution.Declare(old(Snapshot()), name)
    {
      if |scopes| == 0 {
        return;
      }
      scopes := Put(scopes, name.lexeme, false);
    }

    method Define(name: Token)
      modifies this
      ensures Snapshot() == EarlyResolution.Define(old(Snapshot()), name)
    {
      if |scopes| == 0 {
        return;
      }
      scopes := Put(scopes, name.lexeme, true);
    }

    /** Walks the stack from the top down and annotates node `id` at the first scope holding `name`. */
    method ResolveLocal(id: NodeId, name: Token)
      modifies this
      ensures Snapshot() == EarlyResolution.ResolveLocal(old(Snapshot()), id, name)
    {
      var i := |scopes| - 1;
      while i >= 0
        invariant -1 <= i < |scopes|
        invariant forall j | i < j < |scopes| :: name.lexeme !in scopes[j]
        invariant Snapshot() == old(Snapshot())
      {
        if name.lexeme in scopes[i] {
          locals := locals[id := |scopes| - 1 - i];
          return;
        }
        i := i - 1;
      }
    }

    method ResolveExpr(e: Expr) returns (ok: bool)
      modifies this
      ensures Ended(ok) == EarlyResolution.ResolveExpr(old(Snapshot()), e)
    {
      if !e.Variable? {
        return false;
      }
      if Uninitialized(scopes, e.name.lexeme) {
        errors := errors + [Diagnostic(e.name, ReadInOwnInitializer)];
      }
      ResolveLocal(e.id, e.name);
      return true;
    }

    method ResolveStmt(s: Stmt) returns (ok: bool)
      requires NullFree(s)
      modifies this
      decreases s, 1
      ensures Ended(ok) == EarlyResolution.ResolveStmt(old(Snapshot()), s)
    {
      match s
      case Block(statements) =>
        BeginScope();
        ok := Resolve(statements);
        if ok {
          EndScope();
        }
      case Var(name, initializer) =>
        Declare(name);
        if initializer.Some? {
          ok := ResolveExpr(initializer.value);
          if !ok {
            return;
          }
        }
        Define(name);
        ok := true;
      case _ =>
        ok := false;
    }

    method ResolveEntry(entry: Option<Stmt>) returns (ok: bool)
      requires NullFreeEntry(entry)
      modifies this
      decreases entry, 2
      ensures Ended(ok) == EarlyResolution.ResolveEntry(old(Snapshot()), entry)
    {
      ok := ResolveStmt(entry.value);
    }

    /** `resolve(List<Stmt>)`: the statements in order, until one throws. */
    method Resolve(statements: seq<Option<Stmt>>) returns (ok: bool)
      requires NullFreeList(statements)
      modifies this
      decreases statements, 3
      ensures Ended(ok) == EarlyResolution.ResolveStmts(old(Snapshot()), statements)
    {
      ghost var start := Snapshot();
      for i := 0 to |statements|
        invariant Completed(Snapshot()) == EarlyResolution.ResolveStmts(start, statements[..i])
      {
        assert statements[..i + 1][..i] == statements[..i];
        ok := ResolveEntry(statements[i]);
        if !ok {
          EarlyResolutionFacts.ThrowSkipsRest(start, statements, i + 1);
          return;
        }
      }
      assert statements[..|statements|] == statements;
      ok := true;
    }
  }
}
