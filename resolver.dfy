/**
 * The static resolver of jlox/src/com/yadav/lox/Resolver.java as a class
 * whose fields are updated in place, as the source's are: the stack of
 * scopes is pushed, popped and written with `put`, `currentFunction` is
 * saved and restored, and hop counts go into the interpreter's side table.
 * Every method is proved to have exactly the effect the functions of module
 * Resolution give it.
 */
module Resolving {
  import opened Ast
  import opened Scopes
  import opened Resolution

  class Resolver {
    var scopes: seq<Scope>
    var currentFunction: FunctionType
    /** The interpreter's side table: what `interpreter.resolve(expr, depth)` writes. */
    var locals: map<NodeId, nat>
    /** What `Lox.error` has reported. */
    var errors: seq<Diagnostic>

    function Snapshot(): State
      reads this
    {
      State(scopes, currentFunction, locals, errors)
    }

    constructor ()
      ensures Snapshot() == Initial()
    {
      scopes := [];
      currentFunction := NONE;
      locals := map[];
      errors := [];
    }

    method BeginScope()
      modifies this
      ensures Snapshot() == Resolution.BeginScope(old(Snapshot()))
    {
      scopes := scopes + [map[]];
    }

    method EndScope()
      requires |scopes| > 0
      modifies this
      ensures Snapshot() == Resolution.EndScope(old(Snapshot()))
    {
      scopes := scopes[..|scopes| - 1];
    }

    method Declare(name: Token)
      modifies this
      ensures Snapshot() == Resolution.Declare(old(Snapshot()), name)
    {
      if |scopes| == 0 {
        return;
      }
      if name.lexeme in Top(scopes) {
        errors := errors + [Diagnostic(name, AlreadyDeclared)];
      }
      scopes := Put(scopes, name.lexeme, false);
    }

    method Define(name: Token)
      modifies this
      ensures Snapshot() == Resolution.Define(old(Snapshot()), name)
    {
      if |scopes| == 0 {
        return;
      }
      scopes := Put(scopes, name.lexeme, true);
    }

    /** Walks the stack from the top down and annotates node `id` at the first scope holding `name`. */
    method ResolveLocal(id: NodeId, name: Token)
      modifies this
      ensures Snapshot() == Resolution.ResolveLocal(old(Snapshot()), id, name)
    {
      var i := |scopes| - 1;
      while i >= 0
        invariant -1 <= i < |scopes|
        invariant forall j | i < j < |scopes| :: name.lexeme !in scopes[j]
        invariant Snapshot() == old(Snapshot())
      {
        if name.lexeme in scopes[i] {
          locals := locals[id := |scopes| - 1 - i];
          return;
        }
        i := i - 1;
      }
    }

    method ResolveExpr(e: Expr)
      modifies this
      decreases e, 1
      ensures Snapshot() == Resolution.ResolveExpr(old(Snapshot()), e)
    {
      match e
      case Ternary(left, _, mid, _, right) =>
        ResolveExpr(left);
        ResolveExpr(mid);
        ResolveExpr(right);
      case Binary(left, _, right) =>
        ResolveExpr(left);
        ResolveExpr(right);
      case Call(callee, _, arguments) =>
        ResolveExpr(callee);
        ResolveArguments(arguments);
      case Get(obj, _) =>
        ResolveExpr(obj);
      case Grouping(inner) =>
        ResolveExpr(inner);
      case Literal(_) =>
      case Logical(left, _, right) =>
        ResolveExpr(left);
        ResolveExpr(right);
      case Set(obj, _, value) =>
        ResolveExpr(value);
        ResolveExpr(obj);
      case Unary(_, right) =>
        ResolveExpr(right);
      case Variable(id, name) =>
        if Uninitialized(scopes, name.lexeme) {
          errors := errors + [Diagnostic(name, ReadInOwnInitializer)];
        }
        ResolveLocal(id, name);
      case Assign(id, name, value) =>
        ResolveExpr(value);
        ResolveLocal(id, name);
    }

    /** The loop of `visitCallExpr` over the arguments. */
    method ResolveArguments(arguments: seq<Expr>)
      modifies this
      decreases arguments, 0
      ensures Snapshot() == Resolution.ResolveExprs(old(Snapshot()), arguments)
    {
      ghost var start := Snapshot();
      for i := 0 to |arguments|
        invariant Snapshot() == Resolution.ResolveExprs(start, arguments[..i])
      {
        assert arguments[..i + 1][..i] == arguments[..i];
        ResolveExpr(arguments[i]);
      }
      assert arguments[..|arguments|] == arguments;
    }

    method ResolveStmt(s: Stmt)
      requires NullFree(s)
      modifies this
      decreases s, 1
      ensures Snapshot() == Resolution.ResolveStmt(old(Snapshot()), s)
    {
      match s
      case Block(statements) =>
        BeginScope();
        Resolve(statements);
        EndScope();
      case Class(name) =>
        Declare(name);
        Define(name);
      case Function(name, params, body) =>
        Declare(name);
        Define(name);
        ResolveFunction(params, body, FUNCTION);
      case Expression(e) =>
        ResolveExpr(e);
      case If(condition, thenBranch, elseBranch) =>
        ResolveExpr(condition);
        ResolveStmt(thenBranch);
        if elseBranch.Some? {
          ResolveStmt(elseBranch.value);
        }
      case Print(e) =>
        ResolveExpr(e);
      case Return(keyword, value) =>
        if currentFunction == NONE {
          errors := errors + [Diagnostic(keyword, TopLevelReturn)];
        }
        if value.Some? {
          ResolveExpr(value.value);
        }
      case Var(name, initializer) =>
        Declare(name);
        if initializer.Some? {
          ResolveExpr(initializer.value);
        }
        Define(name);
      case While(condition, loopBody) =>
        ResolveExpr(condition);
        ResolveStmt(loopBody);
    }

    /** `resolve(Stmt)`: a null statement is not allowed here. */
    method ResolveEntry(entry: Option<Stmt>)
      requires NullFreeEntry(entry)
      modifies this
      decreases entry, 2
      ensures Snapshot() == Resolution.ResolveEntry(old(Snapshot()), entry)
    {
      ResolveStmt(entry.value);
    }

    /** `resolve(List<Stmt>)`, the entry point the driver calls on a whole program. */
    method Resolve(statements: seq<Option<Stmt>>)
      requires NullFreeList(statements)
      modifies this
      decreases statements, 3
      ensures Snapshot() == Resolution.ResolveStmts(old(Snapshot()), statements)
    {
      ghost var start := Snapshot();
      for i := 0 to |statements|
        invariant Snapshot() == Resolution.ResolveStmts(start, statements[..i])
      {
        assert statements[..i + 1][..i] == statements[..i];
        ResolveEntry(statements[i]);
      }
      assert statements[..|statements|] == statements;
    }

    method ResolveFunction(params: seq<Token>, body: seq<Option<Stmt>>, kind: FunctionType)
      requires NullFreeList(body)
      modifies this
      decreases body, 4
      ensures Snapshot() == Resolution.ResolveFunction(old(Snapshot()), params, body, kind)
    {
      ghost var start := Snapshot();
      BeginScope();
      var enclosingType := currentFunction;
      currentFunction := kind;
      ghost var entered := Snapshot();
      for i := 0 to |params|
        invariant Snapshot() == DeclareParams(entered, params[..i])
      {
        assert params[..i + 1][..i] == params[..i];
        Declare(params[i]);
        Define(params[i]);
      }
      assert params[..|params|] == params;
      Resolve(body);
      EndScope();
      currentFunction := enclosingType;
    }
  }
}
