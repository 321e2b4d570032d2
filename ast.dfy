/**
 * Tokens and syntax trees of the Lox front end.
 *
 * The expression and statement node families follow the field lists the
 * repository's AST generator writes out, plus the `Get`/`Set` expressions and
 * the `Class` statement that the resolver also visits. Java's `null` (a
 * missing initializer, a missing else branch, a declaration that failed to
 * parse) is an `Option`.
 */
module Ast {

  datatype Option<+T> = None | Some(value: T)

  /** The token kinds the lexer produces (named as in the source's enum). */
  datatype TokenType =
    // single-character tokens
    | LEFT_PAREN | RIGHT_PAREN | LEFT_BRACE | RIGHT_BRACE
    | COMMA | DOT | MINUS | PLUS | SEMICOLON | SLASH | STAR
    | QUESTION | COLON
    // one or two character tokens
    | BANG | BANG_EQUAL | EQUAL | EQUAL_EQUAL
    | GREATER | GREATER_EQUAL | LESS | LESS_EQUAL
    // literals
    | IDENTIFIER | STRING | NUMBER
    // keywords
    | AND | CLASS | ELSE | FALSE | FUN | FOR | IF | NIL | OR
    | PRINT | RETURN | SUPER | THIS | TRUE | VAR | WHILE
    | EOF

  /**
   * A literal value. Numbers are Java doubles; they are kept opaque, as the
   * text `Double.toString` gives them.
   */
  datatype Value =
    | NilValue
    | BoolValue(b: bool)
    | NumberValue(text: string)
    | StringValue(s: string)

  /** A lexical token; `literal` is `NilValue` where the lexer leaves it null. */
  datatype Token = Token(kind: TokenType, lexeme: string, literal: Value, line: int)

  /** Identity of a Variable or Assign node (the key of the resolver's side table). */
  type NodeId = nat

  datatype Expr =
    | Ternary(left: Expr, question: Token, mid: Expr, colon: Token, right: Expr)
    | Binary(left: Expr, operator: Token, right: Expr)
    | Call(callee: Expr, paren: Token, arguments: seq<Expr>)
    | Get(obj: Expr, name: Token)
    | Grouping(expression: Expr)
    | Literal(literal: Value)
    | Logical(left: Expr, operator: Token, right: Expr)
    | Set(obj: Expr, name: Token, value: Expr)
    | Unary(operator: Token, right: Expr)
    | Variable(id: NodeId, name: Token)
    | Assign(id: NodeId, name: Token, value: Expr)

  datatype Stmt =
    | Block(statements: seq<Option<Stmt>>)
    | Class(name: Token)
    | Function(name: Token, params: seq<Token>, body: seq<Option<Stmt>>)
    | Expression(expression: Expr)
    | If(condition: Expr, thenBranch: Stmt, elseBranch: Option<Stmt>)
    | Print(expression: Expr)
    | Return(keyword: Token, value: Option<Expr>)
    | Var(name: Token, initializer: Option<Expr>)
    | While(condition: Expr, loopBody: Stmt)

  /** The fixed messages the parser and the resolvers report. */
  datatype Message =
    // parser
    | ExpectExpression
    | ExpectVariableName
    | ExpectSemicolonAfterVariable
    | ExpectParenAfterFor
    | ExpectSemicolonAfterLoopCondition
    | ExpectParenAfterForClauses
    | ExpectParenAfterWhile
    | ExpectParenAfterWhileCondition
    | ExpectParenAfterIf
    | ExpectParenAfterIfCondition
    | ExpectBraceAfterBlock
    | ExpectSemicolonAfterValue
    | ExpectColonInTernary
    | ExpectParenAfterExpression
    | InvalidAssignmentTarget
    // resolver
    | AlreadyDeclared
    | ReadInOwnInitializer
    | TopLevelReturn

  /** The text each message is reported with, spelled as in the source. */
  function Text(m: Message): string {
    match m
    case ExpectExpression => "Expect expressions"
    case ExpectVariableName => "Expect variable name."
    case ExpectSemicolonAfterVariable => "Expect ';' after variable declaration"
    case ExpectParenAfterFor => "Expected '(' after 'for'."
    case ExpectSemicolonAfterLoopCondition => "Expected ';' after for loop condition"
    case ExpectParenAfterForClauses => "Expcted ')' after for clauses."
    case ExpectParenAfterWhile => "Expected '(' after 'while'."
    case ExpectParenAfterWhileCondition => "Expected ')' after while condition."
    case ExpectParenAfterIf => "Expected '(' after an 'if' statement."
    case ExpectParenAfterIfCondition => "Expected ')' after if condition"
    case ExpectBraceAfterBlock => "Expected '}' after block."
    case ExpectSemicolonAfterValue => "Expected ';' after value"
    case ExpectColonInTernary => "Expected a ':' in ternary expression"
    case ExpectParenAfterExpression => "Expect ')' after expression"
    case InvalidAssignmentTarget => "Invalid assignment target."
    case AlreadyDeclared => "Already a variable with the name in this scope."
    case ReadInOwnInitializer => "Can't read local variable in it's own initializer"
    case TopLevelReturn => "Can't return from a top-level code."
  }

  /** A static error report: what `Lox.error(token, message)` records. */
  datatype Diagnostic = Diagnostic(token: Token, message: Message)

  /** No statement anywhere in `s` is a null left behind by a parse error. */
  predicate NullFree(s: Stmt)
    decreases s, 1
  {
    match s
    case Block(statements) => NullFreeList(statements)
    case Function(_, _, body) => NullFreeList(body)
    case If(_, thenBranch, elseBranch) =>
      NullFree(thenBranch) && (elseBranch.Some? ==> NullFree(elseBranch.value))
    case While(_, loopBody) => NullFree(loopBody)
    case _ => true
  }

  predicate NullFreeEntry(d: Option<Stmt>)
    decreases d, 2
  {
    d.Some? && NullFree(d.value)
  }

  predicate NullFreeList(ss: seq<Option<Stmt>>)
    decreases ss, 3
  {
    forall i | 0 <= i < |ss| :: NullFreeEntry(ss[i])
  }

  /** The Variable and Assign nodes of an expression. */
  function ExprIds(e: Expr): set<NodeId>
    decreases e, 1
  {
    match e
    case Ternary(left, _, mid, _, right) => ExprIds(left) + ExprIds(mid) + ExprIds(right)
    case Binary(left, _, right) => ExprIds(left) + ExprIds(right)
    case Call(callee, _, arguments) => ExprIds(callee) + ExprListIds(arguments)
    case Get(obj, _) => ExprIds(obj)
    case Grouping(inner) => ExprIds(inner)
    case Literal(_) => {}
    case Logical(left, _, right) => ExprIds(left) + ExprIds(right)
    case Set(obj, _, value) => ExprIds(obj) + ExprIds(value)
    case Unary(_, right) => ExprIds(right)
    case Variable(id, _) => {id}
    case Assign(id, _, value) => {id} + ExprIds(value)
  }

  function ExprListIds(es: seq<Expr>): set<NodeId>
    decreases es, 0
  {
    if es == [] then {} else ExprListIds(es[..|es| - 1]) + ExprIds(es[|es| - 1])
  }

  function OptExprIds(e: Option<Expr>): set<NodeId> {
    if e.Some? then ExprIds(e.value) else {}
  }

  /** The Variable and Assign nodes of a statement. */
  function StmtIds(s: Stmt): set<NodeId>
    decreases s, 1
  {
    match s
    case Block(statements) => EntryListIds(statements)
    case Class(_) => {}
    case Function(_, _, body) => EntryListIds(body)
    case Expression(e) => ExprIds(e)
    case If(c, t, el) => ExprIds(c) + StmtIds(t) + (if el.Some? then StmtIds(el.value) else {})
    case Print(e) => ExprIds(e)
    case Return(_, value) => OptExprIds(value)
    case Var(_, initializer) => OptExprIds(initializer)
    case While(c, b) => ExprIds(c) + StmtIds(b)
  }

  function EntryIds(d: Option<Stmt>): set<NodeId>
    decreases d, 2
  {
    if d.Some? then StmtIds(d.value) else {}
  }

  function EntryListIds(ss: seq<Option<Stmt>>): set<NodeId>
    decreases ss, 3
  {
    if ss == [] then {} else EntryListIds(ss[..|ss| - 1]) + EntryIds(ss[|ss| - 1])
  }
}
