/**
 * The grammar that the parser of src/com/yadav/lox/Parser.java reads, as a
 * reference for what its rules return.
 *
 * A ghost record of what a rule reads, an `ExprSyntax` or `StmtSyntax`
 * tree, holds the tree the rule returns (its `Tree`) together with what
 * that tree leaves out: the `=` and value of an assignment to something
 * that is not a name, the clauses of a `for` loop before desugaring, the
 * tokens a failed declaration skipped. Its `Spelling` says which tokens it
 * is written with, down to the very token object of every operator and name
 * and the value of every literal; its `Reports` say which reports reading
 * it makes; `Prec` and `Grammatical` give the precedence ladder, and
 * `InfixLevel` the rung at which a token would have continued an
 * expression, so that where a rule stops can be stated (maximal munch).
 */
module Grammar {
  import opened Ast

  datatype Result<+T> = Ok(value: T) | ParseError

  // ---------------------------------------------------------------------
  // The token stream
  // ---------------------------------------------------------------------

  /** A number or string token carries a value of its own kind. */
  predicate LiteralAgrees(t: Token) {
    && (t.kind == NUMBER ==> t.literal.NumberValue?)
    && (t.kind == STRING ==> t.literal.StringValue?)
  }

  /** What the lexer hands over: a non-empty stream ending in EOF, literal tokens carrying their values. */
  predicate LexerOutput(ts: seq<Token>) {
    && |ts| > 0
    && ts[|ts| - 1].kind == EOF
    && forall i {:trigger LiteralAgrees(ts[i])} | 0 <= i < |ts| :: LiteralAgrees(ts[i])
  }

  /** The token kind a literal value is written with. */
  function LiteralKind(v: Value): TokenType {
    match v
    case NilValue => NIL
    case BoolValue(b) => if b then TRUE else FALSE
    case NumberValue(_) => NUMBER
    case StringValue(_) => STRING
  }

  // ---------------------------------------------------------------------
  // Syntax errors
  // ---------------------------------------------------------------------

  /** The token kinds `primary` can start with (Parser.java:309-325). */
  const PrimaryStarts: set<TokenType> := {FALSE, TRUE, NIL, NUMBER, STRING, IDENTIFIER, LEFT_PAREN}

  /**
   * The token kind a `consume` reporting `m` requires, as the parser pairs
   * them (Parser.java:47, 54, 69, 84, 90, 110, 112, 119, 121, 140, 147, 153,
   * 289, 323); none for the other messages.
   */
  function Asks(m: Message): (k: Option<TokenType>)
    ensures k.Some? ==> k.value != EOF
  {
    match m
    case ExpectVariableName => Some(IDENTIFIER)
    case ExpectSemicolonAfterVariable => Some(SEMICOLON)
    case ExpectParenAfterFor => Some(LEFT_PAREN)
    case ExpectSemicolonAfterLoopCondition => Some(SEMICOLON)
    case ExpectParenAfterForClauses => Some(RIGHT_PAREN)
    case ExpectParenAfterWhile => Some(LEFT_PAREN)
    case ExpectParenAfterWhileCondition => Some(RIGHT_PAREN)
    case ExpectParenAfterIf => Some(LEFT_PAREN)
    case ExpectParenAfterIfCondition => Some(RIGHT_PAREN)
    case ExpectBraceAfterBlock => Some(RIGHT_BRACE)
    case ExpectSemicolonAfterValue => Some(SEMICOLON)
    case ExpectColonInTernary => Some(COLON)
    case ExpectParenAfterExpression => Some(RIGHT_PAREN)
    case _ => None
  }

  // ---------------------------------------------------------------------
  // Spellings
  // ---------------------------------------------------------------------

  /**
   * What one token of a spelling must be: any token of a kind (punctuation
   * and keywords no tree keeps), exactly a given token (the operators and
   * names a tree keeps), a literal token carrying a value, or a given name
   * token standing at index `id` (a `Variable` or `Assign` node, whose
   * identity is the index of its name).
   */
  datatype Atom =
    | Kind(kind: TokenType)
    | Exactly(token: Token)
    | LiteralOf(value: Value)
    | NameAt(id: NodeId, name: Token)

  predicate Matches(a: Atom, ts: seq<Token>, i: nat)
    requires i < |ts|
  {
    match a
    case Kind(k) => ts[i].kind == k
    case Exactly(t) => ts[i] == t
    case LiteralOf(v) => ts[i].kind == LiteralKind(v) && (v.NumberValue? || v.StringValue? ==> ts[i].literal == v)
    case NameAt(id, name) => ts[i] == name && id == i
  }

  /** Atom `k` of `atoms` matches the token at `start + k`. */
  predicate SpelledAt(atoms: seq<Atom>, ts: seq<Token>, start: nat, k: nat) {
    k < |atoms| && start + k < |ts| && Matches(atoms[k], ts, start + k)
  }

  /** `atoms` spell the tokens `ts[start..end]`, one atom per token. */
  predicate SpelledBy(atoms: seq<Atom>, ts: seq<Token>, start: nat, end: nat)
    requires start <= end <= |ts|
  {
    |atoms| == end - start && forall k: nat | k < |atoms| :: SpelledAt(atoms, ts, start, k)
  }

  /**
   * Reading `ts[start..end]`, spelled `atoms`, took the reports from
   * `before` to `after` by appending exactly `reports`.
   */
  predicate Consumed(ts: seq<Token>, atoms: seq<Atom>, reports: seq<Diagnostic>, start: nat, end: nat,
                     before: seq<Diagnostic>, after: seq<Diagnostic>)
  {
    start <= end <= |ts| && SpelledBy(atoms, ts, start, end) && after == before + reports
  }

  /** Two runs read one after the other are one run. */
  lemma {:induction false} ConsumedConcat(ts: seq<Token>, xs: seq<Atom>, xr: seq<Diagnostic>, ys: seq<Atom>, yr: seq<Diagnostic>,
                       a: nat, b: nat, c: nat, e0: seq<Diagnostic>, e1: seq<Diagnostic>, e2: seq<Diagnostic>)
    requires Consumed(ts, xs, xr, a, b, e0, e1) == true && Consumed(ts, ys, yr, b, c, e1, e2) == true
    ensures Consumed(ts, xs + ys, xr + yr, a, c, e0, e2)
  {
    forall k: nat | k < |xs + ys|
      ensures SpelledAt(xs + ys, ts, a, k)
    {
      if k < |xs| {
        assert SpelledAt(xs, ts, a, k);
      } else {
        assert SpelledAt(ys, ts, b, k - |xs|);
        assert (xs + ys)[k] == ys[k - |xs|];
      }
    }
  }

  /** A token read in front of a run. */
  lemma {:induction false} ConsumedAfter(ts: seq<Token>, x: Atom, ys: seq<Atom>, yr: seq<Diagnostic>, a: nat, c: nat,
                      e1: seq<Diagnostic>, e2: seq<Diagnostic>)
    requires a < |ts| && Matches(x, ts, a) && Consumed(ts, ys, yr, a + 1, c, e1, e2) == true
    ensures Consumed(ts, [x] + ys, yr, a, c, e1, e2)
  {
    assert [] + yr == yr;
    ConsumedConcat(ts, [x], [], ys, yr, a, a + 1, c, e1, e1, e2);
  }

  /** A token read after a run. */
  lemma {:induction false} ConsumedBefore(ts: seq<Token>, xs: seq<Atom>, xr: seq<Diagnostic>, y: Atom, a: nat, b: nat,
                       e0: seq<Diagnostic>, e1: seq<Diagnostic>)
    requires Consumed(ts, xs, xr, a, b, e0, e1) == true && b < |ts| && Matches(y, ts, b)
    ensures Consumed(ts, xs + [y], xr, a, b + 1, e0, e1)
  {
    assert xr + [] == xr;
    ConsumedConcat(ts, xs, xr, [y], [], a, b, b + 1, e0, e1, e1);
  }

  /** The first `|xs|` tokens of a run spelled `xs + ys` are spelled `xs`, the rest `ys`. */
  lemma {:induction false} SpelledSplit(xs: seq<Atom>, ys: seq<Atom>, ts: seq<Token>, a: nat, c: nat)
    requires a <= c <= |ts| && SpelledBy(xs + ys, ts, a, c)
    ensures a + |xs| <= c && SpelledBy(xs, ts, a, a + |xs|) && SpelledBy(ys, ts, a + |xs|, c)
  {
    forall k: nat | k < |xs|
      ensures SpelledAt(xs, ts, a, k)
    {
      assert SpelledAt(xs + ys, ts, a, k);
      assert xs[k] == (xs + ys)[k];
    }
    var b := a + |xs|;
    forall k: nat | k < |ys|
      ensures SpelledAt(ys, ts, b, k)
    {
      assert SpelledAt(xs + ys, ts, a, |xs| + k);
      assert ys[k] == (xs + ys)[|xs| + k];
    }
  }

  // ---------------------------------------------------------------------
  // The precedence ladder
  // ---------------------------------------------------------------------

  const UnaryOps: set<TokenType> := {BANG, MINUS}

  /** Tokens before which `synchronize` stops: those that begin a statement. */
  const StatementStarts: set<TokenType> := {CLASS, FUN, VAR, FOR, IF, WHILE, PRINT, RETURN}

  /**
   * The rung of the precedence ladder at which a token continues an
   * expression as an infix operator: assignment 0, or 1, and 2, equality 3,
   * comparison 4, term 5, factor 6, ternary 7; -1 for every other token.
   */
  function InfixLevel(k: TokenType): (level: int)
    ensures -1 <= level <= 7
  {
    match k
    case EQUAL => 0
    case OR => 1
    case AND => 2
    case BANG_EQUAL => 3
    case EQUAL_EQUAL => 3
    case GREATER => 4
    case GREATER_EQUAL => 4
    case LESS => 4
    case LESS_EQUAL => 4
    case PLUS => 5
    case MINUS => 5
    case STAR => 6
    case SLASH => 6
    case QUESTION => 7
    case _ => -1
  }

  /** The operators of each rung, in the order the rules list them. */
  function Operators(level: int): seq<TokenType> {
    if level == 0 then [EQUAL]
    else if level == 1 then [OR]
    else if level == 2 then [AND]
    else if level == 3 then [BANG_EQUAL, EQUAL_EQUAL]
    else if level == 4 then [GREATER, GREATER_EQUAL, LESS, LESS_EQUAL]
    else if level == 5 then [PLUS, MINUS]
    else if level == 6 then [STAR, SLASH]
    else if level == 7 then [QUESTION]
    else []
  }

  lemma {:induction false} OperatorsAt(k: TokenType, level: int)
    requires 0 <= level <= 7
    ensures InfixLevel(k) == level <==> k in Operators(level)
  {
  }

  /** After an operand of rung `level`, the next token continues the rung exactly when it is one of its operators. */
  lemma {:induction false} NextOperator(k: TokenType, level: int)
    requires 0 <= level <= 7 && InfixLevel(k) <= level
    ensures k in Operators(level) <==> InfixLevel(k) == level
    ensures k !in Operators(level) ==> InfixLevel(k) < level
  {
    OperatorsAt(k, level);
  }

  function BinaryRung(k: TokenType): int {
    match k
    case BANG_EQUAL => 3
    case EQUAL_EQUAL => 3
    case GREATER => 4
    case GREATER_EQUAL => 4
    case LESS => 4
    case LESS_EQUAL => 4
    case PLUS => 5
    case MINUS => 5
    case _ => 6
  }

  function LogicalRung(k: TokenType): int {
    match k
    case OR => 1
    case _ => 2
  }

  // ---------------------------------------------------------------------
  // What an expression rule reads
  // ---------------------------------------------------------------------

  /**
   * An expression as read: the tree the rules return, except that an
   * assignment to something that is not a name keeps the `=` and the value
   * that `assignment` reads, reports and then drops.
   */
  datatype ExprSyntax =
    | TernarySyntax(condition: ExprSyntax, question: Token, mid: ExprSyntax, colon: Token, right: ExprSyntax)
    | BinarySyntax(left: ExprSyntax, operator: Token, right: ExprSyntax)
    | LogicalSyntax(left: ExprSyntax, operator: Token, right: ExprSyntax)
    | UnarySyntax(operator: Token, right: ExprSyntax)
    | GroupingSyntax(inner: ExprSyntax)
    | LiteralSyntax(literal: Value)
    | VariableSyntax(id: NodeId, name: Token)
    | AssignSyntax(id: NodeId, name: Token, value: ExprSyntax)
    | InvalidAssignSyntax(target: ExprSyntax, equals: Token, value: ExprSyntax)

  /** The tree the rules return for what they read. */
  function Tree(s: ExprSyntax): Expr {
    match s
    case TernarySyntax(c, q, m, colon, r) => Ternary(Tree(c), q, Tree(m), colon, Tree(r))
    case BinarySyntax(l, op, r) => Binary(Tree(l), op, Tree(r))
    case LogicalSyntax(l, op, r) => Logical(Tree(l), op, Tree(r))
    case UnarySyntax(op, r) => Unary(op, Tree(r))
    case GroupingSyntax(inner) => Grouping(Tree(inner))
    case LiteralSyntax(v) => Literal(v)
    case VariableSyntax(id, name) => Variable(id, name)
    case AssignSyntax(id, name, value) => Assign(id, name, Tree(value))
    case InvalidAssignSyntax(target, _, _) => Tree(target)
  }

  function Parenthesized(atoms: seq<Atom>): seq<Atom> {
    [Kind(LEFT_PAREN)] + atoms + [Kind(RIGHT_PAREN)]
  }

  /** The tokens an expression is written with, in order. */
  function Spelling(s: ExprSyntax): seq<Atom> {
    match s
    case TernarySyntax(c, q, m, colon, r) => Spelling(c) + [Exactly(q)] + Spelling(m) + [Exactly(colon)] + Spelling(r)
    case BinarySyntax(l, op, r) => Spelling(l) + [Exactly(op)] + Spelling(r)
    case LogicalSyntax(l, op, r) => Spelling(l) + [Exactly(op)] + Spelling(r)
    case UnarySyntax(op, r) => [Exactly(op)] + Spelling(r)
    case GroupingSyntax(inner) => Parenthesized(Spelling(inner))
    case LiteralSyntax(v) => [LiteralOf(v)]
    case VariableSyntax(id, name) => [NameAt(id, name)]
    case AssignSyntax(id, name, value) => [NameAt(id, name), Kind(EQUAL)] + Spelling(value)
    case InvalidAssignSyntax(target, equals, value) => Spelling(target) + [Exactly(equals)] + Spelling(value)
  }

  /** The reports reading an expression makes, in order: one at the `=` of every assignment to something that is not a name. */
  function Reports(s: ExprSyntax): seq<Diagnostic> {
    match s
    case TernarySyntax(c, _, m, _, r) => Reports(c) + Reports(m) + Reports(r)
    case BinarySyntax(l, _, r) => Reports(l) + Reports(r)
    case LogicalSyntax(l, _, r) => Reports(l) + Reports(r)
    case UnarySyntax(_, r) => Reports(r)
    case GroupingSyntax(inner) => Reports(inner)
    case LiteralSyntax(_) => []
    case VariableSyntax(_, _) => []
    case AssignSyntax(_, _, value) => Reports(value)
    case InvalidAssignSyntax(target, equals, value) =>
      Reports(target) + Reports(value) + [Diagnostic(equals, InvalidAssignmentTarget)]
  }

  /**
   * The rung an expression's top operator belongs to: its operator's infix
   * level for binary and logical nodes, 0 for an assignment, 7 for a
   * ternary, 8 for a unary node and 9 for a primary.
   */
  function Prec(s: ExprSyntax): int {
    match s
    case AssignSyntax(_, _, _) => 0
    case InvalidAssignSyntax(_, _, _) => 0
    case LogicalSyntax(_, op, _) => LogicalRung(op.kind)
    case BinarySyntax(_, op, _) => BinaryRung(op.kind)
    case TernarySyntax(_, _, _, _, _) => 7
    case UnarySyntax(_, _) => 8
    case _ => 9
  }

  /**
   * The expressions the grammar derives: binary and logical operators take
   * an operand of their own rung on the left and a strictly tighter one on
   * the right (left associativity); a ternary takes a unary condition and
   * two ternary branches (right associativity); an assignment's value is any
   * expression (right associativity), and its left side is either a name
   * or, reported, any tighter expression that is not a name.
   */
  predicate Grammatical(s: ExprSyntax) {
    match s
    case LiteralSyntax(_) => true
    case VariableSyntax(_, name) => name.kind == IDENTIFIER
    case GroupingSyntax(inner) => Grammatical(inner)
    case UnarySyntax(op, right) => op.kind in UnaryOps && Prec(right) >= 8 && Grammatical(right)
    case TernarySyntax(left, question, mid, colon, right) =>
      && question.kind == QUESTION && colon.kind == COLON
      && Prec(left) >= 8 && Prec(mid) >= 7 && Prec(right) >= 7
      && Grammatical(left) && Grammatical(mid) && Grammatical(right)
    case BinarySyntax(left, op, right) =>
      && InfixLevel(op.kind) == Prec(s)
      && Prec(left) >= Prec(s) && Prec(right) > Prec(s)
      && Grammatical(left) && Grammatical(right)
    case LogicalSyntax(left, op, right) =>
      && InfixLevel(op.kind) == Prec(s)
      && Prec(left) >= Prec(s) && Prec(right) > Prec(s)
      && Grammatical(left) && Grammatical(right)
    case AssignSyntax(_, name, value) => name.kind == IDENTIFIER && Grammatical(value)
    case InvalidAssignSyntax(target, equals, value) =>
      && equals.kind == EQUAL && Prec(target) >= 1 && !target.VariableSyntax?
      && Grammatical(target) && Grammatical(value)
  }

  /**
   * Operators of one rung group to the left: of the two ways to read
   * `a - b - c`, only `(a - b) - c` is derived.
   */
  lemma {:induction false} LeftAssociativity(a: Token, b: Token, c: Token, minus: Token)
    requires a.kind == b.kind == c.kind == IDENTIFIER && minus.kind == MINUS
    ensures var grouped := BinarySyntax(BinarySyntax(VariableSyntax(0, a), minus, VariableSyntax(2, b)), minus, VariableSyntax(4, c));
            Grammatical(grouped) && Tree(grouped) == Binary(Binary(Variable(0, a), minus, Variable(2, b)), minus, Variable(4, c))
    ensures var other := BinarySyntax(VariableSyntax(0, a), minus, BinarySyntax(VariableSyntax(2, b), minus, VariableSyntax(4, c)));
            Spelling(other) == [NameAt(0, a), Exactly(minus), NameAt(2, b), Exactly(minus), NameAt(4, c)] && !Grammatical(other)
  {
    assert BinaryRung(minus.kind) == 5 && InfixLevel(minus.kind) == 5;
    var va, vb, vc := VariableSyntax(0, a), VariableSyntax(2, b), VariableSyntax(4, c);
    assert Prec(va) == 9 && Prec(vb) == 9 && Prec(vc) == 9;
    assert Grammatical(va) && Grammatical(vb) && Grammatical(vc);
    var left := BinarySyntax(va, minus, vb);
    assert Prec(left) == 5;
    assert Grammatical(left);
    assert Tree(left) == Binary(Variable(0, a), minus, Variable(2, b));
    var grouped := BinarySyntax(left, minus, vc);
    assert Prec(grouped) == 5;
    var inner := BinarySyntax(vb, minus, vc);
    assert Prec(inner) == 5;
    assert Spelling(inner) == [NameAt(2, b), Exactly(minus), NameAt(4, c)];
  }

  /**
   * Assignment groups to the right: `a = (b = c)` is derived, and since a
   * target is a name there is no other way to group `a = b = c`. The same
   * tokens around an `=` with a left side that is not a name, `a - b = c`,
   * are derived as a reported assignment whose tree is `a - b`.
   */
  lemma {:induction false} AssignmentAssociativity(a: Token, b: Token, c: Token, minus: Token, equals: Token)
    requires a.kind == b.kind == c.kind == IDENTIFIER && minus.kind == MINUS && equals.kind == EQUAL
    ensures Grammatical(AssignSyntax(0, a, AssignSyntax(2, b, VariableSyntax(4, c))))
    ensures var reported := InvalidAssignSyntax(BinarySyntax(VariableSyntax(0, a), minus, VariableSyntax(2, b)), equals, VariableSyntax(4, c));
            && Grammatical(reported) && Tree(reported) == Binary(Variable(0, a), minus, Variable(2, b))
            && Reports(reported) == [Diagnostic(equals, InvalidAssignmentTarget)]
  {
    assert BinaryRung(minus.kind) == 5 && InfixLevel(minus.kind) == 5;
    var va, vb, vc := VariableSyntax(0, a), VariableSyntax(2, b), VariableSyntax(4, c);
    assert Prec(va) == 9 && Prec(vb) == 9;
    assert Grammatical(va) && Grammatical(vb) && Grammatical(vc);
    var target := BinarySyntax(va, minus, vb);
    assert Prec(target) == 5;
    assert Grammatical(target);
    assert Tree(target) == Binary(Variable(0, a), minus, Variable(2, b));
    assert Reports(target) == [];
  }

  /**
   * Every name node of `e` carries the index in `ts` of the token it
   * names, and no two name nodes share an id: the children of a node hold
   * disjoint sets of ids, and an assignment's own id is not one of its
   * value's.
   */
  ghost predicate NamesPlaced(ts: seq<Token>, e: Expr) {
    match e
    case Variable(id, name) => id < |ts| && ts[id] == name
    case Assign(id, name, value) => id < |ts| && ts[id] == name && id !in ExprIds(value) && NamesPlaced(ts, value)
    case Binary(left, _, right) => ExprIds(left) !! ExprIds(right) && NamesPlaced(ts, left) && NamesPlaced(ts, right)
    case Logical(left, _, right) => ExprIds(left) !! ExprIds(right) && NamesPlaced(ts, left) && NamesPlaced(ts, right)
    case Ternary(left, _, mid, _, right) =>
      && ExprIds(left) !! ExprIds(mid) && ExprIds(left) !! ExprIds(right) && ExprIds(mid) !! ExprIds(right)
      && NamesPlaced(ts, left) && NamesPlaced(ts, mid) && NamesPlaced(ts, right)
    case Unary(_, right) => NamesPlaced(ts, right)
    case Grouping(inner) => NamesPlaced(ts, inner)
    case Literal(_) => true
    case _ => false
  }

  /** The middle of a run spelled `pre`, `mid`, then `post`. */
  lemma {:induction false} SpelledInside(pre: seq<Atom>, mid: seq<Atom>, post: seq<Atom>, ts: seq<Token>, a: nat, c: nat)
    requires a <= c <= |ts| && SpelledBy(pre + mid + post, ts, a, c)
    ensures a + |pre| <= c - |post| && SpelledBy(mid, ts, a + |pre|, c - |post|)
  {
    SpelledSplit(pre + mid, post, ts, a, c);
    SpelledSplit(pre, mid, ts, a, a + |pre + mid|);
  }

  /** A run spelled `xs`, one atom `y`, then `zs`. */
  lemma {:induction false} SpelledAround(xs: seq<Atom>, y: Atom, zs: seq<Atom>, ts: seq<Token>, a: nat, c: nat)
    requires a <= c <= |ts| && SpelledBy(xs + [y] + zs, ts, a, c)
    ensures a + |xs| < c && Matches(y, ts, a + |xs|)
    ensures SpelledBy(xs, ts, a, a + |xs|) && SpelledBy(zs, ts, a + |xs| + 1, c)
  {
    SpelledSplit(xs + [y], zs, ts, a, c);
    SpelledSplit(xs, [y], ts, a, a + |xs| + 1);
    assert SpelledAt([y], ts, a + |xs|, 0);
  }

  /** Ids below `m` and ids from `m` on are apart. */
  lemma {:induction false} Apart(xs: set<NodeId>, ys: set<NodeId>, a: int, m: int, b: int)
    requires a <= m <= b
    requires forall id | id in xs :: a <= id < m
    requires forall id | id in ys :: m <= id < b
    ensures xs !! ys
    ensures forall id | id in xs + ys :: a <= id < b
  {
  }

  /**
   * The tree of an expression spelled by `ts[start..end]` has its name
   * nodes placed at their own tokens, all inside that run: node ids are
   * distinct, which the resolver's table keyed by id relies on.
   */
  lemma {:induction false} SpelledNamesPlaced(ts: seq<Token>, s: ExprSyntax, start: nat, end: nat)
    requires start <= end <= |ts| && SpelledBy(Spelling(s), ts, start, end)
    decreases s, 1
    ensures NamesPlaced(ts, Tree(s))
    ensures forall id | id in ExprIds(Tree(s)) :: start <= id < end
  {
    match s
    case TernarySyntax(_, _, _, _, _) => TernaryNamesPlaced(ts, s, start, end);
    case BinarySyntax(_, _, _) => InfixNamesPlaced(ts, s, start, end);
    case LogicalSyntax(_, _, _) => InfixNamesPlaced(ts, s, start, end);
    case UnarySyntax(_, _) => WrappedNamesPlaced(ts, s, start, end);
    case GroupingSyntax(_) => WrappedNamesPlaced(ts, s, start, end);
    case LiteralSyntax(_) =>
    case VariableSyntax(id, name) =>
      assert SpelledAt(Spelling(s), ts, start, 0);
    case AssignSyntax(_, _, _) => AssignNamesPlaced(ts, s, start, end);
    case InvalidAssignSyntax(_, _, _) => AssignNamesPlaced(ts, s, start, end);
  }

  lemma {:induction false} WrappedNamesPlaced(ts: seq<Token>, s: ExprSyntax, start: nat, end: nat)
    requires (s.UnarySyntax? || s.GroupingSyntax?) && start <= end <= |ts| && SpelledBy(Spelling(s), ts, start, end)
    decreases s, 0
    ensures NamesPlaced(ts, Tree(s))
    ensures forall id | id in ExprIds(Tree(s)) :: start <= id < end
  {
    if s.UnarySyntax? {
      SpelledSplit([Exactly(s.operator)], Spelling(s.right), ts, start, end);
      SpelledNamesPlaced(ts, s.right, start + |[Exactly(s.operator)]|, end);
    } else {
      SpelledInside([Kind(LEFT_PAREN)], Spelling(s.inner), [Kind(RIGHT_PAREN)], ts, start, end);
      SpelledNamesPlaced(ts, s.inner, start + |[Kind(LEFT_PAREN)]|, end - |[Kind(RIGHT_PAREN)]|);
    }
  }

  lemma {:induction false} AssignNamesPlaced(ts: seq<Token>, s: ExprSyntax, start: nat, end: nat)
    requires (s.AssignSyntax? || s.InvalidAssignSyntax?) && start <= end <= |ts| && SpelledBy(Spelling(s), ts, start, end)
    decreases s, 0
    ensures NamesPlaced(ts, Tree(s))
    ensures forall id | id in ExprIds(Tree(s)) :: start <= id < end
  {
    if s.AssignSyntax? {
      assert SpelledAt(Spelling(s), ts, start, 0);
      var target := [NameAt(s.id, s.name), Kind(EQUAL)];
      SpelledSplit(target, Spelling(s.value), ts, start, end);
      SpelledNamesPlaced(ts, s.value, start + |target|, end);
    } else {
      SpelledAround(Spelling(s.target), Exactly(s.equals), Spelling(s.value), ts, start, end);
      SpelledNamesPlaced(ts, s.target, start, start + |Spelling(s.target)|);
    }
  }

  lemma {:induction false} TernaryNamesPlaced(ts: seq<Token>, s: ExprSyntax, start: nat, end: nat)
    requires s.TernarySyntax? && start <= end <= |ts| && SpelledBy(Spelling(s), ts, start, end)
    decreases s, 0
    ensures NamesPlaced(ts, Tree(s))
    ensures forall id | id in ExprIds(Tree(s)) :: start <= id < end
  {
    var head := Spelling(s.condition) + [Exactly(s.question)] + Spelling(s.mid);
    SpelledAround(head, Exactly(s.colon), Spelling(s.right), ts, start, end);
    var k := start + |head|;
    SpelledAround(Spelling(s.condition), Exactly(s.question), Spelling(s.mid), ts, start, k);
    var j := start + |Spelling(s.condition)|;
    SpelledNamesPlaced(ts, s.condition, start, j);
    SpelledNamesPlaced(ts, s.mid, j + 1, k);
    SpelledNamesPlaced(ts, s.right, k + 1, end);
    var ci, mi := ExprIds(Tree(s.condition)), ExprIds(Tree(s.mid));
    Apart(ci, mi, start, j, k);
    Apart(ci + mi, ExprIds(Tree(s.right)), start, k, end);
  }

  lemma {:induction false} InfixNamesPlaced(ts: seq<Token>, s: ExprSyntax, start: nat, end: nat)
    requires (s.BinarySyntax? || s.LogicalSyntax?) && start <= end <= |ts| && SpelledBy(Spelling(s), ts, start, end)
    decreases s, 0
    ensures NamesPlaced(ts, Tree(s))
    ensures forall id | id in ExprIds(Tree(s)) :: start <= id < end
  {
    SpelledAround(Spelling(s.left), Exactly(s.operator), Spelling(s.right), ts, start, end);
    var j := start + |Spelling(s.left)|;
    SpelledNamesPlaced(ts, s.left, start, j);
    SpelledNamesPlaced(ts, s.right, j + 1, end);
    Apart(ExprIds(Tree(s.left)), ExprIds(Tree(s.right)), start, j, end);
  }

  /**
   * `s` is an expression of rung `level` or tighter read from
   * `ts[start..end]`, whose reading appended exactly its reports.
   */
  ghost predicate Derived(ts: seq<Token>, s: ExprSyntax, level: int, start: nat, end: nat,
                          before: seq<Diagnostic>, after: seq<Diagnostic>)
  {
    && Grammatical(s) && Prec(s) >= level
    && Consumed(ts, Spelling(s), Reports(s), start, end, before, after)
  }

  /**
   * What a rule of rung `level` promises when it ran from `start` to `end`
   * and the reports grew from `before` to `after`: a success returns the
   * tree of an expression derived from exactly the tokens consumed, and
   * stopped before any operator it would have consumed. Where a failure
   * stopped is stated apart, by `Halted`.
   */
  ghost predicate Outcome(ts: seq<Token>, r: Result<Expr>, s: ExprSyntax, level: int, start: nat, end: nat,
                          before: seq<Diagnostic>, after: seq<Diagnostic>)
  {
    match r
    case ParseError => start <= end < |ts| && before <= after
    case Ok(v) =>
      && start <= end < |ts| && before <= after
      && v == Tree(s) && Derived(ts, s, level, start, end, before, after) && InfixLevel(ts[end].kind) < level
  }

  /** A derived expression followed by a token it cannot absorb is a finished rule. */
  lemma {:induction false} StopStep(ts: seq<Token>, s: ExprSyntax, level: int, start: nat, end: nat, before: seq<Diagnostic>, after: seq<Diagnostic>)
    requires end < |ts| && InfixLevel(ts[end].kind) < level
    requires Derived(ts, s, level, start, end, before, after) == true
    ensures Outcome(ts, Ok(Tree(s)), s, level, start, end, before, after)
  {
  }

  lemma {:induction false} LiteralStep(ts: seq<Token>, v: Value, start: nat, before: seq<Diagnostic>)
    requires start + 1 < |ts| && Matches(LiteralOf(v), ts, start)
    ensures Outcome(ts, Ok(Literal(v)), LiteralSyntax(v), 9, start, start + 1, before, before)
  {
    assert before + [] == before;
  }

  /** A name read at `start` is a `Variable` node whose identity is `start`. */
  lemma {:induction false} VariableStep(ts: seq<Token>, name: Token, start: nat, before: seq<Diagnostic>)
    requires start + 1 < |ts| && ts[start] == name && name.kind == IDENTIFIER
    ensures Outcome(ts, Ok(Variable(start, name)), VariableSyntax(start, name), 9, start, start + 1, before, before)
  {
    assert before + [] == before;
  }

  lemma {:induction false} GroupingStep(ts: seq<Token>, inner: ExprSyntax, start: nat, close: nat, before: seq<Diagnostic>, after: seq<Diagnostic>)
    requires start < close && close + 1 < |ts|
    requires ts[start].kind == LEFT_PAREN && ts[close].kind == RIGHT_PAREN
    requires Derived(ts, inner, 0, start + 1, close, before, after) == true
    ensures Outcome(ts, Ok(Grouping(Tree(inner))), GroupingSyntax(inner), 9, start, close + 1, before, after)
  {
    ConsumedAfter(ts, Kind(LEFT_PAREN), Spelling(inner), Reports(inner), start, close, before, after);
    ConsumedBefore(ts, [Kind(LEFT_PAREN)] + Spelling(inner), Reports(inner), Kind(RIGHT_PAREN), start, close, before, after);
  }

  lemma {:induction false} UnaryStep(ts: seq<Token>, op: Token, right: ExprSyntax, start: nat, end: nat,
                  before: seq<Diagnostic>, after: seq<Diagnostic>)
    requires start < end < |ts| && ts[start] == op && op.kind in UnaryOps
    requires Outcome(ts, Ok(Tree(right)), right, 8, start + 1, end, before, after) == true
    ensures Outcome(ts, Ok(Unary(op, Tree(right))), UnarySyntax(op, right), 8, start, end, before, after)
  {
    ConsumedAfter(ts, Exactly(op), Spelling(right), Reports(right), start, end, before, after);
  }

  lemma {:induction false} TernaryStep(ts: seq<Token>, condition: ExprSyntax, question: Token, mid: ExprSyntax, colon: Token, right: ExprSyntax,
                    start: nat, q: nat, c: nat, end: nat,
                    before: seq<Diagnostic>, afterCondition: seq<Diagnostic>, afterMid: seq<Diagnostic>, after: seq<Diagnostic>)
    requires q < c < |ts| && ts[q] == question && ts[c] == colon
    requires question.kind == QUESTION && colon.kind == COLON
    requires Derived(ts, condition, 8, start, q, before, afterCondition) == true
    requires Derived(ts, mid, 7, q + 1, c, afterCondition, afterMid) == true
    requires Derived(ts, right, 7, c + 1, end, afterMid, after) == true
    ensures Derived(ts, TernarySyntax(condition, question, mid, colon, right), 7, start, end, before, after)
  {
    ConsumedBefore(ts, Spelling(condition), Reports(condition), Exactly(question), start, q, before, afterCondition);
    var xs := Spelling(condition) + [Exactly(question)];
    ConsumedConcat(ts, xs, Reports(condition), Spelling(mid), Reports(mid), start, q + 1, c, before, afterCondition, afterMid);
    ConsumedBefore(ts, xs + Spelling(mid), Reports(condition) + Reports(mid), Exactly(colon), start, c, before, afterMid);
    ConsumedConcat(ts, xs + Spelling(mid) + [Exactly(colon)], Reports(condition) + Reports(mid), Spelling(right), Reports(right),
                   start, c + 1, end, before, afterMid, after);
  }

  /** A left operand, an operator token and a right operand read one after another. */
  lemma {:induction false} InfixSpelled(ts: seq<Token>, left: ExprSyntax, op: Token, right: ExprSyntax, start: nat, opPos: nat, end: nat,
                     before: seq<Diagnostic>, middle: seq<Diagnostic>, after: seq<Diagnostic>)
    requires opPos < |ts| && ts[opPos] == op
    requires Consumed(ts, Spelling(left), Reports(left), start, opPos, before, middle) == true
    requires Consumed(ts, Spelling(right), Reports(right), opPos + 1, end, middle, after) == true
    ensures Consumed(ts, Spelling(left) + [Exactly(op)] + Spelling(right), Reports(left) + Reports(right), start, end, before, after)
  {
    ConsumedBefore(ts, Spelling(left), Reports(left), Exactly(op), start, opPos, before, middle);
    ConsumedConcat(ts, Spelling(left) + [Exactly(op)], Reports(left), Spelling(right), Reports(right), start, opPos + 1, end, before, middle, after);
  }

  lemma {:induction false} BinaryStep(ts: seq<Token>, left: ExprSyntax, op: Token, right: ExprSyntax, level: int,
                   start: nat, opPos: nat, rightStart: nat, end: nat,
                   before: seq<Diagnostic>, middle: seq<Diagnostic>, after: seq<Diagnostic>)
    requires opPos < |ts| && ts[opPos] == op
    requires 3 <= level <= 6 && InfixLevel(op.kind) == level
    requires Derived(ts, left, level, start, opPos, before, middle) == true
    requires rightStart == opPos + 1 && Derived(ts, right, level + 1, rightStart, end, middle, after) == true
    ensures Derived(ts, BinarySyntax(left, op, right), level, start, end, before, after)
  {
    InfixSpelled(ts, left, op, right, start, opPos, end, before, middle, after);
  }

  lemma {:induction false} LogicalStep(ts: seq<Token>, left: ExprSyntax, op: Token, right: ExprSyntax, level: int,
                    start: nat, opPos: nat, rightStart: nat, end: nat,
                    before: seq<Diagnostic>, middle: seq<Diagnostic>, after: seq<Diagnostic>)
    requires opPos < |ts| && ts[opPos] == op
    requires 1 <= level <= 2 && InfixLevel(op.kind) == level
    requires Derived(ts, left, level, start, opPos, before, middle) == true
    requires rightStart == opPos + 1 && Derived(ts, right, level + 1, rightStart, end, middle, after) == true
    ensures Derived(ts, LogicalSyntax(left, op, right), level, start, end, before, after)
  {
    InfixSpelled(ts, left, op, right, start, opPos, end, before, middle, after);
  }

  /** A left side read as a name is the one token at its start. */
  lemma {:induction false} NameTarget(ts: seq<Token>, target: ExprSyntax, left: Result<Expr>, start: nat, eq: nat,
                   before: seq<Diagnostic>, middle: seq<Diagnostic>)
    requires left.Ok? && Outcome(ts, left, target, 1, start, eq, before, middle) == true && left.value.Variable?
    ensures target == VariableSyntax(start, left.value.name) && left.value.id == start
    ensures eq == start + 1 && middle == before && ts[start] == left.value.name && left.value.name.kind == IDENTIFIER
  {
    VariableTree(target);
    var atom := NameAt(target.id, target.name);
    assert Spelling(target) == [atom] && Reports(target) == [];
    assert SpelledBy([atom], ts, start, eq);
    assert SpelledAt([atom], ts, start, 0);
  }

  /** Below assignment, the only syntax whose tree is a `Variable` node is a name. */
  lemma {:induction false} VariableTree(s: ExprSyntax)
    requires Prec(s) >= 1 && Tree(s).Variable?
    ensures s == VariableSyntax(Tree(s).id, Tree(s).name)
  {
  }

  /**
   * A name, `=` and a value: the name's `Variable` node becomes an `Assign`
   * node with the same name and identity.
   */
  lemma {:induction false} AssignStep(ts: seq<Token>, target: ExprSyntax, value: ExprSyntax, left: Result<Expr>, right: Result<Expr>,
                   start: nat, eq: nat, valueStart: nat, end: nat,
                   before: seq<Diagnostic>, middle: seq<Diagnostic>, after: seq<Diagnostic>)
    requires eq < |ts| && ts[eq].kind == EQUAL && valueStart == eq + 1
    requires left.Ok? && Outcome(ts, left, target, 1, start, eq, before, middle) == true && left.value.Variable?
    requires right.Ok? && Outcome(ts, right, value, 0, valueStart, end, middle, after) == true
    ensures target == VariableSyntax(left.value.id, left.value.name) && left.value.id == start
    ensures Outcome(ts, Ok(Assign(left.value.id, left.value.name, right.value)), AssignSyntax(start, left.value.name, value),
                    0, start, end, before, after)
  {
    NameTarget(ts, target, left, start, eq, before, middle);
    var name := left.value.name;
    var atoms := [NameAt(start, name)];
    ConsumedBefore(ts, atoms, [], Kind(EQUAL), start, eq, before, before);
    ConsumedConcat(ts, atoms + [Kind(EQUAL)], [], Spelling(value), Reports(value), start, valueStart, end, before, before, after);
    var assign := AssignSyntax(start, name, value);
    assert Spelling(assign) == atoms + [Kind(EQUAL)] + Spelling(value);
    assert Reports(assign) == [] + Reports(value);
  }

  /**
   * A left side that is not a name, `=` and a value: the left side is the
   * result, the value is dropped, and one report is made at the `=` after
   * those made while reading the two.
   */
  lemma {:induction false} InvalidTargetStep(ts: seq<Token>, target: ExprSyntax, equals: Token, value: ExprSyntax, left: Result<Expr>, right: Result<Expr>,
                          start: nat, eq: nat, valueStart: nat, end: nat,
                          before: seq<Diagnostic>, middle: seq<Diagnostic>, after: seq<Diagnostic>)
    requires eq < |ts| && ts[eq] == equals && equals.kind == EQUAL && valueStart == eq + 1
    requires left.Ok? && Outcome(ts, left, target, 1, start, eq, before, middle) == true && !left.value.Variable?
    requires right.Ok? && Outcome(ts, right, value, 0, valueStart, end, middle, after) == true
    ensures Outcome(ts, Ok(left.value), InvalidAssignSyntax(target, equals, value), 0, start, end, before,
                    after + [Diagnostic(equals, InvalidAssignmentTarget)])
    ensures left.value == Tree(target) && Derived(ts, target, 1, start, eq, before, middle)
    ensures eq == start + |Spelling(target)| && middle == before + Reports(target)
  {
    InfixSpelled(ts, target, equals, value, start, eq, end, before, middle, after);
  }

  // ---------------------------------------------------------------------
  // Where an expression rule stops on a syntax error
  // ---------------------------------------------------------------------

  /** The token kinds an expression can start with: a primary or a unary operator. */
  const ExprStarts: set<TokenType> := PrimaryStarts + UnaryOps

  /**
   * What an expression rule had read when a syntax error stopped it: the
   * finished parts on the way down to the place where a token was missing.
   * `NoOperand` is a missing operand, `Unclosed` a grouping without its
   * `)` and `NoColon` a ternary without its `:`; every other case says in
   * which operand the error happened.
   */
  datatype ExprHalt =
    | NoOperand
    | InUnary(operator: Token, right: ExprHalt)
    | InGroup(inner: ExprHalt)
    | Unclosed(grouped: ExprSyntax)
    | InRight(left: ExprSyntax, operator: Token, right: ExprHalt)
    | InMiddle(condition: ExprSyntax, question: Token, midway: ExprHalt)
    | NoColon(condition: ExprSyntax, question: Token, mid: ExprSyntax)
    | InBranch(condition: ExprSyntax, question: Token, mid: ExprSyntax, colon: Token, right: ExprHalt)
    | InValue(target: ExprSyntax, equals: Token, value: ExprHalt)

  /** The tokens read before the one that stopped the rule. */
  function HaltSpelling(h: ExprHalt): seq<Atom> {
    match h
    case NoOperand => []
    case InUnary(op, r) => [Exactly(op)] + HaltSpelling(r)
    case InGroup(i) => [Kind(LEFT_PAREN)] + HaltSpelling(i)
    case Unclosed(i) => [Kind(LEFT_PAREN)] + Spelling(i)
    case InRight(l, op, r) => Spelling(l) + [Exactly(op)] + HaltSpelling(r)
    case InMiddle(c, q, m) => Spelling(c) + [Exactly(q)] + HaltSpelling(m)
    case NoColon(c, q, m) => Spelling(c) + [Exactly(q)] + Spelling(m)
    case InBranch(c, q, m, colon, r) => Spelling(c) + [Exactly(q)] + Spelling(m) + [Exactly(colon)] + HaltSpelling(r)
    case InValue(t, eq, v) => Spelling(t) + [Exactly(eq)] + HaltSpelling(v)
  }

  /** The reports made before the one that stopped the rule. */
  function HaltReports(h: ExprHalt): seq<Diagnostic> {
    match h
    case NoOperand => []
    case InUnary(_, r) => HaltReports(r)
    case InGroup(i) => HaltReports(i)
    case Unclosed(i) => Reports(i)
    case InRight(l, _, r) => Reports(l) + HaltReports(r)
    case InMiddle(c, _, m) => Reports(c) + HaltReports(m)
    case NoColon(c, _, m) => Reports(c) + Reports(m)
    case InBranch(c, _, m, _, r) => Reports(c) + Reports(m) + HaltReports(r)
    case InValue(t, _, v) => Reports(t) + HaltReports(v)
  }

  /** The message of the report that stopped the rule. */
  function HaltMessage(h: ExprHalt): Message {
    match h
    case NoOperand => ExpectExpression
    case InUnary(_, r) => HaltMessage(r)
    case InGroup(i) => HaltMessage(i)
    case Unclosed(_) => ExpectParenAfterExpression
    case InRight(_, _, r) => HaltMessage(r)
    case InMiddle(_, _, m) => HaltMessage(m)
    case NoColon(_, _, _) => ExpectColonInTernary
    case InBranch(_, _, _, _, r) => HaltMessage(r)
    case InValue(_, _, v) => HaltMessage(v)
  }

  /**
   * `h` is the grammatical beginning of an expression of rung `level` or
   * tighter, and the grammar has no way to go on from it with a token of
   * kind `k`: no operand starts with `k` where one is missing (and, below
   * the unary rung, no unary operator either), and neither the missing `)`
   * or `:` nor an operator that would extend the finished part before it is
   * `k`.
   */
  predicate Blocked(h: ExprHalt, level: int, k: TokenType) {
    match h
    case NoOperand => k !in PrimaryStarts && (level <= 8 ==> k !in UnaryOps)
    case InUnary(op, r) => op.kind in UnaryOps && level <= 8 && Blocked(r, 8, k)
    case InGroup(i) => Blocked(i, 0, k)
    case Unclosed(i) => Grammatical(i) && k != RIGHT_PAREN && InfixLevel(k) < 0
    case InRight(l, op, r) =>
      && 1 <= InfixLevel(op.kind) <= 6 && level <= InfixLevel(op.kind)
      && Prec(l) >= InfixLevel(op.kind) && Grammatical(l) && Blocked(r, InfixLevel(op.kind) + 1, k)
    case InMiddle(c, q, m) =>
      && q.kind == QUESTION && level <= 7 && Prec(c) >= 8 && Grammatical(c) && Blocked(m, 7, k)
    case NoColon(c, q, m) =>
      && q.kind == QUESTION && level <= 7 && Prec(c) >= 8 && Grammatical(c)
      && Prec(m) >= 7 && Grammatical(m) && k != COLON && InfixLevel(k) < 7
    case InBranch(c, q, m, colon, r) =>
      && q.kind == QUESTION && colon.kind == COLON && level <= 7 && Prec(c) >= 8 && Grammatical(c)
      && Prec(m) >= 7 && Grammatical(m) && Blocked(r, 7, k)
    case InValue(t, eq, v) =>
      && eq.kind == EQUAL && level <= 0 && Prec(t) >= 1 && Grammatical(t) && Blocked(v, 0, k)
  }

  /**
   * A rule of rung `level` that ran from `start` was stopped at `ts[end]`:
   * the tokens before it begin an expression of that rung as `h` says, the
   * grammar cannot go on with `ts[end]`, and the reports are those of the
   * finished parts followed by one at `ts[end]`.
   */
  ghost predicate Halted(ts: seq<Token>, h: ExprHalt, level: int, start: nat, end: nat,
                         before: seq<Diagnostic>, after: seq<Diagnostic>)
  {
    && end < |ts| && Blocked(h, level, ts[end].kind)
    && Consumed(ts, HaltSpelling(h), HaltReports(h) + [Diagnostic(ts[end], HaltMessage(h))], start, end, before, after)
  }

  /** A run read in front of a stopped one; the stopping report stays last. */
  lemma {:induction false} HaltAfter(ts: seq<Token>, xs: seq<Atom>, xr: seq<Diagnostic>, ys: seq<Atom>, yr: seq<Diagnostic>, d: Diagnostic,
                  a: nat, b: nat, c: nat, e0: seq<Diagnostic>, e1: seq<Diagnostic>, e2: seq<Diagnostic>)
    requires Consumed(ts, xs, xr, a, b, e0, e1) == true && Consumed(ts, ys, yr + [d], b, c, e1, e2) == true
    ensures Consumed(ts, xs + ys, xr + yr + [d], a, c, e0, e2)
  {
    ConsumedConcat(ts, xs, xr, ys, yr + [d], a, b, c, e0, e1, e2);
    assert xr + (yr + [d]) == xr + yr + [d];
  }

  /** A stopped rule is stopped for every looser rung; to the unary rung only if a unary operator cannot start there. */
  lemma {:induction false} HaltLoosened(ts: seq<Token>, h: ExprHalt, level: int, lower: int, start: nat, end: nat,
                     before: seq<Diagnostic>, after: seq<Diagnostic>)
    requires Halted(ts, h, level, start, end, before, after) == true && lower <= level
    requires h.NoOperand? && lower <= 8 < level ==> ts[end].kind !in UnaryOps
    ensures Halted(ts, h, lower, start, end, before, after)
  {
  }

  /** No operand starts at `ts[start]`: `primary` reports it (Parser.java:327). */
  lemma {:induction false} NoOperandStep(ts: seq<Token>, start: nat, before: seq<Diagnostic>)
    requires start < |ts| && ts[start].kind !in PrimaryStarts
    ensures Halted(ts, NoOperand, 9, start, start, before, before + [Diagnostic(ts[start], ExpectExpression)])
  {
  }

  lemma {:induction false} InUnaryStep(ts: seq<Token>, op: Token, r: ExprHalt, start: nat, end: nat,
                    before: seq<Diagnostic>, after: seq<Diagnostic>)
    requires start < |ts| && ts[start] == op && op.kind in UnaryOps
    requires Halted(ts, r, 8, start + 1, end, before, after) == true
    ensures Halted(ts, InUnary(op, r), 8, start, end, before, after)
  {
    assert [] + HaltReports(r) == HaltReports(r);
    HaltAfter(ts, [Exactly(op)], [], HaltSpelling(r), HaltReports(r), Diagnostic(ts[end], HaltMessage(r)),
              start, start + 1, end, before, before, after);
  }

  lemma {:induction false} InGroupStep(ts: seq<Token>, i: ExprHalt, start: nat, end: nat,
                    before: seq<Diagnostic>, after: seq<Diagnostic>)
    requires start < |ts| && ts[start].kind == LEFT_PAREN
    requires Halted(ts, i, 0, start + 1, end, before, after) == true
    ensures Halted(ts, InGroup(i), 9, start, end, before, after)
  {
    assert [] + HaltReports(i) == HaltReports(i);
    HaltAfter(ts, [Kind(LEFT_PAREN)], [], HaltSpelling(i), HaltReports(i), Diagnostic(ts[end], HaltMessage(i)),
              start, start + 1, end, before, before, after);
  }

  /** A grouping whose expression is followed by something other than `)` (Parser.java:323). */
  lemma {:induction false} UnclosedStep(ts: seq<Token>, i: ExprSyntax, start: nat, close: nat,
                     before: seq<Diagnostic>, after: seq<Diagnostic>)
    requires start < close < |ts| && ts[start].kind == LEFT_PAREN
    requires Derived(ts, i, 0, start + 1, close, before, after) == true
    requires ts[close].kind != RIGHT_PAREN && InfixLevel(ts[close].kind) < 0
    ensures Halted(ts, Unclosed(i), 9, start, close, before, after + [Diagnostic(ts[close], ExpectParenAfterExpression)])
  {
    ConsumedAfter(ts, Kind(LEFT_PAREN), Spelling(i), Reports(i), start, close, before, after);
  }

  /** A left operand and an operator read, then the right operand stopped. */
  lemma {:induction false} InRightStep(ts: seq<Token>, l: ExprSyntax, op: Token, r: ExprHalt, level: int,
                    start: nat, opPos: nat, end: nat, before: seq<Diagnostic>, middle: seq<Diagnostic>, after: seq<Diagnostic>)
    requires opPos < |ts| && ts[opPos] == op
    requires 1 <= level <= 6 && InfixLevel(op.kind) == level
    requires Derived(ts, l, level, start, opPos, before, middle) == true
    requires Halted(ts, r, level + 1, opPos + 1, end, middle, after) == true
    ensures Halted(ts, InRight(l, op, r), level, start, end, before, after)
  {
    ConsumedBefore(ts, Spelling(l), Reports(l), Exactly(op), start, opPos, before, middle);
    HaltAfter(ts, Spelling(l) + [Exactly(op)], Reports(l), HaltSpelling(r), HaltReports(r), Diagnostic(ts[end], HaltMessage(r)),
              start, opPos + 1, end, before, middle, after);
  }

  /** A condition and `?` read, then the middle branch stopped. */
  lemma {:induction false} InMiddleStep(ts: seq<Token>, c: ExprSyntax, q: Token, m: ExprHalt,
                     start: nat, qPos: nat, end: nat, before: seq<Diagnostic>, middle: seq<Diagnostic>, after: seq<Diagnostic>)
    requires qPos < |ts| && ts[qPos] == q && q.kind == QUESTION
    requires Derived(ts, c, 8, start, qPos, before, middle) == true
    requires Halted(ts, m, 7, qPos + 1, end, middle, after) == true
    ensures Halted(ts, InMiddle(c, q, m), 7, start, end, before, after)
  {
    ConsumedBefore(ts, Spelling(c), Reports(c), Exactly(q), start, qPos, before, middle);
    HaltAfter(ts, Spelling(c) + [Exactly(q)], Reports(c), HaltSpelling(m), HaltReports(m), Diagnostic(ts[end], HaltMessage(m)),
              start, qPos + 1, end, before, middle, after);
  }

  /** A condition, `?` and middle branch read, then no `:` (Parser.java:289). */
  lemma {:induction false} NoColonStep(ts: seq<Token>, c: ExprSyntax, q: Token, m: ExprSyntax,
                    start: nat, qPos: nat, end: nat, before: seq<Diagnostic>, middle: seq<Diagnostic>, after: seq<Diagnostic>)
    requires qPos < end < |ts| && ts[qPos] == q && q.kind == QUESTION
    requires Derived(ts, c, 8, start, qPos, before, middle) == true
    requires Derived(ts, m, 7, qPos + 1, end, middle, after) == true
    requires ts[end].kind != COLON && InfixLevel(ts[end].kind) < 7
    ensures Halted(ts, NoColon(c, q, m), 7, start, end, before, after + [Diagnostic(ts[end], ExpectColonInTernary)])
  {
    ConsumedBefore(ts, Spelling(c), Reports(c), Exactly(q), start, qPos, before, middle);
    ConsumedConcat(ts, Spelling(c) + [Exactly(q)], Reports(c), Spelling(m), Reports(m), start, qPos + 1, end, before, middle, after);
  }

  /** A condition, `?`, middle branch and `:` read, then the right branch stopped. */
  lemma {:induction false} InBranchStep(ts: seq<Token>, c: ExprSyntax, q: Token, m: ExprSyntax, colon: Token, r: ExprHalt,
                     start: nat, qPos: nat, colonPos: nat, end: nat,
                     before: seq<Diagnostic>, afterCondition: seq<Diagnostic>, afterMid: seq<Diagnostic>, after: seq<Diagnostic>)
    requires qPos < colonPos < |ts| && ts[qPos] == q && q.kind == QUESTION && ts[colonPos] == colon && colon.kind == COLON
    requires Derived(ts, c, 8, start, qPos, before, afterCondition) == true
    requires Derived(ts, m, 7, qPos + 1, colonPos, afterCondition, afterMid) == true
    requires Halted(ts, r, 7, colonPos + 1, end, afterMid, after) == true
    ensures Halted(ts, InBranch(c, q, m, colon, r), 7, start, end, before, after)
  {
    ConsumedBefore(ts, Spelling(c), Reports(c), Exactly(q), start, qPos, before, afterCondition);
    var xs := Spelling(c) + [Exactly(q)];
    ConsumedConcat(ts, xs, Reports(c), Spelling(m), Reports(m), start, qPos + 1, colonPos, before, afterCondition, afterMid);
    ConsumedBefore(ts, xs + Spelling(m), Reports(c) + Reports(m), Exactly(colon), start, colonPos, before, afterMid);
    HaltAfter(ts, xs + Spelling(m) + [Exactly(colon)], Reports(c) + Reports(m), HaltSpelling(r), HaltReports(r),
              Diagnostic(ts[end], HaltMessage(r)), start, colonPos + 1, end, before, afterMid, after);
  }

  /** A left side and `=` read, then the assigned value stopped. */
  lemma {:induction false} InValueStep(ts: seq<Token>, t: ExprSyntax, eq: Token, v: ExprHalt,
                    start: nat, eqPos: nat, end: nat, before: seq<Diagnostic>, middle: seq<Diagnostic>, after: seq<Diagnostic>)
    requires eqPos < |ts| && ts[eqPos] == eq && eq.kind == EQUAL
    requires Derived(ts, t, 1, start, eqPos, before, middle) == true
    requires Halted(ts, v, 0, eqPos + 1, end, middle, after) == true
    ensures Halted(ts, InValue(t, eq, v), 0, start, end, before, after)
  {
    ConsumedBefore(ts, Spelling(t), Reports(t), Exactly(eq), start, eqPos, before, middle);
    HaltAfter(ts, Spelling(t) + [Exactly(eq)], Reports(t), HaltSpelling(v), HaltReports(v), Diagnostic(ts[end], HaltMessage(v)),
              start, eqPos + 1, end, before, middle, after);
  }

  // ---------------------------------------------------------------------
  // What a statement rule reads
  // ---------------------------------------------------------------------

  /** A statement as read: a `for` loop keeps its clauses, which the rules desugar. */
  datatype StmtSyntax =
    | ExpressionStmtSyntax(expression: ExprSyntax)
    | PrintSyntax(expression: ExprSyntax)
    | VarSyntax(name: Token, initializer: Option<ExprSyntax>)
    | BlockSyntax(entries: seq<EntrySyntax>)
    | IfSyntax(condition: ExprSyntax, thenBranch: StmtSyntax, elseBranch: Option<StmtSyntax>)
    | WhileSyntax(condition: ExprSyntax, body: StmtSyntax)
    | ForSyntax(init: Option<StmtSyntax>, cond: Option<ExprSyntax>, increment: Option<ExprSyntax>, body: StmtSyntax)

  /**
   * One run of `declaration`: a statement, or a failed one: what it read
   * before the token `stop` at which a syntax error stopped it, and the
   * tokens `rest` that `synchronize` then skipped, from `stop` up to the
   * next statement boundary.
   */
  datatype EntrySyntax =
    | Declared(statement: StmtSyntax)
    | Skipped(halt: StmtHalt, stop: Token, rest: seq<Token>)

  /**
   * The desugaring of `for (initializer; condition; increment) body`
   * (Parser.java:93-106): the increment runs after the body, a missing
   * condition is `true`, and the initializer runs once in a block of its own.
   */
  function DesugarFor(initializer: Option<Stmt>, condition: Option<Expr>, increment: Option<Expr>, body: Stmt): Stmt {
    var inner := if increment.Some? then Block([Some(body), Some(Stmt.Expression(increment.value))]) else body;
    var loop := While(if condition.Some? then condition.value else Literal(BoolValue(true)), inner);
    if initializer.Some? then Block([initializer, Some(loop)]) else loop
  }

  function OptTree(e: Option<ExprSyntax>): Option<Expr> {
    match e
    case None => None
    case Some(x) => Some(Tree(x))
  }

  /** The statement tree the rules return for what they read. */
  function StmtTree(s: StmtSyntax): Stmt
    decreases s, 1
  {
    match s
    case ExpressionStmtSyntax(e) => Stmt.Expression(Tree(e))
    case PrintSyntax(e) => Print(Tree(e))
    case VarSyntax(name, initializer) => Var(name, OptTree(initializer))
    case BlockSyntax(entries) => Block(ListTree(entries))
    case IfSyntax(c, t, el) => If(Tree(c), StmtTree(t), OptStmtTree(el))
    case WhileSyntax(c, b) => While(Tree(c), StmtTree(b))
    case ForSyntax(i, c, inc, b) => DesugarFor(OptStmtTree(i), OptTree(c), OptTree(inc), StmtTree(b))
  }

  function OptStmtTree(o: Option<StmtSyntax>): Option<Stmt>
    decreases o, 0
  {
    match o
    case None => None
    case Some(s) => Some(StmtTree(s))
  }

  /** A failed declaration is a null entry. */
  function EntryTree(d: EntrySyntax): Option<Stmt>
    decreases d, 2
  {
    match d
    case Declared(s) => Some(StmtTree(s))
    case Skipped(_, _, _) => None
  }

  function ListTree(ds: seq<EntrySyntax>): seq<Option<Stmt>>
    decreases ds, 3
  {
    if ds == [] then [] else ListTree(ds[..|ds| - 1]) + [EntryTree(ds[|ds| - 1])]
  }

  /** The tokens `toks` themselves, one by one. */
  function Verbatim(toks: seq<Token>): (atoms: seq<Atom>)
    ensures |atoms| == |toks| && forall k | 0 <= k < |toks| :: atoms[k] == Exactly(toks[k])
  {
    seq(|toks|, k requires 0 <= k < |toks| => Exactly(toks[k]))
  }

  function OptSpelling(e: Option<ExprSyntax>): seq<Atom> {
    if e.Some? then Spelling(e.value) else []
  }

  function OptReports(e: Option<ExprSyntax>): seq<Diagnostic> {
    if e.Some? then Reports(e.value) else []
  }

  predicate OptGrammatical(e: Option<ExprSyntax>) {
    e.Some? ==> Grammatical(e.value)
  }

  /** The `= value` of a `var` declaration, or nothing. */
  function InitializerSpelling(e: Option<ExprSyntax>): seq<Atom> {
    if e.Some? then [Kind(EQUAL)] + Spelling(e.value) else []
  }

  /** An optional expression clause of a `for` header and the token that closes it. */
  function ClauseSpelling(e: Option<ExprSyntax>, terminator: TokenType): seq<Atom> {
    OptSpelling(e) + [Kind(terminator)]
  }

  /** The tokens a statement is written with, in order. */
  function StmtSpelling(s: StmtSyntax): seq<Atom>
    decreases s, 2
  {
    match s
    case ExpressionStmtSyntax(e) => Spelling(e) + [Kind(SEMICOLON)]
    case PrintSyntax(e) => [Kind(PRINT)] + Spelling(e) + [Kind(SEMICOLON)]
    case VarSyntax(name, initializer) => [Kind(VAR), Exactly(name)] + InitializerSpelling(initializer) + [Kind(SEMICOLON)]
    case BlockSyntax(entries) => [Kind(LEFT_BRACE)] + ListSpelling(entries) + [Kind(RIGHT_BRACE)]
    case IfSyntax(c, t, el) => [Kind(IF)] + Parenthesized(Spelling(c)) + StmtSpelling(t) + ElseSpelling(el)
    case WhileSyntax(c, b) => [Kind(WHILE)] + Parenthesized(Spelling(c)) + StmtSpelling(b)
    case ForSyntax(i, c, inc, b) => [Kind(FOR)] + HeaderSpelling(i, c, inc) + StmtSpelling(b)
  }

  function ElseSpelling(el: Option<StmtSyntax>): seq<Atom>
    decreases el, 0
  {
    match el
    case None => []
    case Some(s) => [Kind(ELSE)] + StmtSpelling(s)
  }

  /** The initializer clause of a `for` header: `;` alone, or a statement that ends with `;`. */
  function InitClauseSpelling(i: Option<StmtSyntax>): seq<Atom>
    decreases i, 0
  {
    match i
    case None => [Kind(SEMICOLON)]
    case Some(s) => StmtSpelling(s)
  }

  /** `( initializer condition ; increment )`, where the increment's closing token is `)`. */
  function HeaderSpelling(i: Option<StmtSyntax>, c: Option<ExprSyntax>, inc: Option<ExprSyntax>): seq<Atom>
    decreases i, 1
  {
    [Kind(LEFT_PAREN)] + InitClauseSpelling(i) + ClauseSpelling(c, SEMICOLON) + ClauseSpelling(inc, RIGHT_PAREN)
  }

  function EntrySpelling(d: EntrySyntax): seq<Atom>
    decreases d, 3
  {
    match d
    case Declared(s) => StmtSpelling(s)
    case Skipped(h, _, rest) => StmtHaltSpelling(h) + Verbatim(rest)
  }

  function ListSpelling(ds: seq<EntrySyntax>): seq<Atom>
    decreases ds, 4
  {
    if ds == [] then [] else ListSpelling(ds[..|ds| - 1]) + EntrySpelling(ds[|ds| - 1])
  }

  /** The reports reading a statement makes, in order. */
  function StmtReports(s: StmtSyntax): seq<Diagnostic>
    decreases s, 2
  {
    match s
    case ExpressionStmtSyntax(e) => Reports(e)
    case PrintSyntax(e) => Reports(e)
    case VarSyntax(_, initializer) => OptReports(initializer)
    case BlockSyntax(entries) => ListReports(entries)
    case IfSyntax(c, t, el) => Reports(c) + StmtReports(t) + ElseReports(el)
    case WhileSyntax(c, b) => Reports(c) + StmtReports(b)
    case ForSyntax(i, c, inc, b) => HeaderReports(i, c, inc) + StmtReports(b)
  }

  function ElseReports(el: Option<StmtSyntax>): seq<Diagnostic>
    decreases el, 0
  {
    match el
    case None => []
    case Some(s) => StmtReports(s)
  }

  function InitClauseReports(i: Option<StmtSyntax>): seq<Diagnostic>
    decreases i, 0
  {
    match i
    case None => []
    case Some(s) => StmtReports(s)
  }

  function HeaderReports(i: Option<StmtSyntax>, c: Option<ExprSyntax>, inc: Option<ExprSyntax>): seq<Diagnostic>
    decreases i, 1
  {
    InitClauseReports(i) + OptReports(c) + OptReports(inc)
  }

  function EntryReports(d: EntrySyntax): seq<Diagnostic>
    decreases d, 3
  {
    match d
    case Declared(s) => StmtReports(s)
    case Skipped(h, stop, _) => StmtHaltReports(h) + [Diagnostic(stop, StmtHaltMessage(h))]
  }

  function ListReports(ds: seq<EntrySyntax>): seq<Diagnostic>
    decreases ds, 4
  {
    if ds == [] then [] else ListReports(ds[..|ds| - 1]) + EntryReports(ds[|ds| - 1])
  }

  /**
   * The statements the grammar derives: declared names are names, every
   * expression is grammatical, a `for` initializer is a declaration or an
   * expression statement, a loop body or a branch of an `if` is any
   * statement but a declaration (`statement` has no `var` case), and a
   * skipped run read at least one token and made at least one report. There
   * are no functions, returns or classes.
   */
  predicate StmtGrammatical(s: StmtSyntax)
    decreases s, 2
  {
    match s
    case ExpressionStmtSyntax(e) => Grammatical(e)
    case PrintSyntax(e) => Grammatical(e)
    case VarSyntax(name, initializer) => name.kind == IDENTIFIER && OptGrammatical(initializer)
    case BlockSyntax(entries) => ListGrammatical(entries)
    case IfSyntax(c, t, el) => Grammatical(c) && !t.VarSyntax? && StmtGrammatical(t) && ElseGrammatical(el)
    case WhileSyntax(c, b) => Grammatical(c) && !b.VarSyntax? && StmtGrammatical(b)
    case ForSyntax(i, c, inc, b) => HeaderGrammatical(i, c, inc) && !b.VarSyntax? && StmtGrammatical(b)
  }

  predicate ElseGrammatical(el: Option<StmtSyntax>)
    decreases el, 0
  {
    match el
    case None => true
    case Some(s) => !s.VarSyntax? && StmtGrammatical(s)
  }

  predicate InitClauseGrammatical(i: Option<StmtSyntax>)
    decreases i, 0
  {
    match i
    case None => true
    case Some(s) => (s.VarSyntax? || s.ExpressionStmtSyntax?) && StmtGrammatical(s)
  }

  predicate HeaderGrammatical(i: Option<StmtSyntax>, c: Option<ExprSyntax>, inc: Option<ExprSyntax>)
    decreases i, 1
  {
    InitClauseGrammatical(i) && OptGrammatical(c) && OptGrammatical(inc)
  }

  /**
   * A failed declaration stopped at `stop`, which no statement or
   * declaration could go on with; `synchronize` skipped from `stop` up to
   * the first statement boundary after it, or nothing at the end of the
   * input; and the entry read at least one token.
   */
  predicate EntryGrammatical(d: EntrySyntax)
    decreases d, 3
  {
    match d
    case Declared(s) => StmtGrammatical(s)
    case Skipped(h, stop, rest) =>
      && StmtBlocked(h, stop.kind) && Unaccepted(h, DeclarationKeywords, stop.kind)
      && (rest == [] <==> stop.kind == EOF) && (rest != [] ==> rest[0] == stop)
      && Unsynced(rest) && |StmtHaltSpelling(h)| + |rest| > 0
  }

  /** No statement boundary (`SyncPoint`) falls strictly inside a run of skipped tokens. */
  predicate Unsynced(rest: seq<Token>) {
    && (forall i | 0 <= i < |rest| - 1 :: rest[i].kind != SEMICOLON)
    && (forall i | 0 < i < |rest| :: rest[i].kind != EOF && rest[i].kind !in StatementStarts)
  }

  predicate ListGrammatical(ds: seq<EntrySyntax>)
    decreases ds, 4
  {
    forall k | 0 <= k < |ds| :: EntryGrammatical(ds[k])
  }

  /** The tokens a statement can end with. */
  predicate EndsStatement(k: TokenType) {
    match k
    case SEMICOLON => true
    case RIGHT_BRACE => true
    case _ => false
  }

  ghost predicate StmtDerived(ts: seq<Token>, s: StmtSyntax, start: nat, end: nat, before: seq<Diagnostic>, after: seq<Diagnostic>) {
    StmtGrammatical(s) && Consumed(ts, StmtSpelling(s), StmtReports(s), start, end, before, after)
  }

  ghost predicate HeaderDerived(ts: seq<Token>, i: Option<StmtSyntax>, c: Option<ExprSyntax>, inc: Option<ExprSyntax>,
                                start: nat, end: nat, before: seq<Diagnostic>, after: seq<Diagnostic>) {
    HeaderGrammatical(i, c, inc) && Consumed(ts, HeaderSpelling(i, c, inc), HeaderReports(i, c, inc), start, end, before, after)
  }

  ghost predicate EntryDerived(ts: seq<Token>, d: EntrySyntax, start: nat, end: nat, before: seq<Diagnostic>, after: seq<Diagnostic>) {
    EntryGrammatical(d) && Consumed(ts, EntrySpelling(d), EntryReports(d), start, end, before, after)
  }

  ghost predicate ListDerived(ts: seq<Token>, ds: seq<EntrySyntax>, start: nat, end: nat, before: seq<Diagnostic>, after: seq<Diagnostic>) {
    ListGrammatical(ds) && Consumed(ts, ListSpelling(ds), ListReports(ds), start, end, before, after)
  }

  /**
   * What a statement rule promises when it ran from `start` to `end` and
   * the reports grew from `before` to `after`: a success returns the tree
   * of a statement derived from exactly the tokens consumed, the last of
   * them a `;` or a `}`. Where a failure stopped is stated apart, by
   * `StmtHalted`.
   */
  ghost predicate StmtOutcome(ts: seq<Token>, r: Result<Stmt>, s: StmtSyntax, start: nat, end: nat,
                              before: seq<Diagnostic>, after: seq<Diagnostic>)
  {
    match r
    case ParseError => start <= end < |ts| && before <= after
    case Ok(v) =>
      && start < end < |ts| && before <= after
      && v == StmtTree(s) && StmtDerived(ts, s, start, end, before, after) && EndsStatement(ts[end - 1].kind)
  }

  /** A statement rule that succeeded derived its statement from the tokens it consumed. */
  lemma {:induction false} OkDerived(ts: seq<Token>, r: Result<Stmt>, s: StmtSyntax, start: nat, end: nat,
                                     before: seq<Diagnostic>, after: seq<Diagnostic>)
    requires r.Ok? && StmtOutcome(ts, r, s, start, end, before, after) == true
    ensures r.value == StmtTree(s) && StmtDerived(ts, s, start, end, before, after) == true
  {
  }

  /** A `var` declaration or expression statement read where a `for` initializer is expected is that clause. */
  lemma {:induction false} InitClauseStep(ts: seq<Token>, r: Result<Stmt>, s: StmtSyntax, start: nat, end: nat,
                       before: seq<Diagnostic>, after: seq<Diagnostic>)
    requires StmtOutcome(ts, r, s, start, end, before, after) == true && r.Ok?
    requires s.VarSyntax? || s.ExpressionStmtSyntax?
    ensures Some(r.value) == OptStmtTree(Some(s)) && InitClauseGrammatical(Some(s))
    ensures Consumed(ts, InitClauseSpelling(Some(s)), InitClauseReports(Some(s)), start, end, before, after)
  {
  }

  /** A spelling that ends with a given token kind puts that kind at the last token read. */
  lemma {:induction false} LastAtom(ts: seq<Token>, atoms: seq<Atom>, k: TokenType, start: nat, end: nat)
    requires start <= end <= |ts| && SpelledBy(atoms, ts, start, end)
    requires |atoms| > 0 && atoms[|atoms| - 1] == Kind(k)
    ensures start < end && ts[end - 1].kind == k
  {
    assert SpelledAt(atoms, ts, start, |atoms| - 1);
  }

  /** `expression ;` (Parser.java:151-155). */
  lemma {:induction false} ExpressionStmtStep(ts: seq<Token>, e: ExprSyntax, start: nat, semi: nat, before: seq<Diagnostic>, after: seq<Diagnostic>)
    requires semi + 1 < |ts| && ts[semi].kind == SEMICOLON
    requires Derived(ts, e, 0, start, semi, before, after) == true
    ensures StmtOutcome(ts, Ok(Stmt.Expression(Tree(e))), ExpressionStmtSyntax(e), start, semi + 1, before, after)
  {
    ConsumedBefore(ts, Spelling(e), Reports(e), Kind(SEMICOLON), start, semi, before, after);
  }

  /** `print expression ;` (Parser.java:145-149). */
  lemma {:induction false} PrintStep(ts: seq<Token>, e: ExprSyntax, start: nat, semi: nat, before: seq<Diagnostic>, after: seq<Diagnostic>)
    requires start < semi && semi + 1 < |ts| && ts[start].kind == PRINT && ts[semi].kind == SEMICOLON
    requires Derived(ts, e, 0, start + 1, semi, before, after) == true
    ensures StmtOutcome(ts, Ok(Print(Tree(e))), PrintSyntax(e), start, semi + 1, before, after)
  {
    ConsumedAfter(ts, Kind(PRINT), Spelling(e), Reports(e), start, semi, before, after);
    ConsumedBefore(ts, [Kind(PRINT)] + Spelling(e), Reports(e), Kind(SEMICOLON), start, semi, before, after);
  }

  /** `var name = initializer ;` (Parser.java:46-56). */
  lemma {:induction false} VarStep(ts: seq<Token>, name: Token, initializer: Option<ExprSyntax>, value: Option<Expr>,
                start: nat, initStart: nat, semi: nat, end: nat, before: seq<Diagnostic>, after: seq<Diagnostic>)
    requires initStart == start + 2 <= semi && end == semi + 1 < |ts|
    requires ts[start].kind == VAR && ts[start + 1] == name && name.kind == IDENTIFIER && ts[semi].kind == SEMICOLON
    requires OptGrammatical(initializer) == true && value == OptTree(initializer)
    requires Consumed(ts, InitializerSpelling(initializer), OptReports(initializer), initStart, semi, before, after) == true
    ensures StmtOutcome(ts, Ok(Var(name, value)), VarSyntax(name, initializer), start, end, before, after)
  {
    ConsumedAfter(ts, Exactly(name), InitializerSpelling(initializer), OptReports(initializer), start + 1, semi, before, after);
    ConsumedAfter(ts, Kind(VAR), [Exactly(name)] + InitializerSpelling(initializer), OptReports(initializer), start, semi, before, after);
    ConsumedBefore(ts, [Kind(VAR)] + ([Exactly(name)] + InitializerSpelling(initializer)), OptReports(initializer), Kind(SEMICOLON),
                   start, semi, before, after);
    assert [Kind(VAR)] + ([Exactly(name)] + InitializerSpelling(initializer)) == [Kind(VAR), Exactly(name)] + InitializerSpelling(initializer);
  }

  /** A `var` initializer: `=` followed by an expression. */
  lemma {:induction false} InitializerStep(ts: seq<Token>, e: ExprSyntax, start: nat, end: nat, before: seq<Diagnostic>, after: seq<Diagnostic>)
    requires start < |ts| && ts[start].kind == EQUAL
    requires Derived(ts, e, 0, start + 1, end, before, after) == true
    ensures Consumed(ts, InitializerSpelling(Some(e)), OptReports(Some(e)), start, end, before, after)
  {
    ConsumedAfter(ts, Kind(EQUAL), Spelling(e), Reports(e), start, end, before, after);
  }

  /** A parenthesised condition (Parser.java:110-112, 119-121). */
  lemma {:induction false} ConditionStep(ts: seq<Token>, e: ExprSyntax, start: nat, close: nat, before: seq<Diagnostic>, after: seq<Diagnostic>)
    requires start < close && close + 1 < |ts| && ts[start].kind == LEFT_PAREN && ts[close].kind == RIGHT_PAREN
    requires Derived(ts, e, 0, start + 1, close, before, after) == true
    ensures Consumed(ts, Parenthesized(Spelling(e)), Reports(e), start, close + 1, before, after)
  {
    ConsumedAfter(ts, Kind(LEFT_PAREN), Spelling(e), Reports(e), start, close, before, after);
    ConsumedBefore(ts, [Kind(LEFT_PAREN)] + Spelling(e), Reports(e), Kind(RIGHT_PAREN), start, close, before, after);
  }

  /** `while ( condition ) body` (Parser.java:109-116). */
  lemma {:induction false} WhileStep(ts: seq<Token>, c: ExprSyntax, b: StmtSyntax, start: nat, bodyStart: nat, end: nat,
                  before: seq<Diagnostic>, middle: seq<Diagnostic>, after: seq<Diagnostic>)
    requires start < |ts| && ts[start].kind == WHILE && Grammatical(c) == true
    requires Consumed(ts, Parenthesized(Spelling(c)), Reports(c), start + 1, bodyStart, before, middle) == true
    requires StmtOutcome(ts, Ok(StmtTree(b)), b, bodyStart, end, middle, after) == true && !b.VarSyntax?
    ensures StmtOutcome(ts, Ok(While(Tree(c), StmtTree(b))), WhileSyntax(c, b), start, end, before, after)
  {
    ConsumedAfter(ts, Kind(WHILE), Parenthesized(Spelling(c)), Reports(c), start, bodyStart, before, middle);
    ConsumedConcat(ts, [Kind(WHILE)] + Parenthesized(Spelling(c)), Reports(c), StmtSpelling(b), StmtReports(b),
                   start, bodyStart, end, before, middle, after);
  }

  /** What an optional `else` branch reads: nothing, or `else` and a statement. */
  ghost predicate ElseDerived(ts: seq<Token>, el: Option<StmtSyntax>, start: nat, end: nat,
                              before: seq<Diagnostic>, after: seq<Diagnostic>) {
    && ElseGrammatical(el) && Consumed(ts, ElseSpelling(el), ElseReports(el), start, end, before, after)
    && (el.Some? ==> start < end < |ts| && EndsStatement(ts[end - 1].kind))
  }

  /** `else` followed by a statement (Parser.java:124-128). */
  lemma {:induction false} ElseStep(ts: seq<Token>, el: StmtSyntax, branch: Result<Stmt>, start: nat, bodyStart: nat, end: nat,
                 before: seq<Diagnostic>, after: seq<Diagnostic>)
    requires start < |ts| && ts[start].kind == ELSE && bodyStart == start + 1
    requires branch.Ok? && StmtOutcome(ts, branch, el, bodyStart, end, before, after) == true && !el.VarSyntax?
    ensures branch.value == StmtTree(el) && ElseDerived(ts, Some(el), start, end, before, after)
  {
    ConsumedAfter(ts, Kind(ELSE), StmtSpelling(el), StmtReports(el), start, end, before, after);
  }

  /** `if ( condition ) then` with an optional `else` branch (Parser.java:118-131). */
  lemma {:induction false} IfStep(ts: seq<Token>, c: ExprSyntax, t: StmtSyntax, el: Option<StmtSyntax>,
               condition: Expr, thenBranch: Result<Stmt>, elseBranch: Option<Stmt>,
               start: nat, thenStart: nat, thenEnd: nat, end: nat,
               before: seq<Diagnostic>, afterCondition: seq<Diagnostic>, afterThen: seq<Diagnostic>, after: seq<Diagnostic>)
    requires start < |ts| && ts[start].kind == IF && Grammatical(c) == true && condition == Tree(c)
    requires Consumed(ts, Parenthesized(Spelling(c)), Reports(c), start + 1, thenStart, before, afterCondition) == true
    requires thenBranch.Ok? && StmtOutcome(ts, thenBranch, t, thenStart, thenEnd, afterCondition, afterThen) == true && !t.VarSyntax?
    requires elseBranch == OptStmtTree(el) && ElseDerived(ts, el, thenEnd, end, afterThen, after) == true
    requires el.None? ==> end == thenEnd && after == afterThen
    ensures StmtOutcome(ts, Ok(If(condition, thenBranch.value, elseBranch)), IfSyntax(c, t, el), start, end, before, after)
  {
    ConsumedAfter(ts, Kind(IF), Parenthesized(Spelling(c)), Reports(c), start, thenStart, before, afterCondition);
    var head := [Kind(IF)] + Parenthesized(Spelling(c));
    ConsumedConcat(ts, head, Reports(c), StmtSpelling(t), StmtReports(t), start, thenStart, thenEnd, before, afterCondition, afterThen);
    if el.Some? {
      ConsumedConcat(ts, head + StmtSpelling(t), Reports(c) + StmtReports(t), ElseSpelling(el), ElseReports(el),
                     start, thenEnd, end, before, afterThen, after);
    } else {
      assert head + StmtSpelling(t) + ElseSpelling(el) == head + StmtSpelling(t);
      assert Reports(c) + StmtReports(t) + ElseReports(el) == Reports(c) + StmtReports(t);
    }
  }

  /** `{ declarations }` (Parser.java:63, 133-143). */
  lemma {:induction false} BlockStep(ts: seq<Token>, entries: seq<EntrySyntax>, start: nat, end: nat, before: seq<Diagnostic>, after: seq<Diagnostic>)
    requires start < end < |ts| && ts[start].kind == LEFT_BRACE && ListGrammatical(entries) == true
    requires Consumed(ts, ListSpelling(entries) + [Kind(RIGHT_BRACE)], ListReports(entries), start + 1, end, before, after) == true
    ensures StmtOutcome(ts, Ok(Block(ListTree(entries))), BlockSyntax(entries), start, end, before, after)
  {
    ConsumedAfter(ts, Kind(LEFT_BRACE), ListSpelling(entries) + [Kind(RIGHT_BRACE)], ListReports(entries), start, end, before, after);
    assert [Kind(LEFT_BRACE)] + (ListSpelling(entries) + [Kind(RIGHT_BRACE)]) == StmtSpelling(BlockSyntax(entries));
    LastAtom(ts, StmtSpelling(BlockSyntax(entries)), RIGHT_BRACE, start, end);
  }

  /** `( initializer condition ; increment )` (Parser.java:69-90). */
  lemma {:induction false} HeaderStep(ts: seq<Token>, i: Option<StmtSyntax>, c: Option<ExprSyntax>, inc: Option<ExprSyntax>,
                   start: nat, condStart: nat, incStart: nat, end: nat,
                   before: seq<Diagnostic>, afterInit: seq<Diagnostic>, afterCond: seq<Diagnostic>, after: seq<Diagnostic>)
    requires HeaderGrammatical(i, c, inc) == true
    requires Consumed(ts, [Kind(LEFT_PAREN)] + InitClauseSpelling(i), InitClauseReports(i), start, condStart, before, afterInit) == true
    requires Consumed(ts, ClauseSpelling(c, SEMICOLON), OptReports(c), condStart, incStart, afterInit, afterCond) == true
    requires Consumed(ts, ClauseSpelling(inc, RIGHT_PAREN), OptReports(inc), incStart, end, afterCond, after) == true
    ensures HeaderDerived(ts, i, c, inc, start, end, before, after)
  {
    ConsumedConcat(ts, [Kind(LEFT_PAREN)] + InitClauseSpelling(i), InitClauseReports(i), ClauseSpelling(c, SEMICOLON), OptReports(c),
                   start, condStart, incStart, before, afterInit, afterCond);
    ConsumedConcat(ts, [Kind(LEFT_PAREN)] + InitClauseSpelling(i) + ClauseSpelling(c, SEMICOLON), InitClauseReports(i) + OptReports(c),
                   ClauseSpelling(inc, RIGHT_PAREN), OptReports(inc), start, incStart, end, before, afterCond, after);
  }

  /** `for header body` is read as its desugaring (Parser.java:68-107). */
  lemma {:induction false} ForStep(ts: seq<Token>, i: Option<StmtSyntax>, c: Option<ExprSyntax>, inc: Option<ExprSyntax>, b: StmtSyntax,
                start: nat, headerStart: nat, bodyStart: nat, end: nat,
                before: seq<Diagnostic>, middle: seq<Diagnostic>, after: seq<Diagnostic>)
    requires start < |ts| && ts[start].kind == FOR && headerStart == start + 1
    requires HeaderDerived(ts, i, c, inc, headerStart, bodyStart, before, middle) == true
    requires StmtOutcome(ts, Ok(StmtTree(b)), b, bodyStart, end, middle, after) == true && !b.VarSyntax?
    ensures StmtOutcome(ts, Ok(DesugarFor(OptStmtTree(i), OptTree(c), OptTree(inc), StmtTree(b))), ForSyntax(i, c, inc, b),
                        start, end, before, after)
  {
    ConsumedAfter(ts, Kind(FOR), HeaderSpelling(i, c, inc), HeaderReports(i, c, inc), start, bodyStart, before, middle);
    ConsumedConcat(ts, [Kind(FOR)] + HeaderSpelling(i, c, inc), HeaderReports(i, c, inc), StmtSpelling(b), StmtReports(b),
                   start, bodyStart, end, before, middle, after);
  }

  /** A declaration read after a run of declarations extends the run. */
  lemma {:induction false} ListStep(ts: seq<Token>, entries: seq<EntrySyntax>, entry: EntrySyntax, start: nat, mid: nat, end: nat,
                 before: seq<Diagnostic>, middle: seq<Diagnostic>, after: seq<Diagnostic>)
    requires ListDerived(ts, entries, start, mid, before, middle) == true
    requires EntryDerived(ts, entry, mid, end, middle, after) == true
    ensures ListDerived(ts, entries + [entry], start, end, before, after)
    ensures ListTree(entries + [entry]) == ListTree(entries) + [EntryTree(entry)]
  {
    var longer := entries + [entry];
    assert longer[..|entries|] == entries;
    ConsumedConcat(ts, ListSpelling(entries), ListReports(entries), EntrySpelling(entry), EntryReports(entry),
                   start, mid, end, before, middle, after);
    assert forall k | 0 <= k < |entries| :: longer[k] == entries[k];
  }

  /** The number of declarations that failed (null entries). */
  function Failures(ss: seq<Option<Stmt>>): (n: nat)
    ensures n <= |ss|
    ensures n == 0 <==> forall i | 0 <= i < |ss| :: ss[i].Some?
  {
    if ss == [] then 0
    else Failures(ss[..|ss| - 1]) + (if ss[|ss| - 1].None? then 1 else 0)
  }

  /** Every null entry of a derived list comes with at least one report of its own. */
  lemma {:induction false} FailuresReported(ds: seq<EntrySyntax>)
    requires ListGrammatical(ds) == true
    ensures Failures(ListTree(ds)) <= |ListReports(ds)|
  {
    if ds != [] {
      var front := ds[..|ds| - 1];
      assert ListGrammatical(front) by {
        forall k | 0 <= k < |front|
          ensures EntryGrammatical(front[k])
        {
          assert front[k] == ds[k];
        }
      }
      FailuresReported(front);
      var trees := ListTree(ds);
      assert trees[..|trees| - 1] == ListTree(front);
      assert EntryGrammatical(ds[|ds| - 1]);
    }
  }

  // ---------------------------------------------------------------------
  // Where a statement rule stops on a syntax error
  // ---------------------------------------------------------------------

  /** The kinds `statement` tries before an expression statement (Parser.java:59-63). */
  const StatementKeywords: set<TokenType> := {FOR, IF, PRINT, WHILE, LEFT_BRACE}

  /** The kinds `declaration` tries before an expression statement (Parser.java:37, 59-63). */
  const DeclarationKeywords: set<TokenType> := StatementKeywords + {VAR}

  /** The kinds the initializer clause of a `for` tries before an expression statement (Parser.java:72-77). */
  const InitializerKeywords: set<TokenType> := {SEMICOLON, VAR}

  /** What a parenthesised `while` or `if` condition had read when it was stopped. */
  datatype CondHalt =
    | Unopened
    | InCondition(partial: ExprHalt)
    | CondUnclosed(condition: ExprSyntax)

  /** What an expression clause of a `for` header had read when it was stopped: inside its expression, or before its closing token. */
  datatype ClauseHalt =
    | InClause(partial: ExprHalt)
    | ClauseUnended(clause: Option<ExprSyntax>)

  /** What the header of a `for` loop had read when it was stopped. */
  datatype HeaderHalt =
    | HeaderUnopened
    | InInitializer(initializer: StmtHalt)
    | InLoopCondition(init: Option<StmtSyntax>, condition: ClauseHalt)
    | InIncrement(init: Option<StmtSyntax>, cond: Option<ExprSyntax>, increment: ClauseHalt)

  /**
   * What a statement rule had read when a syntax error stopped it: the
   * finished parts on the way down to the place where a token was missing.
   * `NoName`, `VarUnended`, `ExpressionUnended`, `PrintUnended` and
   * `BlockUnclosed` are a missing name, `;` or `}`; every other case says in
   * which part the error happened.
   */
  datatype StmtHalt =
    | NoName
    | InVarInitializer(name: Token, partial: ExprHalt)
    | VarUnended(name: Token, initializer: Option<ExprSyntax>)
    | InExpressionStmt(partial: ExprHalt)
    | ExpressionUnended(expression: ExprSyntax)
    | InPrint(partial: ExprHalt)
    | PrintUnended(expression: ExprSyntax)
    | BlockUnclosed(entries: seq<EntrySyntax>)
    | InWhileCondition(paren: CondHalt)
    | InWhileBody(condition: ExprSyntax, body: StmtHalt)
    | InIfCondition(paren: CondHalt)
    | InThen(condition: ExprSyntax, thenBranch: StmtHalt)
    | InElse(condition: ExprSyntax, thenSyntax: StmtSyntax, elseBranch: StmtHalt)
    | InForHeader(header: HeaderHalt)
    | InForBody(init: Option<StmtSyntax>, cond: Option<ExprSyntax>, increment: ExprSyntax, body: StmtHalt)

  function CondHaltSpelling(c: CondHalt): seq<Atom> {
    match c
    case Unopened => []
    case InCondition(e) => [Kind(LEFT_PAREN)] + HaltSpelling(e)
    case CondUnclosed(e) => [Kind(LEFT_PAREN)] + Spelling(e)
  }

  function CondHaltReports(c: CondHalt): seq<Diagnostic> {
    match c
    case Unopened => []
    case InCondition(e) => HaltReports(e)
    case CondUnclosed(e) => Reports(e)
  }

  /** `open` and `close` are the messages for a missing `(` and a missing `)`. */
  function CondHaltMessage(c: CondHalt, open: Message, close: Message): Message {
    match c
    case Unopened => open
    case InCondition(e) => HaltMessage(e)
    case CondUnclosed(_) => close
  }

  predicate CondBlocked(c: CondHalt, k: TokenType) {
    match c
    case Unopened => k != LEFT_PAREN
    case InCondition(e) => Blocked(e, 0, k)
    case CondUnclosed(e) => Grammatical(e) && k != RIGHT_PAREN && InfixLevel(k) < 0
  }

  function ClauseHaltSpelling(c: ClauseHalt): seq<Atom> {
    match c
    case InClause(e) => HaltSpelling(e)
    case ClauseUnended(e) => OptSpelling(e)
  }

  function ClauseHaltReports(c: ClauseHalt): seq<Diagnostic> {
    match c
    case InClause(e) => HaltReports(e)
    case ClauseUnended(e) => OptReports(e)
  }

  function ClauseHaltMessage(c: ClauseHalt, message: Message): Message {
    match c
    case InClause(e) => HaltMessage(e)
    case ClauseUnended(_) => message
  }

  /**
   * A clause closed by `terminator` cannot go on with `k`. A clause is empty
   * exactly when it starts with `;`, so a missing expression is never one
   * before `;`, and an empty clause is stopped only where `;` does not
   * close it.
   */
  predicate ClauseBlocked(c: ClauseHalt, terminator: TokenType, k: TokenType) {
    match c
    case InClause(e) => Blocked(e, 0, k) && (e.NoOperand? ==> k != SEMICOLON)
    case ClauseUnended(None) => k == SEMICOLON && terminator != SEMICOLON
    case ClauseUnended(Some(e)) => Grammatical(e) && k != terminator && InfixLevel(k) < 0
  }

  /** The statements a `for` initializer clause reads: a `var` declaration or an expression statement. */
  predicate InitializerHalt(s: StmtHalt) {
    s.NoName? || s.InVarInitializer? || s.VarUnended? || s.InExpressionStmt? || s.ExpressionUnended?
  }

  function HeaderHaltSpelling(h: HeaderHalt): seq<Atom>
    decreases h, 0
  {
    match h
    case HeaderUnopened => []
    case InInitializer(s) => [Kind(LEFT_PAREN)] + StmtHaltSpelling(s)
    case InLoopCondition(i, c) => [Kind(LEFT_PAREN)] + InitClauseSpelling(i) + ClauseHaltSpelling(c)
    case InIncrement(i, c, inc) => [Kind(LEFT_PAREN)] + InitClauseSpelling(i) + ClauseSpelling(c, SEMICOLON) + ClauseHaltSpelling(inc)
  }

  function HeaderHaltReports(h: HeaderHalt): seq<Diagnostic>
    decreases h, 0
  {
    match h
    case HeaderUnopened => []
    case InInitializer(s) => StmtHaltReports(s)
    case InLoopCondition(i, c) => InitClauseReports(i) + ClauseHaltReports(c)
    case InIncrement(i, c, inc) => InitClauseReports(i) + OptReports(c) + ClauseHaltReports(inc)
  }

  function HeaderHaltMessage(h: HeaderHalt): Message
    decreases h, 0
  {
    match h
    case HeaderUnopened => ExpectParenAfterFor
    case InInitializer(s) => StmtHaltMessage(s)
    case InLoopCondition(_, c) => ClauseHaltMessage(c, ExpectSemicolonAfterLoopCondition)
    case InIncrement(_, _, inc) => ClauseHaltMessage(inc, ExpectParenAfterForClauses)
  }

  predicate HeaderBlocked(h: HeaderHalt, k: TokenType)
    decreases h, 0
  {
    match h
    case HeaderUnopened => k != LEFT_PAREN
    case InInitializer(s) => InitializerHalt(s) && StmtBlocked(s, k) && Unaccepted(s, InitializerKeywords, k)
    case InLoopCondition(i, c) => InitClauseGrammatical(i) && ClauseBlocked(c, SEMICOLON, k)
    case InIncrement(i, c, inc) => InitClauseGrammatical(i) && OptGrammatical(c) && ClauseBlocked(inc, RIGHT_PAREN, k)
  }

  /** The tokens read before the one that stopped the rule. */
  function StmtHaltSpelling(h: StmtHalt): seq<Atom>
    decreases h, 0
  {
    match h
    case NoName => [Kind(VAR)]
    case InVarInitializer(name, v) => [Kind(VAR), Exactly(name), Kind(EQUAL)] + HaltSpelling(v)
    case VarUnended(name, init) => [Kind(VAR), Exactly(name)] + InitializerSpelling(init)
    case InExpressionStmt(e) => HaltSpelling(e)
    case ExpressionUnended(e) => Spelling(e)
    case InPrint(e) => [Kind(PRINT)] + HaltSpelling(e)
    case PrintUnended(e) => [Kind(PRINT)] + Spelling(e)
    case BlockUnclosed(entries) => [Kind(LEFT_BRACE)] + ListSpelling(entries)
    case InWhileCondition(c) => [Kind(WHILE)] + CondHaltSpelling(c)
    case InWhileBody(c, b) => [Kind(WHILE)] + Parenthesized(Spelling(c)) + StmtHaltSpelling(b)
    case InIfCondition(c) => [Kind(IF)] + CondHaltSpelling(c)
    case InThen(c, t) => [Kind(IF)] + Parenthesized(Spelling(c)) + StmtHaltSpelling(t)
    case InElse(c, t, e) => [Kind(IF)] + Parenthesized(Spelling(c)) + StmtSpelling(t) + [Kind(ELSE)] + StmtHaltSpelling(e)
    case InForHeader(hh) => [Kind(FOR)] + HeaderHaltSpelling(hh)
    case InForBody(i, c, inc, b) => [Kind(FOR)] + HeaderSpelling(i, c, Some(inc)) + StmtHaltSpelling(b)
  }

  /** The reports made before the one that stopped the rule. */
  function StmtHaltReports(h: StmtHalt): seq<Diagnostic>
    decreases h, 0
  {
    match h
    case NoName => []
    case InVarInitializer(_, v) => HaltReports(v)
    case VarUnended(_, init) => OptReports(init)
    case InExpressionStmt(e) => HaltReports(e)
    case ExpressionUnended(e) => Reports(e)
    case InPrint(e) => HaltReports(e)
    case PrintUnended(e) => Reports(e)
    case BlockUnclosed(entries) => ListReports(entries)
    case InWhileCondition(c) => CondHaltReports(c)
    case InWhileBody(c, b) => Reports(c) + StmtHaltReports(b)
    case InIfCondition(c) => CondHaltReports(c)
    case InThen(c, t) => Reports(c) + StmtHaltReports(t)
    case InElse(c, t, e) => Reports(c) + StmtReports(t) + StmtHaltReports(e)
    case InForHeader(hh) => HeaderHaltReports(hh)
    case InForBody(i, c, inc, b) => HeaderReports(i, c, Some(inc)) + StmtHaltReports(b)
  }

  /** The message of the report that stopped the rule. */
  function StmtHaltMessage(h: StmtHalt): Message
    decreases h, 0
  {
    match h
    case NoName => ExpectVariableName
    case InVarInitializer(_, v) => HaltMessage(v)
    case VarUnended(_, _) => ExpectSemicolonAfterVariable
    case InExpressionStmt(e) => HaltMessage(e)
    case ExpressionUnended(_) => ExpectSemicolonAfterValue
    case InPrint(e) => HaltMessage(e)
    case PrintUnended(_) => ExpectSemicolonAfterValue
    case BlockUnclosed(_) => ExpectBraceAfterBlock
    case InWhileCondition(c) => CondHaltMessage(c, ExpectParenAfterWhile, ExpectParenAfterWhileCondition)
    case InWhileBody(_, b) => StmtHaltMessage(b)
    case InIfCondition(c) => CondHaltMessage(c, ExpectParenAfterIf, ExpectParenAfterIfCondition)
    case InThen(_, t) => StmtHaltMessage(t)
    case InElse(_, _, e) => StmtHaltMessage(e)
    case InForHeader(hh) => HeaderHaltMessage(hh)
    case InForBody(_, _, _, b) => StmtHaltMessage(b)
  }

  /**
   * `h` is the grammatical beginning of a statement, and the grammar has
   * no way to go on from it with a token of kind `k`: not the missing name,
   * `;`, `(`, `)` or `}`, not an operator that would extend the finished
   * expression before it, and not a token the stopped part could go on with.
   * A block is only left unclosed at the end of the input, since its loop
   * runs up to `}` or EOF. A loop body or a branch never stops inside a
   * declaration, since `statement` does not read one.
   */
  predicate StmtBlocked(h: StmtHalt, k: TokenType)
    decreases h, 0
  {
    match h
    case NoName => k != IDENTIFIER
    case InVarInitializer(name, v) => name.kind == IDENTIFIER && Blocked(v, 0, k)
    case VarUnended(name, init) =>
      && name.kind == IDENTIFIER && OptGrammatical(init) && k != SEMICOLON
      && (if init.Some? then InfixLevel(k) < 0 else k != EQUAL)
    case InExpressionStmt(e) => Blocked(e, 0, k)
    case ExpressionUnended(e) => Grammatical(e) && k != SEMICOLON && InfixLevel(k) < 0
    case InPrint(e) => Blocked(e, 0, k)
    case PrintUnended(e) => Grammatical(e) && k != SEMICOLON && InfixLevel(k) < 0
    case BlockUnclosed(entries) => ListGrammatical(entries) && k == EOF
    case InWhileCondition(c) => CondBlocked(c, k)
    case InWhileBody(c, b) => Grammatical(c) && !DeclarationHalt(b) && StmtBlocked(b, k) && Unaccepted(b, StatementKeywords, k)
    case InIfCondition(c) => CondBlocked(c, k)
    case InThen(c, t) => Grammatical(c) && !DeclarationHalt(t) && StmtBlocked(t, k) && Unaccepted(t, StatementKeywords, k)
    case InElse(c, t, e) =>
      && Grammatical(c) && !t.VarSyntax? && StmtGrammatical(t)
      && !DeclarationHalt(e) && StmtBlocked(e, k) && Unaccepted(e, StatementKeywords, k)
    case InForHeader(hh) => HeaderBlocked(hh, k)
    case InForBody(i, c, inc, b) =>
      HeaderGrammatical(i, c, Some(inc)) && !DeclarationHalt(b) && StmtBlocked(b, k) && Unaccepted(b, StatementKeywords, k)
  }

  /** A stop inside a `var` declaration, which only `declaration` reads. */
  predicate DeclarationHalt(h: StmtHalt) {
    h.NoName? || h.InVarInitializer? || h.VarUnended?
  }

  /**
   * A statement that stopped before reading anything did not stop at a
   * token that the rule calling it tries first (`keywords`): it stopped at a
   * token no statement of that place starts with.
   */
  predicate Unaccepted(h: StmtHalt, keywords: set<TokenType>, k: TokenType) {
    h == InExpressionStmt(NoOperand) ==> k !in keywords
  }

  /** A statement rule that ran from `start` was stopped at `ts[end]`, as `h` says. */
  ghost predicate StmtHalted(ts: seq<Token>, h: StmtHalt, start: nat, end: nat, before: seq<Diagnostic>, after: seq<Diagnostic>) {
    && end < |ts| && StmtBlocked(h, ts[end].kind)
    && Consumed(ts, StmtHaltSpelling(h), StmtHaltReports(h) + [Diagnostic(ts[end], StmtHaltMessage(h))], start, end, before, after)
  }

  ghost predicate CondHalted(ts: seq<Token>, c: CondHalt, open: Message, close: Message, start: nat, end: nat,
                             before: seq<Diagnostic>, after: seq<Diagnostic>) {
    && end < |ts| && CondBlocked(c, ts[end].kind)
    && Consumed(ts, CondHaltSpelling(c), CondHaltReports(c) + [Diagnostic(ts[end], CondHaltMessage(c, open, close))], start, end, before, after)
  }

  ghost predicate ClauseHalted(ts: seq<Token>, c: ClauseHalt, terminator: TokenType, message: Message, start: nat, end: nat,
                               before: seq<Diagnostic>, after: seq<Diagnostic>) {
    && end < |ts| && ClauseBlocked(c, terminator, ts[end].kind)
    && Consumed(ts, ClauseHaltSpelling(c), ClauseHaltReports(c) + [Diagnostic(ts[end], ClauseHaltMessage(c, message))], start, end, before, after)
  }

  ghost predicate HeaderHalted(ts: seq<Token>, h: HeaderHalt, start: nat, end: nat, before: seq<Diagnostic>, after: seq<Diagnostic>) {
    && end < |ts| && HeaderBlocked(h, ts[end].kind)
    && Consumed(ts, HeaderHaltSpelling(h), HeaderHaltReports(h) + [Diagnostic(ts[end], HeaderHaltMessage(h))], start, end, before, after)
  }

  /** A token read in front of a stopped run. */
  lemma {:induction false} HaltAfterToken(ts: seq<Token>, x: Atom, ys: seq<Atom>, yr: seq<Diagnostic>, d: Diagnostic,
                       a: nat, c: nat, e1: seq<Diagnostic>, e2: seq<Diagnostic>)
    requires a < |ts| && Matches(x, ts, a) && Consumed(ts, ys, yr + [d], a + 1, c, e1, e2) == true
    ensures Consumed(ts, [x] + ys, yr + [d], a, c, e1, e2)
  {
    ConsumedAfter(ts, x, ys, yr + [d], a, c, e1, e2);
  }

  /** `var` followed by something other than a name (Parser.java:47). */
  lemma {:induction false} NoNameStep(ts: seq<Token>, start: nat, before: seq<Diagnostic>)
    requires start + 1 < |ts| && ts[start].kind == VAR && ts[start + 1].kind != IDENTIFIER
    ensures StmtHalted(ts, NoName, start, start + 1, before, before + [Diagnostic(ts[start + 1], ExpectVariableName)])
  {
    assert SpelledAt([Kind(VAR)], ts, start, 0);
    assert [] + [Diagnostic(ts[start + 1], ExpectVariableName)] == [Diagnostic(ts[start + 1], ExpectVariableName)];
  }

  /** `var name =` read, then the initializer stopped. */
  lemma {:induction false} VarInitializerHaltStep(ts: seq<Token>, name: Token, v: ExprHalt, start: nat, end: nat,
                               before: seq<Diagnostic>, after: seq<Diagnostic>)
    requires start + 2 < |ts| && ts[start].kind == VAR && ts[start + 1] == name && name.kind == IDENTIFIER && ts[start + 2].kind == EQUAL
    requires Halted(ts, v, 0, start + 3, end, before, after) == true
    ensures StmtHalted(ts, InVarInitializer(name, v), start, end, before, after)
  {
    var d := Diagnostic(ts[end], HaltMessage(v));
    HaltAfterToken(ts, Kind(EQUAL), HaltSpelling(v), HaltReports(v), d, start + 2, end, before, after);
    HaltAfterToken(ts, Exactly(name), [Kind(EQUAL)] + HaltSpelling(v), HaltReports(v), d, start + 1, end, before, after);
    HaltAfterToken(ts, Kind(VAR), [Exactly(name)] + ([Kind(EQUAL)] + HaltSpelling(v)), HaltReports(v), d, start, end, before, after);
    assert [Kind(VAR)] + ([Exactly(name)] + ([Kind(EQUAL)] + HaltSpelling(v))) == [Kind(VAR), Exactly(name), Kind(EQUAL)] + HaltSpelling(v);
  }

  /** `var name` and its optional initializer read, then no `;` (Parser.java:54). */
  lemma {:induction false} VarUnendedStep(ts: seq<Token>, name: Token, init: Option<ExprSyntax>, start: nat, semi: nat,
                       before: seq<Diagnostic>, after: seq<Diagnostic>)
    requires start + 2 <= semi < |ts| && ts[start].kind == VAR && ts[start + 1] == name && name.kind == IDENTIFIER
    requires OptGrammatical(init) == true && Consumed(ts, InitializerSpelling(init), OptReports(init), start + 2, semi, before, after) == true
    requires ts[semi].kind != SEMICOLON && (if init.Some? then InfixLevel(ts[semi].kind) < 0 else ts[semi].kind != EQUAL)
    ensures StmtHalted(ts, VarUnended(name, init), start, semi, before, after + [Diagnostic(ts[semi], ExpectSemicolonAfterVariable)])
  {
    ConsumedAfter(ts, Exactly(name), InitializerSpelling(init), OptReports(init), start + 1, semi, before, after);
    ConsumedAfter(ts, Kind(VAR), [Exactly(name)] + InitializerSpelling(init), OptReports(init), start, semi, before, after);
    assert [Kind(VAR)] + ([Exactly(name)] + InitializerSpelling(init)) == [Kind(VAR), Exactly(name)] + InitializerSpelling(init);
  }

  lemma {:induction false} ExpressionStmtHaltStep(ts: seq<Token>, e: ExprHalt, start: nat, end: nat, before: seq<Diagnostic>, after: seq<Diagnostic>)
    requires Halted(ts, e, 0, start, end, before, after) == true
    ensures StmtHalted(ts, InExpressionStmt(e), start, end, before, after)
  {
  }

  /** An expression read, then no `;` (Parser.java:147, 153). */
  lemma {:induction false} ExpressionUnendedStep(ts: seq<Token>, e: ExprSyntax, start: nat, semi: nat, before: seq<Diagnostic>, after: seq<Diagnostic>)
    requires semi < |ts| && ts[semi].kind != SEMICOLON && InfixLevel(ts[semi].kind) < 0
    requires Derived(ts, e, 0, start, semi, before, after) == true
    ensures StmtHalted(ts, ExpressionUnended(e), start, semi, before, after + [Diagnostic(ts[semi], ExpectSemicolonAfterValue)])
  {
  }

  lemma {:induction false} PrintHaltStep(ts: seq<Token>, e: ExprHalt, start: nat, end: nat, before: seq<Diagnostic>, after: seq<Diagnostic>)
    requires start < |ts| && ts[start].kind == PRINT
    requires Halted(ts, e, 0, start + 1, end, before, after) == true
    ensures StmtHalted(ts, InPrint(e), start, end, before, after)
  {
    HaltAfterToken(ts, Kind(PRINT), HaltSpelling(e), HaltReports(e), Diagnostic(ts[end], HaltMessage(e)), start, end, before, after);
  }

  lemma {:induction false} PrintUnendedStep(ts: seq<Token>, e: ExprSyntax, start: nat, semi: nat, before: seq<Diagnostic>, after: seq<Diagnostic>)
    requires start < semi < |ts| && ts[start].kind == PRINT && ts[semi].kind != SEMICOLON && InfixLevel(ts[semi].kind) < 0
    requires Derived(ts, e, 0, start + 1, semi, before, after) == true
    ensures StmtHalted(ts, PrintUnended(e), start, semi, before, after + [Diagnostic(ts[semi], ExpectSemicolonAfterValue)])
  {
    ConsumedAfter(ts, Kind(PRINT), Spelling(e), Reports(e), start, semi, before, after);
  }

  /** `{` and declarations read up to the end of the input (Parser.java:140). */
  lemma {:induction false} BlockUnclosedStep(ts: seq<Token>, entries: seq<EntrySyntax>, start: nat, end: nat,
                          before: seq<Diagnostic>, after: seq<Diagnostic>)
    requires start < |ts| && ts[start].kind == LEFT_BRACE && end < |ts| && ts[end].kind == EOF
    requires ListDerived(ts, entries, start + 1, end, before, after) == true
    ensures StmtHalted(ts, BlockUnclosed(entries), start, end, before, after + [Diagnostic(ts[end], ExpectBraceAfterBlock)])
  {
    ConsumedAfter(ts, Kind(LEFT_BRACE), ListSpelling(entries), ListReports(entries), start, end, before, after);
  }

  /** No `(` where a condition must open. */
  lemma {:induction false} UnopenedStep(ts: seq<Token>, open: Message, close: Message, start: nat, before: seq<Diagnostic>)
    requires start < |ts| && ts[start].kind != LEFT_PAREN
    ensures CondHalted(ts, Unopened, open, close, start, start, before, before + [Diagnostic(ts[start], open)])
  {
    assert CondHaltReports(Unopened) + [Diagnostic(ts[start], open)] == [Diagnostic(ts[start], open)];
  }

  lemma {:induction false} InConditionStep(ts: seq<Token>, e: ExprHalt, open: Message, close: Message, start: nat, end: nat,
                        before: seq<Diagnostic>, after: seq<Diagnostic>)
    requires start < |ts| && ts[start].kind == LEFT_PAREN
    requires Halted(ts, e, 0, start + 1, end, before, after) == true
    ensures CondHalted(ts, InCondition(e), open, close, start, end, before, after)
  {
    HaltAfterToken(ts, Kind(LEFT_PAREN), HaltSpelling(e), HaltReports(e), Diagnostic(ts[end], HaltMessage(e)), start, end, before, after);
  }

  lemma {:induction false} CondUnclosedStep(ts: seq<Token>, e: ExprSyntax, open: Message, close: Message, start: nat, closeAt: nat,
                         before: seq<Diagnostic>, after: seq<Diagnostic>)
    requires start < closeAt < |ts| && ts[start].kind == LEFT_PAREN
    requires ts[closeAt].kind != RIGHT_PAREN && InfixLevel(ts[closeAt].kind) < 0
    requires Derived(ts, e, 0, start + 1, closeAt, before, after) == true
    ensures CondHalted(ts, CondUnclosed(e), open, close, start, closeAt, before, after + [Diagnostic(ts[closeAt], close)])
  {
    ConsumedAfter(ts, Kind(LEFT_PAREN), Spelling(e), Reports(e), start, closeAt, before, after);
  }

  lemma {:induction false} WhileConditionHaltStep(ts: seq<Token>, c: CondHalt, start: nat, end: nat, before: seq<Diagnostic>, after: seq<Diagnostic>)
    requires start < |ts| && ts[start].kind == WHILE
    requires CondHalted(ts, c, ExpectParenAfterWhile, ExpectParenAfterWhileCondition, start + 1, end, before, after) == true
    ensures StmtHalted(ts, InWhileCondition(c), start, end, before, after)
  {
    HaltAfterToken(ts, Kind(WHILE), CondHaltSpelling(c), CondHaltReports(c),
                   Diagnostic(ts[end], CondHaltMessage(c, ExpectParenAfterWhile, ExpectParenAfterWhileCondition)), start, end, before, after);
  }

  lemma {:induction false} IfConditionHaltStep(ts: seq<Token>, c: CondHalt, start: nat, end: nat, before: seq<Diagnostic>, after: seq<Diagnostic>)
    requires start < |ts| && ts[start].kind == IF
    requires CondHalted(ts, c, ExpectParenAfterIf, ExpectParenAfterIfCondition, start + 1, end, before, after) == true
    ensures StmtHalted(ts, InIfCondition(c), start, end, before, after)
  {
    HaltAfterToken(ts, Kind(IF), CondHaltSpelling(c), CondHaltReports(c),
                   Diagnostic(ts[end], CondHaltMessage(c, ExpectParenAfterIf, ExpectParenAfterIfCondition)), start, end, before, after);
  }

  /** A keyword and a parenthesised condition read, then the statement after them stopped. */
  lemma {:induction false} GuardedHaltStep(ts: seq<Token>, keyword: TokenType, c: ExprSyntax, b: StmtHalt, start: nat, bodyStart: nat, end: nat,
                        before: seq<Diagnostic>, middle: seq<Diagnostic>, after: seq<Diagnostic>)
    requires start < |ts| && ts[start].kind == keyword
    requires Consumed(ts, Parenthesized(Spelling(c)), Reports(c), start + 1, bodyStart, before, middle) == true
    requires StmtHalted(ts, b, bodyStart, end, middle, after) == true
    ensures Consumed(ts, [Kind(keyword)] + Parenthesized(Spelling(c)) + StmtHaltSpelling(b),
                     Reports(c) + StmtHaltReports(b) + [Diagnostic(ts[end], StmtHaltMessage(b))], start, end, before, after)
  {
    ConsumedAfter(ts, Kind(keyword), Parenthesized(Spelling(c)), Reports(c), start, bodyStart, before, middle);
    HaltAfter(ts, [Kind(keyword)] + Parenthesized(Spelling(c)), Reports(c), StmtHaltSpelling(b), StmtHaltReports(b),
              Diagnostic(ts[end], StmtHaltMessage(b)), start, bodyStart, end, before, middle, after);
  }

  lemma {:induction false} WhileBodyHaltStep(ts: seq<Token>, c: ExprSyntax, b: StmtHalt, start: nat, bodyStart: nat, end: nat,
                          before: seq<Diagnostic>, middle: seq<Diagnostic>, after: seq<Diagnostic>)
    requires start < |ts| && ts[start].kind == WHILE && Grammatical(c) == true
    requires Consumed(ts, Parenthesized(Spelling(c)), Reports(c), start + 1, bodyStart, before, middle) == true
    requires StmtHalted(ts, b, bodyStart, end, middle, after) == true && Unaccepted(b, StatementKeywords, ts[end].kind)
    requires !DeclarationHalt(b)
    ensures StmtHalted(ts, InWhileBody(c, b), start, end, before, after)
  {
    GuardedHaltStep(ts, WHILE, c, b, start, bodyStart, end, before, middle, after);
  }

  lemma {:induction false} ThenHaltStep(ts: seq<Token>, c: ExprSyntax, t: StmtHalt, start: nat, thenStart: nat, end: nat,
                     before: seq<Diagnostic>, middle: seq<Diagnostic>, after: seq<Diagnostic>)
    requires start < |ts| && ts[start].kind == IF && Grammatical(c) == true
    requires Consumed(ts, Parenthesized(Spelling(c)), Reports(c), start + 1, thenStart, before, middle) == true
    requires StmtHalted(ts, t, thenStart, end, middle, after) == true && Unaccepted(t, StatementKeywords, ts[end].kind)
    requires !DeclarationHalt(t)
    ensures StmtHalted(ts, InThen(c, t), start, end, before, after)
  {
    GuardedHaltStep(ts, IF, c, t, start, thenStart, end, before, middle, after);
  }

  /** `if`, its condition, its then branch and `else` read, then the else branch stopped. */
  lemma {:induction false} ElseHaltStep(ts: seq<Token>, c: ExprSyntax, t: StmtSyntax, e: StmtHalt,
                     start: nat, thenStart: nat, thenEnd: nat, end: nat,
                     before: seq<Diagnostic>, afterCondition: seq<Diagnostic>, afterThen: seq<Diagnostic>, after: seq<Diagnostic>)
    requires start < |ts| && ts[start].kind == IF && Grammatical(c) == true
    requires Consumed(ts, Parenthesized(Spelling(c)), Reports(c), start + 1, thenStart, before, afterCondition) == true
    requires StmtDerived(ts, t, thenStart, thenEnd, afterCondition, afterThen) == true && !t.VarSyntax?
    requires thenEnd < |ts| && ts[thenEnd].kind == ELSE
    requires StmtHalted(ts, e, thenEnd + 1, end, afterThen, after) == true && Unaccepted(e, StatementKeywords, ts[end].kind)
    requires !DeclarationHalt(e)
    ensures StmtHalted(ts, InElse(c, t, e), start, end, before, after) == true
  {
    ConsumedAfter(ts, Kind(IF), Parenthesized(Spelling(c)), Reports(c), start, thenStart, before, afterCondition);
    var head := [Kind(IF)] + Parenthesized(Spelling(c));
    ConsumedConcat(ts, head, Reports(c), StmtSpelling(t), StmtReports(t), start, thenStart, thenEnd, before, afterCondition, afterThen);
    ConsumedBefore(ts, head + StmtSpelling(t), Reports(c) + StmtReports(t), Kind(ELSE), start, thenEnd, before, afterThen);
    HaltAfter(ts, head + StmtSpelling(t) + [Kind(ELSE)], Reports(c) + StmtReports(t), StmtHaltSpelling(e), StmtHaltReports(e),
              Diagnostic(ts[end], StmtHaltMessage(e)), start, thenEnd + 1, end, before, afterThen, after);
  }

  lemma {:induction false} ForHeaderHaltStep(ts: seq<Token>, h: HeaderHalt, start: nat, end: nat, before: seq<Diagnostic>, after: seq<Diagnostic>)
    requires start < |ts| && ts[start].kind == FOR
    requires HeaderHalted(ts, h, start + 1, end, before, after) == true
    ensures StmtHalted(ts, InForHeader(h), start, end, before, after)
  {
    HaltAfterToken(ts, Kind(FOR), HeaderHaltSpelling(h), HeaderHaltReports(h), Diagnostic(ts[end], HeaderHaltMessage(h)), start, end, before, after);
  }

  lemma {:induction false} ForBodyHaltStep(ts: seq<Token>, i: Option<StmtSyntax>, c: Option<ExprSyntax>, inc: ExprSyntax, b: StmtHalt,
                        start: nat, bodyStart: nat, end: nat, before: seq<Diagnostic>, middle: seq<Diagnostic>, after: seq<Diagnostic>)
    requires start < |ts| && ts[start].kind == FOR
    requires HeaderDerived(ts, i, c, Some(inc), start + 1, bodyStart, before, middle) == true
    requires StmtHalted(ts, b, bodyStart, end, middle, after) == true && Unaccepted(b, StatementKeywords, ts[end].kind)
    requires !DeclarationHalt(b)
    ensures StmtHalted(ts, InForBody(i, c, inc, b), start, end, before, after)
  {
    ConsumedAfter(ts, Kind(FOR), HeaderSpelling(i, c, Some(inc)), HeaderReports(i, c, Some(inc)), start, bodyStart, before, middle);
    HaltAfter(ts, [Kind(FOR)] + HeaderSpelling(i, c, Some(inc)), HeaderReports(i, c, Some(inc)), StmtHaltSpelling(b), StmtHaltReports(b),
              Diagnostic(ts[end], StmtHaltMessage(b)), start, bodyStart, end, before, middle, after);
  }

  /** No `(` after `for` (Parser.java:69). */
  lemma {:induction false} HeaderUnopenedStep(ts: seq<Token>, start: nat, before: seq<Diagnostic>)
    requires start < |ts| && ts[start].kind != LEFT_PAREN
    ensures HeaderHalted(ts, HeaderUnopened, start, start, before, before + [Diagnostic(ts[start], ExpectParenAfterFor)])
  {
  }

  lemma {:induction false} InitializerHaltStep(ts: seq<Token>, s: StmtHalt, start: nat, end: nat, before: seq<Diagnostic>, after: seq<Diagnostic>)
    requires start < |ts| && ts[start].kind == LEFT_PAREN
    requires InitializerHalt(s) && StmtHalted(ts, s, start + 1, end, before, after) == true && Unaccepted(s, InitializerKeywords, ts[end].kind)
    ensures HeaderHalted(ts, InInitializer(s), start, end, before, after)
  {
    HaltAfterToken(ts, Kind(LEFT_PAREN), StmtHaltSpelling(s), StmtHaltReports(s), Diagnostic(ts[end], StmtHaltMessage(s)), start, end, before, after);
  }

  lemma {:induction false} LoopConditionHaltStep(ts: seq<Token>, i: Option<StmtSyntax>, c: ClauseHalt, start: nat, condStart: nat, end: nat,
                              before: seq<Diagnostic>, afterInit: seq<Diagnostic>, after: seq<Diagnostic>)
    requires InitClauseGrammatical(i) == true
    requires Consumed(ts, [Kind(LEFT_PAREN)] + InitClauseSpelling(i), InitClauseReports(i), start, condStart, before, afterInit) == true
    requires ClauseHalted(ts, c, SEMICOLON, ExpectSemicolonAfterLoopCondition, condStart, end, afterInit, after) == true
    ensures HeaderHalted(ts, InLoopCondition(i, c), start, end, before, after)
  {
    HaltAfter(ts, [Kind(LEFT_PAREN)] + InitClauseSpelling(i), InitClauseReports(i), ClauseHaltSpelling(c), ClauseHaltReports(c),
              Diagnostic(ts[end], ClauseHaltMessage(c, ExpectSemicolonAfterLoopCondition)), start, condStart, end, before, afterInit, after);
  }

  lemma {:induction false} IncrementHaltStep(ts: seq<Token>, i: Option<StmtSyntax>, c: Option<ExprSyntax>, inc: ClauseHalt,
                          start: nat, condStart: nat, incStart: nat, end: nat,
                          before: seq<Diagnostic>, afterInit: seq<Diagnostic>, afterCond: seq<Diagnostic>, after: seq<Diagnostic>)
    requires InitClauseGrammatical(i) == true && OptGrammatical(c) == true
    requires Consumed(ts, [Kind(LEFT_PAREN)] + InitClauseSpelling(i), InitClauseReports(i), start, condStart, before, afterInit) == true
    requires Consumed(ts, ClauseSpelling(c, SEMICOLON), OptReports(c), condStart, incStart, afterInit, afterCond) == true
    requires ClauseHalted(ts, inc, RIGHT_PAREN, ExpectParenAfterForClauses, incStart, end, afterCond, after) == true
    ensures HeaderHalted(ts, InIncrement(i, c, inc), start, end, before, after)
  {
    ConsumedConcat(ts, [Kind(LEFT_PAREN)] + InitClauseSpelling(i), InitClauseReports(i), ClauseSpelling(c, SEMICOLON), OptReports(c),
                   start, condStart, incStart, before, afterInit, afterCond);
    HaltAfter(ts, [Kind(LEFT_PAREN)] + InitClauseSpelling(i) + ClauseSpelling(c, SEMICOLON), InitClauseReports(i) + OptReports(c),
              ClauseHaltSpelling(inc), ClauseHaltReports(inc), Diagnostic(ts[end], ClauseHaltMessage(inc, ExpectParenAfterForClauses)),
              start, incStart, end, before, afterCond, after);
  }

  lemma {:induction false} InClauseStep(ts: seq<Token>, e: ExprHalt, terminator: TokenType, message: Message, start: nat, end: nat,
                     before: seq<Diagnostic>, after: seq<Diagnostic>)
    requires Halted(ts, e, 0, start, end, before, after) == true && (e.NoOperand? ==> ts[end].kind != SEMICOLON)
    ensures ClauseHalted(ts, InClause(e), terminator, message, start, end, before, after)
  {
  }

  /** A clause read, then not its closing token (Parser.java:84, 90). */
  lemma {:induction false} ClauseUnendedStep(ts: seq<Token>, c: Option<ExprSyntax>, terminator: TokenType, message: Message, start: nat, end: nat,
                          before: seq<Diagnostic>, after: seq<Diagnostic>)
    requires end < |ts| && ts[end].kind != terminator
    requires c.None? ==> ts[end].kind == SEMICOLON
    requires c.Some? ==> InfixLevel(ts[end].kind) < 0
    requires OptGrammatical(c) == true && Consumed(ts, OptSpelling(c), OptReports(c), start, end, before, after) == true
    ensures ClauseHalted(ts, ClauseUnended(c), terminator, message, start, end, before, after + [Diagnostic(ts[end], message)])
  {
    assert ClauseHaltReports(ClauseUnended(c)) == OptReports(c);
    assert ClauseHaltSpelling(ClauseUnended(c)) == OptSpelling(c);
    assert ClauseBlocked(ClauseUnended(c), terminator, ts[end].kind);
  }

  /** The tokens `ts[a..b]` are spelled by themselves. */
  lemma {:induction false} VerbatimSpelled(ts: seq<Token>, a: nat, b: nat)
    requires a <= b <= |ts|
    ensures SpelledBy(Verbatim(ts[a..b]), ts, a, b)
  {
    var atoms := Verbatim(ts[a..b]);
    forall k: nat | k < |atoms|
      ensures SpelledAt(atoms, ts, a, k)
    {
      assert ts[a..b][k] == ts[a + k];
    }
  }

  /**
   * A declaration stopped at `ts[at]`, after which `synchronize` skipped up
   * to `ts[end]` without passing a statement boundary (Parser.java:35-44,
   * 341-361).
   */
  lemma {:induction false} SkippedStep(ts: seq<Token>, h: StmtHalt, start: nat, at: nat, end: nat, before: seq<Diagnostic>, after: seq<Diagnostic>)
    requires StmtHalted(ts, h, start, at, before, after) == true && Unaccepted(h, DeclarationKeywords, ts[at].kind)
    requires start < end && at <= end <= |ts| && (at == end <==> ts[at].kind == EOF)
    requires forall p | at < p < end :: !SyncPoint(ts, p)
    ensures EntryDerived(ts, Skipped(h, ts[at], ts[at..end]), start, end, before, after)
  {
    var rest := ts[at..end];
    VerbatimSpelled(ts, at, end);
    assert StmtHaltReports(h) + [Diagnostic(ts[at], StmtHaltMessage(h))] + [] == StmtHaltReports(h) + [Diagnostic(ts[at], StmtHaltMessage(h))];
    ConsumedConcat(ts, StmtHaltSpelling(h), StmtHaltReports(h) + [Diagnostic(ts[at], StmtHaltMessage(h))], Verbatim(rest), [],
                   start, at, end, before, after, after);
    forall i | 0 <= i < |rest| - 1
      ensures rest[i].kind != SEMICOLON
    {
      assert !SyncPoint(ts, at + i + 1);
    }
    forall i | 0 < i < |rest|
      ensures rest[i].kind != EOF && rest[i].kind !in StatementStarts
    {
      assert !SyncPoint(ts, at + i);
    }
  }

  // ---------------------------------------------------------------------
  // Node ids across statements
  // ---------------------------------------------------------------------

  /**
   * `NamesPlaced` for statements: every name node carries the index of
   * its token, and the parts of a statement hold disjoint sets of ids.
   */
  ghost predicate StmtNamesPlaced(ts: seq<Token>, s: Stmt)
    decreases s, 1
  {
    match s
    case Block(statements) => ListNamesPlaced(ts, statements)
    case Class(_) => true
    case Function(_, _, body) => ListNamesPlaced(ts, body)
    case Expression(e) => NamesPlaced(ts, e)
    case Print(e) => NamesPlaced(ts, e)
    case Return(_, value) => value.Some? ==> NamesPlaced(ts, value.value)
    case Var(_, initializer) => initializer.Some? ==> NamesPlaced(ts, initializer.value)
    case If(c, t, el) =>
      && NamesPlaced(ts, c) && StmtNamesPlaced(ts, t) && ExprIds(c) !! StmtIds(t)
      && (el.Some? ==> StmtNamesPlaced(ts, el.value) && (ExprIds(c) + StmtIds(t)) !! StmtIds(el.value))
    case While(c, b) => NamesPlaced(ts, c) && StmtNamesPlaced(ts, b) && ExprIds(c) !! StmtIds(b)
  }

  ghost predicate EntryNamesPlaced(ts: seq<Token>, d: Option<Stmt>)
    decreases d, 2
  {
    d.Some? ==> StmtNamesPlaced(ts, d.value)
  }

  ghost predicate ListNamesPlaced(ts: seq<Token>, ss: seq<Option<Stmt>>)
    decreases ss, 3
  {
    ss != [] ==>
      && ListNamesPlaced(ts, ss[..|ss| - 1]) && EntryNamesPlaced(ts, ss[|ss| - 1])
      && EntryListIds(ss[..|ss| - 1]) !! EntryIds(ss[|ss| - 1])
  }

  /** A two-entry list keeps the ids of its entries apart. */
  lemma {:induction false} PairNamesPlaced(ts: seq<Token>, first: Option<Stmt>, second: Option<Stmt>)
    requires EntryNamesPlaced(ts, first) && EntryNamesPlaced(ts, second) && EntryIds(first) !! EntryIds(second)
    ensures ListNamesPlaced(ts, [first, second])
    ensures EntryListIds([first, second]) == EntryIds(first) + EntryIds(second)
  {
    var pair := [first, second];
    assert pair[..1] == [first] && [first][..0] == [];
    assert EntryListIds([first]) == EntryIds(first);
  }

  /** The loop a `for` statement desugars to keeps its parts' ids apart. */
  lemma {:induction false} DesugarNamesPlaced(ts: seq<Token>, init: Option<Stmt>, cond: Option<Expr>, inc: Option<Expr>, body: Stmt)
    requires EntryNamesPlaced(ts, init) && StmtNamesPlaced(ts, body)
    requires (cond.Some? ==> NamesPlaced(ts, cond.value)) && (inc.Some? ==> NamesPlaced(ts, inc.value))
    requires EntryIds(init) !! OptExprIds(cond) && EntryIds(init) !! OptExprIds(inc) && EntryIds(init) !! StmtIds(body)
    requires OptExprIds(cond) !! OptExprIds(inc) && OptExprIds(cond) !! StmtIds(body) && OptExprIds(inc) !! StmtIds(body)
    ensures StmtNamesPlaced(ts, DesugarFor(init, cond, inc, body))
    ensures StmtIds(DesugarFor(init, cond, inc, body)) == EntryIds(init) + OptExprIds(cond) + OptExprIds(inc) + StmtIds(body)
  {
    var inner := if inc.Some? then Block([Some(body), Some(Stmt.Expression(inc.value))]) else body;
    if inc.Some? {
      PairNamesPlaced(ts, Some(body), Some(Stmt.Expression(inc.value)));
    }
    assert StmtNamesPlaced(ts, inner) && StmtIds(inner) == StmtIds(body) + OptExprIds(inc);
    var loop := While(if cond.Some? then cond.value else Literal(BoolValue(true)), inner);
    assert StmtNamesPlaced(ts, loop) && StmtIds(loop) == OptExprIds(cond) + OptExprIds(inc) + StmtIds(body);
    if init.Some? {
      PairNamesPlaced(ts, init, Some(loop));
    }
  }

  /**
   * In a statement read from `ts[start..end]`, every name node carries the
   * index of its own token, so no two name nodes share an id, and every
   * id lies within the run.
   */
  lemma {:induction false} StmtSpelledNamesPlaced(ts: seq<Token>, s: StmtSyntax, start: nat, end: nat)
    requires start <= end <= |ts| && SpelledBy(StmtSpelling(s), ts, start, end)
    decreases s, 2
    ensures StmtNamesPlaced(ts, StmtTree(s))
    ensures forall id | id in StmtIds(StmtTree(s)) :: start <= id < end
  {
    match s
    case ExpressionStmtSyntax(e) =>
      SpelledSplit(Spelling(e), [Kind(SEMICOLON)], ts, start, end);
      SpelledNamesPlaced(ts, e, start, start + |Spelling(e)|);
    case PrintSyntax(e) => PrintSpelledNamesPlaced(ts, e, start, end);
    case VarSyntax(name, initializer) =>
      if initializer.Some? {
        VarSpelledNamesPlaced(ts, name, initializer.value, start, end);
      }
    case BlockSyntax(entries) =>
      SpelledInside([Kind(LEFT_BRACE)], ListSpelling(entries), [Kind(RIGHT_BRACE)], ts, start, end);
      ListSpelledNamesPlaced(ts, entries, start + |[Kind(LEFT_BRACE)]|, end - |[Kind(RIGHT_BRACE)]|);
    case IfSyntax(_, _, _) => IfSpelledNamesPlaced(ts, s, start, end);
    case WhileSyntax(_, _) => WhileSpelledNamesPlaced(ts, s, start, end);
    case ForSyntax(_, _, _, _) => ForSpelledNamesPlaced(ts, s, start, end);
  }

  /** `k ( c ) rest`: where the parenthesized part and the rest lie. */
  lemma {:induction false} KeywordParenSplit(k: TokenType, c: seq<Atom>, rest: seq<Atom>, ts: seq<Token>, a: nat, e: nat)
    requires a <= e <= |ts| && SpelledBy([Kind(k)] + Parenthesized(c) + rest, ts, a, e)
    ensures a + 3 + |c| <= e && SpelledBy(c, ts, a + 2, a + 2 + |c|) && SpelledBy(rest, ts, a + 3 + |c|, e)
  {
    var head := [Kind(k)] + Parenthesized(c);
    SpelledSplit(head, rest, ts, a, e);
    SpelledSplit([Kind(k)], Parenthesized(c), ts, a, a + |head|);
    SpelledInside([Kind(LEFT_PAREN)], c, [Kind(RIGHT_PAREN)], ts, a + |[Kind(k)]|, a + |head|);
  }

  lemma {:induction false} PrintSpelledNamesPlaced(ts: seq<Token>, e: ExprSyntax, start: nat, end: nat)
    requires start <= end <= |ts| && SpelledBy([Kind(PRINT)] + Spelling(e) + [Kind(SEMICOLON)], ts, start, end)
    ensures NamesPlaced(ts, Tree(e))
    ensures forall id | id in ExprIds(Tree(e)) :: start <= id < end
  {
    SpelledInside([Kind(PRINT)], Spelling(e), [Kind(SEMICOLON)], ts, start, end);
    var inner, rest := start + |[Kind(PRINT)]|, end - |[Kind(SEMICOLON)]|;
    SpelledNamesPlaced(ts, e, inner, rest);
    assert start < inner && rest < end;
  }

  lemma {:induction false} VarSpelledNamesPlaced(ts: seq<Token>, name: Token, e: ExprSyntax, start: nat, end: nat)
    requires start <= end <= |ts|
    requires SpelledBy([Kind(VAR), Exactly(name)] + InitializerSpelling(Some(e)) + [Kind(SEMICOLON)], ts, start, end)
    ensures NamesPlaced(ts, Tree(e))
    ensures forall id | id in ExprIds(Tree(e)) :: start <= id < end
  {
    var prefix, init := [Kind(VAR), Exactly(name)], InitializerSpelling(Some(e));
    SpelledSplit(prefix + init, [Kind(SEMICOLON)], ts, start, end);
    SpelledSplit(prefix, init, ts, start, start + |prefix + init|);
    SpelledSplit([Kind(EQUAL)], Spelling(e), ts, start + |prefix|, start + |prefix + init|);
    SpelledNamesPlaced(ts, e, start + |prefix| + |[Kind(EQUAL)]|, start + |prefix + init|);
  }

  /** An `if` statement whose parts are placed and apart is placed. */
  lemma {:induction false} IfNamesPlaced(ts: seq<Token>, c: Expr, t: Stmt, el: Option<Stmt>)
    requires NamesPlaced(ts, c) && StmtNamesPlaced(ts, t) && EntryNamesPlaced(ts, el)
    requires ExprIds(c) !! StmtIds(t) && (ExprIds(c) + StmtIds(t)) !! EntryIds(el)
    ensures StmtNamesPlaced(ts, If(c, t, el))
    ensures StmtIds(If(c, t, el)) == ExprIds(c) + StmtIds(t) + EntryIds(el)
  {
  }

  lemma {:induction false} IfSpelledNamesPlaced(ts: seq<Token>, s: StmtSyntax, start: nat, end: nat)
    requires s.IfSyntax? && start <= end <= |ts| && SpelledBy(StmtSpelling(s), ts, start, end)
    decreases s, 1
    ensures StmtNamesPlaced(ts, StmtTree(s))
    ensures forall id | id in StmtIds(StmtTree(s)) :: start <= id < end
  {
    var c, t, el := Spelling(s.condition), StmtSpelling(s.thenBranch), ElseSpelling(s.elseBranch);
    SpelledSplit([Kind(IF)] + Parenthesized(c) + t, el, ts, start, end);
    var m2 := start + |[Kind(IF)] + Parenthesized(c) + t|;
    KeywordParenSplit(IF, c, t, ts, start, m2);
    var m1 := start + 2 + |c|;
    SpelledNamesPlaced(ts, s.condition, start + 2, m1);
    StmtSpelledNamesPlaced(ts, s.thenBranch, start + 3 + |c|, m2);
    ElseSpelledNamesPlaced(ts, s.elseBranch, m2, end);
    var ci, ti, ei := ExprIds(Tree(s.condition)), StmtIds(StmtTree(s.thenBranch)), EntryIds(OptStmtTree(s.elseBranch));
    Apart(ci, ti, start, m1, m2);
    Apart(ci + ti, ei, start, m2, end);
    IfNamesPlaced(ts, Tree(s.condition), StmtTree(s.thenBranch), OptStmtTree(s.elseBranch));
  }

  lemma {:induction false} ElseSpelledNamesPlaced(ts: seq<Token>, el: Option<StmtSyntax>, start: nat, end: nat)
    requires start <= end <= |ts| && SpelledBy(ElseSpelling(el), ts, start, end)
    decreases el, 0
    ensures EntryNamesPlaced(ts, OptStmtTree(el))
    ensures forall id | id in EntryIds(OptStmtTree(el)) :: start <= id < end
  {
    if el.Some? {
      SpelledSplit([Kind(ELSE)], StmtSpelling(el.value), ts, start, end);
      StmtSpelledNamesPlaced(ts, el.value, start + 1, end);
    }
  }

  lemma {:induction false} WhileSpelledNamesPlaced(ts: seq<Token>, s: StmtSyntax, start: nat, end: nat)
    requires s.WhileSyntax? && start <= end <= |ts| && SpelledBy(StmtSpelling(s), ts, start, end)
    decreases s, 1
    ensures StmtNamesPlaced(ts, StmtTree(s))
    ensures forall id | id in StmtIds(StmtTree(s)) :: start <= id < end
  {
    var c := Spelling(s.condition);
    KeywordParenSplit(WHILE, c, StmtSpelling(s.body), ts, start, end);
    var m := start + 2 + |c|;
    SpelledNamesPlaced(ts, s.condition, start + 2, m);
    StmtSpelledNamesPlaced(ts, s.body, start + 3 + |c|, end);
    Apart(ExprIds(Tree(s.condition)), StmtIds(StmtTree(s.body)), start, m, end);
  }

  lemma {:induction false} ForSpelledNamesPlaced(ts: seq<Token>, s: StmtSyntax, start: nat, end: nat)
    requires s.ForSyntax? && start <= end <= |ts| && SpelledBy(StmtSpelling(s), ts, start, end)
    decreases s, 1
    ensures StmtNamesPlaced(ts, StmtTree(s))
    ensures forall id | id in StmtIds(StmtTree(s)) :: start <= id < end
  {
    var header, b := HeaderSpelling(s.init, s.cond, s.increment), StmtSpelling(s.body);
    var m := start + |[Kind(FOR)] + header|;
    SpelledSplit([Kind(FOR)] + header, b, ts, start, end);
    SpelledSplit([Kind(FOR)], header, ts, start, m);
    HeaderSpelledNamesPlaced(ts, s.init, s.cond, s.increment, start + |[Kind(FOR)]|, m);
    StmtSpelledNamesPlaced(ts, s.body, m, end);
    var clauses := EntryIds(OptStmtTree(s.init)) + OptExprIds(OptTree(s.cond)) + OptExprIds(OptTree(s.increment));
    Apart(clauses, StmtIds(StmtTree(s.body)), start, m, end);
    DesugarNamesPlaced(ts, OptStmtTree(s.init), OptTree(s.cond), OptTree(s.increment), StmtTree(s.body));
  }

  /** The three clauses of a `for` header hold disjoint ids, all within the header. */
  lemma {:induction false} HeaderSpelledNamesPlaced(ts: seq<Token>, i: Option<StmtSyntax>, c: Option<ExprSyntax>,
                                                    inc: Option<ExprSyntax>, start: nat, end: nat)
    requires start <= end <= |ts| && SpelledBy(HeaderSpelling(i, c, inc), ts, start, end)
    decreases i, 1
    ensures EntryNamesPlaced(ts, OptStmtTree(i))
    ensures c.Some? ==> NamesPlaced(ts, Tree(c.value))
    ensures inc.Some? ==> NamesPlaced(ts, Tree(inc.value))
    ensures EntryIds(OptStmtTree(i)) !! OptExprIds(OptTree(c)) && EntryIds(OptStmtTree(i)) !! OptExprIds(OptTree(inc))
    ensures OptExprIds(OptTree(c)) !! OptExprIds(OptTree(inc))
    ensures forall id | id in EntryIds(OptStmtTree(i)) + OptExprIds(OptTree(c)) + OptExprIds(OptTree(inc)) :: start <= id < end
  {
    var init, cond, step := InitClauseSpelling(i), ClauseSpelling(c, SEMICOLON), ClauseSpelling(inc, RIGHT_PAREN);
    SpelledSplit([Kind(LEFT_PAREN)] + init + cond, step, ts, start, end);
    var m2 := start + |[Kind(LEFT_PAREN)] + init + cond|;
    SpelledSplit([Kind(LEFT_PAREN)] + init, cond, ts, start, m2);
    var m1 := start + |[Kind(LEFT_PAREN)] + init|;
    SpelledSplit([Kind(LEFT_PAREN)], init, ts, start, m1);
    InitClauseNamesPlaced(ts, i, start + |[Kind(LEFT_PAREN)]|, m1);
    ClauseNamesPlaced(ts, c, SEMICOLON, m1, m2);
    ClauseNamesPlaced(ts, inc, RIGHT_PAREN, m2, end);
    var ii, ci, si := EntryIds(OptStmtTree(i)), OptExprIds(OptTree(c)), OptExprIds(OptTree(inc));
    Apart(ii, ci, start, m1, m2);
    Apart(ii + ci, si, start, m2, end);
  }

  lemma {:induction false} InitClauseNamesPlaced(ts: seq<Token>, i: Option<StmtSyntax>, start: nat, end: nat)
    requires start <= end <= |ts| && SpelledBy(InitClauseSpelling(i), ts, start, end)
    decreases i, 0
    ensures EntryNamesPlaced(ts, OptStmtTree(i))
    ensures forall id | id in EntryIds(OptStmtTree(i)) :: start <= id < end
  {
    if i.Some? {
      StmtSpelledNamesPlaced(ts, i.value, start, end);
    }
  }

  lemma {:induction false} ClauseNamesPlaced(ts: seq<Token>, c: Option<ExprSyntax>, terminator: TokenType, start: nat, end: nat)
    requires start <= end <= |ts| && SpelledBy(ClauseSpelling(c, terminator), ts, start, end)
    ensures c.Some? ==> NamesPlaced(ts, Tree(c.value))
    ensures forall id | id in OptExprIds(OptTree(c)) :: start <= id < end
  {
    if c.Some? {
      SpelledSplit(Spelling(c.value), [Kind(terminator)], ts, start, end);
      SpelledNamesPlaced(ts, c.value, start, start + |Spelling(c.value)|);
    }
  }

  lemma {:induction false} EntrySpelledNamesPlaced(ts: seq<Token>, d: EntrySyntax, start: nat, end: nat)
    requires start <= end <= |ts| && SpelledBy(EntrySpelling(d), ts, start, end)
    decreases d, 3
    ensures EntryNamesPlaced(ts, EntryTree(d))
    ensures forall id | id in EntryIds(EntryTree(d)) :: start <= id < end
  {
    if d.Declared? {
      StmtSpelledNamesPlaced(ts, d.statement, start, end);
    }
  }

  /** A list keeps its ids apart when a placed entry with fresh ids is appended. */
  lemma {:induction false} ListPlacedStep(ts: seq<Token>, ss: seq<Option<Stmt>>, d: Option<Stmt>)
    requires ListNamesPlaced(ts, ss) && EntryNamesPlaced(ts, d) && EntryListIds(ss) !! EntryIds(d)
    ensures ListNamesPlaced(ts, ss + [d])
    ensures EntryListIds(ss + [d]) == EntryListIds(ss) + EntryIds(d)
  {
    assert (ss + [d])[..|ss|] == ss;
  }

  /**
   * A run of declarations read from `ts[start..end]` -- a whole program,
   * as `parse` returns it -- holds no two name nodes with the same id.
   */
  lemma {:induction false} ListSpelledNamesPlaced(ts: seq<Token>, ds: seq<EntrySyntax>, start: nat, end: nat)
    requires start <= end <= |ts| && SpelledBy(ListSpelling(ds), ts, start, end)
    decreases ds, 4
    ensures ListNamesPlaced(ts, ListTree(ds))
    ensures forall id | id in EntryListIds(ListTree(ds)) :: start <= id < end
  {
    if ds != [] {
      var front := ds[..|ds| - 1];
      var last := ds[|ds| - 1];
      SpelledSplit(ListSpelling(front), EntrySpelling(last), ts, start, end);
      var mid := start + |ListSpelling(front)|;
      ListSpelledNamesPlaced(ts, front, start, mid);
      EntrySpelledNamesPlaced(ts, last, mid, end);
      Apart(EntryListIds(ListTree(front)), EntryIds(EntryTree(last)), start, mid, end);
      ListPlacedStep(ts, ListTree(front), EntryTree(last));
    }
  }

  /** Where `synchronize` may stop: after a `;`, before a statement keyword, or at EOF. */
  predicate SyncPoint(ts: seq<Token>, p: nat)
    requires 0 < p < |ts|
  {
    ts[p].kind == EOF || ts[p - 1].kind == SEMICOLON || ts[p].kind in StatementStarts
  }
}
