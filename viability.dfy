/**
 * A rule of the parser of src/com/yadav/lox/Parser.java that a syntax error
 * stops has only read the beginning of something the grammar derives: the
 * tokens before the one it reports begin the spelling of a grammatical
 * expression of the rule's rung, or of a grammatical statement. The
 * witness is the halt's `Completion`, which fills every missing operand
 * with `nil`, supplies every missing `)`, `:` or `;`, and names a missing
 * variable.
 */
module Viability {
  import opened Ast
  import opened Grammar

  // ---------------------------------------------------------------------
  // Beginnings of a spelling
  // ---------------------------------------------------------------------

  /**
   * Atom `a`, read, stands where `b` stands in a spelling: it is `b`, or
   * it is a token the tree keeps where `b` only asks for its kind (the `=`
   * of an assignment to a name).
   */
  predicate Covers(a: Atom, b: Atom) {
    a == b || (a.Exactly? && b == Kind(a.token.kind))
  }

  /** `xs`, atom by atom, covers a proper beginning of `ys`. */
  predicate Begins(xs: seq<Atom>, ys: seq<Atom>) {
    |xs| < |ys| && forall k | 0 <= k < |xs| :: Covers(xs[k], ys[k])
  }

  /** The tokens `ts[start..end]` spell a proper beginning of `atoms`. */
  predicate Starts(atoms: seq<Atom>, ts: seq<Token>, start: nat, end: nat)
    requires start <= end <= |ts|
  {
    end - start < |atoms| && SpelledBy(atoms[..end - start], ts, start, end)
  }

  lemma {:induction false} BeginsProper(xs: seq<Atom>, zs: seq<Atom>)
    requires zs != []
    ensures Begins(xs, xs + zs)
  {
    forall k | 0 <= k < |xs|
      ensures Covers(xs[k], (xs + zs)[k])
    {
      assert (xs + zs)[k] == xs[k];
    }
  }

  lemma {:induction false} BeginsExtended(xs: seq<Atom>, ys: seq<Atom>, zs: seq<Atom>)
    requires Begins(xs, ys)
    ensures Begins(xs, ys + zs)
  {
    forall k | 0 <= k < |xs|
      ensures Covers(xs[k], (ys + zs)[k])
    {
      assert (ys + zs)[k] == ys[k];
    }
  }

  /** Two beginnings behind two runs that cover each other atom by atom. */
  lemma {:induction false} BeginsJoined(p: seq<Atom>, q: seq<Atom>, xs: seq<Atom>, ys: seq<Atom>)
    requires |p| == |q| && (forall k | 0 <= k < |p| :: Covers(p[k], q[k])) && Begins(xs, ys)
    ensures Begins(p + xs, q + ys)
  {
    forall k | 0 <= k < |p + xs|
      ensures Covers((p + xs)[k], (q + ys)[k])
    {
      if k < |p| {
        assert (p + xs)[k] == p[k] && (q + ys)[k] == q[k];
      } else {
        assert (p + xs)[k] == xs[k - |p|] && (q + ys)[k] == ys[k - |p|];
      }
    }
  }

  /** A beginning behind a common run. */
  lemma {:induction false} BeginsBehind(p: seq<Atom>, xs: seq<Atom>, ys: seq<Atom>)
    requires Begins(xs, ys)
    ensures Begins(p + xs, p + ys)
  {
    BeginsJoined(p, p, xs, ys);
  }

  /** Tokens spelled by a run that covers a proper beginning of `ys` spell that beginning of `ys` too. */
  lemma {:induction false} CoveredRun(ts: seq<Token>, xs: seq<Atom>, ys: seq<Atom>, start: nat, end: nat)
    requires start <= end <= |ts| && SpelledBy(xs, ts, start, end) && Begins(xs, ys)
    ensures Starts(ys, ts, start, end)
  {
    var zs := ys[..end - start];
    forall k: nat | k < |zs|
      ensures SpelledAt(zs, ts, start, k)
    {
      assert SpelledAt(xs, ts, start, k);
      assert Covers(xs[k], ys[k]);
    }
  }

  // ---------------------------------------------------------------------
  // Finishing a stopped expression
  // ---------------------------------------------------------------------

  /** The operand that stands in for a missing one. */
  const Nil: ExprSyntax := LiteralSyntax(NilValue)

  /** The `:` that stands in for a missing one. */
  const Colon: Token := Token(COLON, ":", NilValue, 0)

  /**
   * The expression a stopped rule had begun, finished: every missing
   * operand is `nil`, a missing `)` or `:` is supplied.
   */
  function Completion(h: ExprHalt): ExprSyntax {
    match h
    case NoOperand => Nil
    case InUnary(op, r) => UnarySyntax(op, Completion(r))
    case InGroup(i) => GroupingSyntax(Completion(i))
    case Unclosed(i) => GroupingSyntax(i)
    case InRight(l, op, r) =>
      if InfixLevel(op.kind) <= 2 then LogicalSyntax(l, op, Completion(r)) else BinarySyntax(l, op, Completion(r))
    case InMiddle(c, q, m) => TernarySyntax(c, q, Completion(m), Colon, Nil)
    case NoColon(c, q, m) => TernarySyntax(c, q, m, Colon, Nil)
    case InBranch(c, q, m, colon, r) => TernarySyntax(c, q, m, colon, Completion(r))
    case InValue(t, eq, v) =>
      if t.VariableSyntax? then AssignSyntax(t.id, t.name, Completion(v)) else InvalidAssignSyntax(t, eq, Completion(v))
  }

  /**
   * What an expression rule of rung `level` read before it was stopped
   * begins a grammatical expression of that rung or a tighter one.
   */
  lemma {:induction false} CompletionBegun(h: ExprHalt, level: int, k: TokenType)
    requires Blocked(h, level, k) && level <= 9
    ensures Grammatical(Completion(h)) && Prec(Completion(h)) >= level
    ensures Begins(HaltSpelling(h), Spelling(Completion(h)))
    decreases h, 1
  {
    match h
    case NoOperand =>
    case InUnary(op, r) =>
      CompletionBegun(r, 8, k);
      BeginsBehind([Exactly(op)], HaltSpelling(r), Spelling(Completion(r)));
    case InGroup(i) =>
      CompletionBegun(i, 0, k);
      BeginsBehind([Kind(LEFT_PAREN)], HaltSpelling(i), Spelling(Completion(i)));
      BeginsExtended(HaltSpelling(h), [Kind(LEFT_PAREN)] + Spelling(Completion(i)), [Kind(RIGHT_PAREN)]);
    case Unclosed(i) =>
      BeginsProper([Kind(LEFT_PAREN)] + Spelling(i), [Kind(RIGHT_PAREN)]);
    case InRight(l, op, r) =>
      CompletionBegun(r, InfixLevel(op.kind) + 1, k);
      BeginsBehind(Spelling(l) + [Exactly(op)], HaltSpelling(r), Spelling(Completion(r)));
    case InMiddle(_, _, _) => TernaryCompletionBegun(h, level, k);
    case NoColon(_, _, _) => TernaryCompletionBegun(h, level, k);
    case InBranch(_, _, _, _, _) => TernaryCompletionBegun(h, level, k);
    case InValue(_, _, _) => ValueCompletionBegun(h, level, k);
  }

  /** `CompletionBegun` for an assignment stopped in its value; the `=` of an assignment to a name is kept by kind only. */
  lemma {:induction false} ValueCompletionBegun(h: ExprHalt, level: int, k: TokenType)
    requires Blocked(h, level, k) && h.InValue?
    ensures Grammatical(Completion(h)) && Prec(Completion(h)) >= level
    ensures Begins(HaltSpelling(h), Spelling(Completion(h)))
    decreases h, 0
  {
    CompletionBegun(h.value, 0, k);
    ValueBegins(h.target, h.equals, h.value, Completion(h.value));
  }

  /** An assignment stopped in its value begins the assignment whose value is finished. */
  lemma {:induction false} ValueBegins(t: ExprSyntax, eq: Token, v: ExprHalt, done: ExprSyntax)
    requires eq.kind == EQUAL && Begins(HaltSpelling(v), Spelling(done))
    ensures t.VariableSyntax? ==> Begins(HaltSpelling(InValue(t, eq, v)), Spelling(AssignSyntax(t.id, t.name, done)))
    ensures !t.VariableSyntax? ==> Begins(HaltSpelling(InValue(t, eq, v)), Spelling(InvalidAssignSyntax(t, eq, done)))
  {
    if t.VariableSyntax? {
      BeginsJoined([NameAt(t.id, t.name), Exactly(eq)], [NameAt(t.id, t.name), Kind(EQUAL)], HaltSpelling(v), Spelling(done));
      assert HaltSpelling(InValue(t, eq, v)) == [NameAt(t.id, t.name), Exactly(eq)] + HaltSpelling(v);
    } else {
      BeginsBehind(Spelling(t) + [Exactly(eq)], HaltSpelling(v), Spelling(done));
    }
  }

  /** `CompletionBegun` for a stopped ternary, which is finished with `: nil` where the `:` is missing. */
  lemma {:induction false} TernaryCompletionBegun(h: ExprHalt, level: int, k: TokenType)
    requires Blocked(h, level, k) && (h.InMiddle? || h.NoColon? || h.InBranch?)
    ensures Grammatical(Completion(h)) && Prec(Completion(h)) >= level
    ensures Begins(HaltSpelling(h), Spelling(Completion(h)))
    decreases h, 0
  {
    var rest := [Exactly(Colon)] + Spelling(Nil);
    match h
    case InMiddle(c, q, m) =>
      CompletionBegun(m, 7, k);
      var p := Spelling(c) + [Exactly(q)];
      BeginsBehind(p, HaltSpelling(m), Spelling(Completion(m)));
      BeginsExtended(HaltSpelling(h), p + Spelling(Completion(m)), rest);
      assert p + Spelling(Completion(m)) + rest == p + Spelling(Completion(m)) + [Exactly(Colon)] + Spelling(Nil);
    case NoColon(c, q, m) =>
      BeginsProper(HaltSpelling(h), rest);
      assert HaltSpelling(h) + rest == HaltSpelling(h) + [Exactly(Colon)] + Spelling(Nil);
    case InBranch(c, q, m, colon, r) =>
      CompletionBegun(r, 7, k);
      BeginsBehind(Spelling(c) + [Exactly(q)] + Spelling(m) + [Exactly(colon)], HaltSpelling(r), Spelling(Completion(r)));
  }

  /**
   * An expression rule of rung `level` stopped at `ts[end]` read the
   * beginning of a grammatical expression of that rung: the syntax error
   * is not reported after the first token that leaves the grammar.
   */
  lemma {:induction false} HaltedViable(ts: seq<Token>, h: ExprHalt, level: int, start: nat, end: nat,
                                        before: seq<Diagnostic>, after: seq<Diagnostic>)
    requires Halted(ts, h, level, start, end, before, after) == true && level <= 9
    ensures Grammatical(Completion(h)) && Prec(Completion(h)) >= level
    ensures Starts(Spelling(Completion(h)), ts, start, end)
  {
    CompletionBegun(h, level, ts[end].kind);
    CoveredRun(ts, HaltSpelling(h), Spelling(Completion(h)), start, end);
  }

  // ---------------------------------------------------------------------
  // Finishing a stopped statement
  // ---------------------------------------------------------------------

  /** The statement that stands in for a missing one. */
  const NilStatement: StmtSyntax := ExpressionStmtSyntax(Nil)

  /** The name that stands in for a missing one. */
  const SomeName: Token := Token(IDENTIFIER, "x", NilValue, 0)

  /** The condition a stopped `( condition )` had begun, finished. */
  function CondCompletion(c: CondHalt): ExprSyntax {
    match c
    case Unopened => Nil
    case InCondition(e) => Completion(e)
    case CondUnclosed(e) => e
  }

  /** The clause a stopped `for` clause had begun, finished. */
  function ClauseCompletion(c: ClauseHalt): Option<ExprSyntax> {
    match c
    case InClause(e) => Some(Completion(e))
    case ClauseUnended(e) => e
  }

  /** The statement a stopped statement rule had begun, finished: a declaration exactly when it stopped inside one. */
  function StmtCompletion(h: StmtHalt): (s: StmtSyntax)
    decreases h, 1
    ensures s.VarSyntax? <==> DeclarationHalt(h)
  {
    match h
    case NoName => VarSyntax(SomeName, None)
    case InVarInitializer(name, v) => VarSyntax(name, Some(Completion(v)))
    case VarUnended(name, init) => VarSyntax(name, init)
    case InExpressionStmt(e) => ExpressionStmtSyntax(Completion(e))
    case ExpressionUnended(e) => ExpressionStmtSyntax(e)
    case InPrint(e) => PrintSyntax(Completion(e))
    case PrintUnended(e) => PrintSyntax(e)
    case BlockUnclosed(entries) => BlockSyntax(entries)
    case InWhileCondition(c) => WhileSyntax(CondCompletion(c), NilStatement)
    case InWhileBody(c, b) => WhileSyntax(c, StmtCompletion(b))
    case InIfCondition(c) => IfSyntax(CondCompletion(c), NilStatement, None)
    case InThen(c, t) => IfSyntax(c, StmtCompletion(t), None)
    case InElse(c, t, e) => IfSyntax(c, t, Some(StmtCompletion(e)))
    case InForHeader(hh) => ForCompletion(hh)
    case InForBody(i, c, inc, b) => ForSyntax(i, c, Some(inc), StmtCompletion(b))
  }

  /** The `for` loop a stopped header had begun, finished with a `nil` increment where one is missing and a `nil;` body. */
  function ForCompletion(hh: HeaderHalt): (s: StmtSyntax)
    decreases hh, 0
    ensures s.ForSyntax?
  {
    match hh
    case HeaderUnopened => ForSyntax(None, None, Some(Nil), NilStatement)
    case InInitializer(s) => ForSyntax(Some(StmtCompletion(s)), None, Some(Nil), NilStatement)
    case InLoopCondition(i, c) => ForSyntax(i, ClauseCompletion(c), Some(Nil), NilStatement)
    case InIncrement(i, c, inc) => ForSyntax(i, c, ClauseCompletion(inc), NilStatement)
  }

  lemma {:induction false} CondCompletionBegun(c: CondHalt, k: TokenType)
    requires CondBlocked(c, k)
    ensures Grammatical(CondCompletion(c))
    ensures Begins(CondHaltSpelling(c), Parenthesized(Spelling(CondCompletion(c))))
  {
    match c
    case Unopened =>
    case InCondition(e) =>
      CompletionBegun(e, 0, k);
      BeginsBehind([Kind(LEFT_PAREN)], HaltSpelling(e), Spelling(Completion(e)));
      BeginsExtended(CondHaltSpelling(c), [Kind(LEFT_PAREN)] + Spelling(Completion(e)), [Kind(RIGHT_PAREN)]);
    case CondUnclosed(e) =>
      BeginsProper(CondHaltSpelling(c), [Kind(RIGHT_PAREN)]);
  }

  lemma {:induction false} ClauseCompletionBegun(c: ClauseHalt, terminator: TokenType, k: TokenType)
    requires ClauseBlocked(c, terminator, k)
    ensures OptGrammatical(ClauseCompletion(c))
    ensures Begins(ClauseHaltSpelling(c), ClauseSpelling(ClauseCompletion(c), terminator))
  {
    match c
    case InClause(e) =>
      CompletionBegun(e, 0, k);
      BeginsExtended(HaltSpelling(e), Spelling(Completion(e)), [Kind(terminator)]);
    case ClauseUnended(e) =>
      BeginsProper(OptSpelling(e), [Kind(terminator)]);
  }

  /** What a statement rule read before it was stopped begins a grammatical statement. */
  lemma {:induction false} StmtCompletionBegun(h: StmtHalt, k: TokenType)
    requires StmtBlocked(h, k)
    ensures StmtGrammatical(StmtCompletion(h))
    ensures Begins(StmtHaltSpelling(h), StmtSpelling(StmtCompletion(h)))
    decreases h, 1
  {
    if h.NoName? || h.InVarInitializer? || h.VarUnended? {
      VarCompletionBegun(h, k);
    } else if h.InExpressionStmt? || h.ExpressionUnended? || h.InPrint? || h.PrintUnended? || h.BlockUnclosed? {
      PlainCompletionBegun(h, k);
    } else if h.InWhileCondition? || h.InIfCondition? {
      ConditionCompletionBegun(h, k);
    } else if h.InThen? || h.InElse? {
      IfCompletionBegun(h, k);
    } else {
      LoopCompletionBegun(h, k);
    }
  }

  /** `StmtCompletionBegun` for a stopped `var` declaration. */
  lemma {:induction false} VarCompletionBegun(h: StmtHalt, k: TokenType)
    requires StmtBlocked(h, k) && (h.NoName? || h.InVarInitializer? || h.VarUnended?)
    ensures StmtGrammatical(StmtCompletion(h))
    ensures Begins(StmtHaltSpelling(h), StmtSpelling(StmtCompletion(h)))
  {
    var semicolon := [Kind(SEMICOLON)];
    match h
    case NoName =>
      BeginsProper([Kind(VAR)], [Exactly(SomeName)] + semicolon);
      assert [Kind(VAR)] + ([Exactly(SomeName)] + semicolon) == [Kind(VAR), Exactly(SomeName)] + InitializerSpelling(None) + semicolon;
    case InVarInitializer(name, v) =>
      CompletionBegun(v, 0, k);
      var p := [Kind(VAR), Exactly(name), Kind(EQUAL)];
      BeginsBehind(p, HaltSpelling(v), Spelling(Completion(v)));
      BeginsExtended(StmtHaltSpelling(h), p + Spelling(Completion(v)), semicolon);
      assert [Kind(VAR), Exactly(name)] + InitializerSpelling(Some(Completion(v))) == p + Spelling(Completion(v));
    case VarUnended(name, init) =>
      BeginsProper(StmtHaltSpelling(h), semicolon);
  }

  /** `StmtCompletionBegun` for a stopped expression statement, `print` statement or block. */
  lemma {:induction false} PlainCompletionBegun(h: StmtHalt, k: TokenType)
    requires StmtBlocked(h, k) && (h.InExpressionStmt? || h.ExpressionUnended? || h.InPrint? || h.PrintUnended? || h.BlockUnclosed?)
    ensures StmtGrammatical(StmtCompletion(h))
    ensures Begins(StmtHaltSpelling(h), StmtSpelling(StmtCompletion(h)))
  {
    var semicolon := [Kind(SEMICOLON)];
    match h
    case InExpressionStmt(e) =>
      CompletionBegun(e, 0, k);
      BeginsExtended(HaltSpelling(e), Spelling(Completion(e)), semicolon);
    case ExpressionUnended(e) =>
      BeginsProper(Spelling(e), semicolon);
    case InPrint(e) =>
      CompletionBegun(e, 0, k);
      BeginsBehind([Kind(PRINT)], HaltSpelling(e), Spelling(Completion(e)));
      BeginsExtended(StmtHaltSpelling(h), [Kind(PRINT)] + Spelling(Completion(e)), semicolon);
    case PrintUnended(e) =>
      BeginsProper(StmtHaltSpelling(h), semicolon);
    case BlockUnclosed(entries) =>
      BeginsProper(StmtHaltSpelling(h), [Kind(RIGHT_BRACE)]);
  }

  /** `StmtCompletionBegun` for a `while` or `if` statement stopped in its condition. */
  lemma {:induction false} ConditionCompletionBegun(h: StmtHalt, k: TokenType)
    requires StmtBlocked(h, k) && (h.InWhileCondition? || h.InIfCondition?)
    ensures StmtGrammatical(StmtCompletion(h))
    ensures Begins(StmtHaltSpelling(h), StmtSpelling(StmtCompletion(h)))
  {
    var keyword := if h.InWhileCondition? then WHILE else IF;
    var c := h.paren;
    CondCompletionBegun(c, k);
    var cc := Parenthesized(Spelling(CondCompletion(c)));
    BeginsBehind([Kind(keyword)], CondHaltSpelling(c), cc);
    BeginsExtended(StmtHaltSpelling(h), [Kind(keyword)] + cc, StmtSpelling(NilStatement));
    if h.InIfCondition? {
      assert StmtSpelling(StmtCompletion(h)) == [Kind(keyword)] + cc + StmtSpelling(NilStatement) + ElseSpelling(None);
    }
  }

  /** `StmtCompletionBegun` for an `if` statement stopped in a branch. */
  lemma {:induction false} IfCompletionBegun(h: StmtHalt, k: TokenType)
    requires StmtBlocked(h, k) && (h.InThen? || h.InElse?)
    ensures StmtGrammatical(StmtCompletion(h))
    ensures Begins(StmtHaltSpelling(h), StmtSpelling(StmtCompletion(h)))
    decreases h, 0
  {
    match h
    case InThen(c, t) =>
      StmtCompletionBegun(t, k);
      ThenBegins(c, t, StmtCompletion(t));
    case InElse(c, t, e) =>
      StmtCompletionBegun(e, k);
      ElseBegins(c, t, e, StmtCompletion(e));
  }

  /** `StmtCompletionBegun` for a `while` loop stopped in its body, or a `for` loop. */
  lemma {:induction false} LoopCompletionBegun(h: StmtHalt, k: TokenType)
    requires StmtBlocked(h, k) && (h.InWhileBody? || h.InForHeader? || h.InForBody?)
    ensures StmtGrammatical(StmtCompletion(h))
    ensures Begins(StmtHaltSpelling(h), StmtSpelling(StmtCompletion(h)))
    decreases h, 0
  {
    match h
    case InWhileBody(c, b) =>
      StmtCompletionBegun(b, k);
      WhileBodyBegins(c, b, StmtCompletion(b));
    case InForHeader(hh) =>
      HeaderCompletionBegun(hh, k);
      ForHeaderBegins(hh, ForCompletion(hh));
    case InForBody(i, c, inc, b) =>
      StmtCompletionBegun(b, k);
      ForBodyBegins(i, c, inc, b, StmtCompletion(b));
  }

  /** An `if` stopped in its `then` branch begins the `if` whose branch is finished. */
  lemma {:induction false} ThenBegins(c: ExprSyntax, t: StmtHalt, done: StmtSyntax)
    requires Begins(StmtHaltSpelling(t), StmtSpelling(done))
    ensures Begins(StmtHaltSpelling(InThen(c, t)), StmtSpelling(IfSyntax(c, done, None)))
  {
    var p := [Kind(IF)] + Parenthesized(Spelling(c));
    BeginsBehind(p, StmtHaltSpelling(t), StmtSpelling(done));
    assert StmtSpelling(IfSyntax(c, done, None)) == p + StmtSpelling(done);
  }

  /** An `if` stopped in its `else` branch begins the `if` whose branch is finished. */
  lemma {:induction false} ElseBegins(c: ExprSyntax, t: StmtSyntax, e: StmtHalt, done: StmtSyntax)
    requires Begins(StmtHaltSpelling(e), StmtSpelling(done))
    ensures Begins(StmtHaltSpelling(InElse(c, t, e)), StmtSpelling(IfSyntax(c, t, Some(done))))
  {
    var p := [Kind(IF)] + Parenthesized(Spelling(c)) + StmtSpelling(t);
    BeginsBehind(p + [Kind(ELSE)], StmtHaltSpelling(e), StmtSpelling(done));
    assert p + ElseSpelling(Some(done)) == p + [Kind(ELSE)] + StmtSpelling(done);
  }

  /** A `while` stopped in its body begins the loop whose body is finished. */
  lemma {:induction false} WhileBodyBegins(c: ExprSyntax, b: StmtHalt, done: StmtSyntax)
    requires Begins(StmtHaltSpelling(b), StmtSpelling(done))
    ensures Begins(StmtHaltSpelling(InWhileBody(c, b)), StmtSpelling(WhileSyntax(c, done)))
  {
    BeginsBehind([Kind(WHILE)] + Parenthesized(Spelling(c)), StmtHaltSpelling(b), StmtSpelling(done));
  }

  /** A `for` stopped in its header begins the loop whose header is finished. */
  lemma {:induction false} ForHeaderBegins(hh: HeaderHalt, done: StmtSyntax)
    requires done.ForSyntax? && Begins(HeaderHaltSpelling(hh), HeaderSpelling(done.init, done.cond, done.increment))
    ensures Begins(StmtHaltSpelling(InForHeader(hh)), StmtSpelling(done))
  {
    var header := HeaderSpelling(done.init, done.cond, done.increment);
    BeginsBehind([Kind(FOR)], HeaderHaltSpelling(hh), header);
    BeginsExtended([Kind(FOR)] + HeaderHaltSpelling(hh), [Kind(FOR)] + header, StmtSpelling(done.body));
  }

  /** A `for` stopped in its body begins the loop whose body is finished. */
  lemma {:induction false} ForBodyBegins(i: Option<StmtSyntax>, c: Option<ExprSyntax>, inc: ExprSyntax, b: StmtHalt, done: StmtSyntax)
    requires Begins(StmtHaltSpelling(b), StmtSpelling(done))
    ensures Begins(StmtHaltSpelling(InForBody(i, c, inc, b)), StmtSpelling(ForSyntax(i, c, Some(inc), done)))
  {
    BeginsBehind([Kind(FOR)] + HeaderSpelling(i, c, Some(inc)), StmtHaltSpelling(b), StmtSpelling(done));
  }

  /** What the header rule of a `for` loop read before it was stopped begins the header of a grammatical loop. */
  lemma {:induction false} HeaderCompletionBegun(hh: HeaderHalt, k: TokenType)
    requires HeaderBlocked(hh, k)
    ensures var s := ForCompletion(hh);
      && StmtGrammatical(s) && Begins(HeaderHaltSpelling(hh), HeaderSpelling(s.init, s.cond, s.increment))
    decreases hh, 0
  {
    var close := ClauseSpelling(Some(Nil), RIGHT_PAREN);
    match hh
    case HeaderUnopened =>
    case InInitializer(s) =>
      StmtCompletionBegun(s, k);
      BeginsBehind([Kind(LEFT_PAREN)], StmtHaltSpelling(s), StmtSpelling(StmtCompletion(s)));
      BeginsExtended(HeaderHaltSpelling(hh), [Kind(LEFT_PAREN)] + StmtSpelling(StmtCompletion(s)), ClauseSpelling(None, SEMICOLON) + close);
      assert [Kind(LEFT_PAREN)] + StmtSpelling(StmtCompletion(s)) + (ClauseSpelling(None, SEMICOLON) + close)
          == [Kind(LEFT_PAREN)] + InitClauseSpelling(Some(StmtCompletion(s))) + ClauseSpelling(None, SEMICOLON) + close;
    case InLoopCondition(i, c) =>
      ClauseCompletionBegun(c, SEMICOLON, k);
      var p := [Kind(LEFT_PAREN)] + InitClauseSpelling(i);
      BeginsBehind(p, ClauseHaltSpelling(c), ClauseSpelling(ClauseCompletion(c), SEMICOLON));
      BeginsExtended(HeaderHaltSpelling(hh), p + ClauseSpelling(ClauseCompletion(c), SEMICOLON), close);
    case InIncrement(i, c, inc) =>
      ClauseCompletionBegun(inc, RIGHT_PAREN, k);
      BeginsBehind([Kind(LEFT_PAREN)] + InitClauseSpelling(i) + ClauseSpelling(c, SEMICOLON), ClauseHaltSpelling(inc),
                   ClauseSpelling(ClauseCompletion(inc), RIGHT_PAREN));
  }

  /**
   * A statement rule stopped at `ts[end]` read the beginning of a
   * grammatical statement: the syntax error is reported at the first
   * token that leaves the grammar, not after it.
   */
  lemma {:induction false} StmtHaltedViable(ts: seq<Token>, h: StmtHalt, start: nat, end: nat,
                                            before: seq<Diagnostic>, after: seq<Diagnostic>)
    requires StmtHalted(ts, h, start, end, before, after) == true
    ensures StmtGrammatical(StmtCompletion(h)) && Starts(StmtSpelling(StmtCompletion(h)), ts, start, end)
  {
    StmtCompletionBegun(h, ts[end].kind);
    CoveredRun(ts, StmtHaltSpelling(h), StmtSpelling(StmtCompletion(h)), start, end);
  }

  /** A parenthesised `while` or `if` condition stopped at `ts[end]` read the beginning of `( condition )`. */
  lemma {:induction false} CondHaltedViable(ts: seq<Token>, c: CondHalt, open: Message, close: Message, start: nat, end: nat,
                                            before: seq<Diagnostic>, after: seq<Diagnostic>)
    requires CondHalted(ts, c, open, close, start, end, before, after) == true
    ensures Grammatical(CondCompletion(c)) && Starts(Parenthesized(Spelling(CondCompletion(c))), ts, start, end)
  {
    CondCompletionBegun(c, ts[end].kind);
    CoveredRun(ts, CondHaltSpelling(c), Parenthesized(Spelling(CondCompletion(c))), start, end);
  }

  /** A `for` clause stopped at `ts[end]` read the beginning of a clause closed by `terminator`. */
  lemma {:induction false} ClauseHaltedViable(ts: seq<Token>, c: ClauseHalt, terminator: TokenType, message: Message,
                                              start: nat, end: nat, before: seq<Diagnostic>, after: seq<Diagnostic>)
    requires ClauseHalted(ts, c, terminator, message, start, end, before, after) == true
    ensures OptGrammatical(ClauseCompletion(c)) && Starts(ClauseSpelling(ClauseCompletion(c), terminator), ts, start, end)
  {
    ClauseCompletionBegun(c, terminator, ts[end].kind);
    CoveredRun(ts, ClauseHaltSpelling(c), ClauseSpelling(ClauseCompletion(c), terminator), start, end);
  }

  /** A `for` header stopped at `ts[end]` read the beginning of the header of a grammatical loop. */
  lemma {:induction false} HeaderHaltedViable(ts: seq<Token>, hh: HeaderHalt, start: nat, end: nat,
                                              before: seq<Diagnostic>, after: seq<Diagnostic>)
    requires HeaderHalted(ts, hh, start, end, before, after) == true
    ensures var s := ForCompletion(hh);
      && StmtGrammatical(s) && Starts(HeaderSpelling(s.init, s.cond, s.increment), ts, start, end)
  {
    HeaderCompletionBegun(hh, ts[end].kind);
    var s := ForCompletion(hh);
    CoveredRun(ts, HeaderHaltSpelling(hh), HeaderSpelling(s.init, s.cond, s.increment), start, end);
  }

  /** A declaration that failed and was skipped had read the beginning of a grammatical statement. */
  lemma {:induction false} SkippedViable(d: EntrySyntax)
    requires d.Skipped? && EntryGrammatical(d)
    ensures StmtGrammatical(StmtCompletion(d.halt)) && Begins(StmtHaltSpelling(d.halt), StmtSpelling(StmtCompletion(d.halt)))
  {
    StmtCompletionBegun(d.halt, d.stop.kind);
  }
}
