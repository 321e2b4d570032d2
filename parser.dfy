/**
 * The recursive-descent parser of src/com/yadav/lox/Parser.java.
 *
 * The parser holds the token list and a cursor `current`; each grammar rule
 * is a method that moves the cursor and returns, with its result, the ghost
 * syntax it read (module `Grammar`). A `ParseError` exception is a
 * `ParseError` result that every rule passes straight up until
 * `Declaration` catches it and resynchronises. `Lox.error` appends to
 * `errors`.
 */
module Parsing {
  import opened Ast
  import opened Grammar

  // ---------------------------------------------------------------------
  // The parser
  // ---------------------------------------------------------------------

  class Parser {
    const tokens: seq<Token>
    var current: nat
    var errors: seq<Diagnostic>

    ghost predicate Valid()
      reads this
    {
      LexerOutput(tokens) && current < |tokens|
    }

    constructor (tokens: seq<Token>)
      requires LexerOutput(tokens)
      ensures Valid() && this.tokens == tokens && current == 0 && errors == []
    {
      this.tokens := tokens;
      current := 0;
      errors := [];
    }

    // -- helpers ----------------------------------------------------------

    function IsAtEnd(): bool
      reads this
      requires Valid()
    {
      tokens[current].kind == EOF
    }

    function Peek(): Token
      reads this
      requires Valid()
    {
      tokens[current]
    }

    function Previous(): Token
      reads this
      requires Valid() && current > 0
    {
      tokens[current - 1]
    }

    /** A checked token is never EOF, so it is never the last token. */
    function Check(t: TokenType): (r: bool)
      reads this
      requires Valid()
      ensures r ==> t != EOF && Peek().kind == t && current + 1 < |tokens|
    {
      if IsAtEnd() then false else Peek().kind == t
    }

    method Advance() returns (t: Token)
      requires Valid() && (current > 0 || !IsAtEnd())
      modifies this`current
      ensures Valid()
      ensures current == if old(IsAtEnd()) then old(current) else old(current) + 1
      ensures current > 0 && t == tokens[current - 1]
    {
      if !IsAtEnd() {
        current := current + 1;
      }
      t := Previous();
    }

    method Match(types: seq<TokenType>) returns (matched: bool)
      requires Valid()
      modifies this`current
      ensures Valid()
      ensures matched == (!old(IsAtEnd()) && old(Peek()).kind in types)
      ensures current == if matched then old(current) + 1 else old(current)
    {
      for i := 0 to |types|
        invariant current == old(current)
        invariant forall j | 0 <= j < i :: !Check(types[j])
      {
        if Check(types[i]) {
          var _ := Advance();
          return true;
        }
      }
      return false;
    }

    method Error(token: Token, message: Message)
      modifies this`errors
      ensures errors == old(errors) + [Diagnostic(token, message)]
    {
      errors := errors + [Diagnostic(token, message)];
    }

    method Consume(t: TokenType, message: Message) returns (r: Result<Token>)
      requires Valid() && Asks(message) == Some(t)
      modifies this
      ensures Valid()
      ensures old(Check(t)) ==> r == Ok(old(Peek())) && current == old(current) + 1 && errors == old(errors)
      ensures !old(Check(t)) ==>
                && r.ParseError? && current == old(current) && errors == old(errors) + [Diagnostic(old(Peek()), message)]
    {
      if Check(t) {
        var token := Advance();
        return Ok(token);
      }
      Error(Peek(), message);
      return ParseError;
    }

    /** Discards tokens up to the next statement boundary. */
    method Synchronize()
      requires Valid() && (current > 0 || !IsAtEnd())
      modifies this`current
      ensures Valid()
      ensures old(IsAtEnd()) ==> current == old(current)
      ensures !old(IsAtEnd()) ==>
                && old(current) < current && SyncPoint(tokens, current)
                && forall p | old(current) < p < current :: !SyncPoint(tokens, p)
    {
      var _ := Advance();
      while !IsAtEnd()
        invariant Valid() && 0 < current && old(current) <= current
        invariant old(IsAtEnd()) ==> current == old(current)
        invariant !old(IsAtEnd()) ==> old(current) < current && forall p | old(current) < p < current :: !SyncPoint(tokens, p)
        decreases |tokens| - current
      {
        if Previous().kind == SEMICOLON {
          return;
        }
        if Peek().kind in StatementStarts {
          return;
        }
        var _ := Advance();
      }
    }

    // -- statements ---------------------------------------------------------

    /**
     * Every declaration up to EOF (Parser.java:26-33): the list returned is
     * the run of declarations that spells exactly the tokens read, one entry
     * per declaration, a failed one a null entry backed by its own reports.
     */
    method Parse() returns (statements: seq<Option<Stmt>>, ghost entries: seq<EntrySyntax>)
      requires Valid()
      modifies this
      ensures Valid() && IsAtEnd()
      ensures statements == ListTree(entries)
      ensures ListDerived(tokens, entries, old(current), current, old(errors), errors) == true
      ensures Failures(statements) <= |errors| - |old(errors)|
      ensures ListNamesPlaced(tokens, statements)
    {
      statements, entries := [], [];
      assert errors == errors + [];
      while !IsAtEnd()
        invariant Valid() && old(current) <= current
        invariant statements == ListTree(entries)
        invariant ListDerived(tokens, entries, old(current), current, old(errors), errors) == true
        decreases |tokens| - current
      {
        ghost var mid, middle := current, errors;
        var d, entry := Declaration();
        ListStep(tokens, entries, entry, old(current), mid, current, old(errors), middle, errors);
        statements, entries := statements + [d], entries + [entry];
      }
      FailuresReported(entries);
      ListSpelledNamesPlaced(tokens, entries, old(current), current);
    }

    /**
     * `declaration` (Parser.java:35-44): a declaration or statement, or,
     * after a parse error, a null entry for the grammatical beginning read
     * up to the token `at` that stopped it and the tokens `synchronize`
     * skipped from there to the next statement boundary.
     */
    method Declaration() returns (r: Option<Stmt>, ghost entry: EntrySyntax)
      requires Valid() && !IsAtEnd()
      modifies this
      decreases |tokens| - current, 16
      ensures Valid() && old(current) < current
      ensures r == EntryTree(entry) && EntryDerived(tokens, entry, old(current), current, old(errors), errors) == true
      ensures r.Some? ==> EndsStatement(tokens[current - 1].kind)
      ensures r.None? ==> entry.Skipped? && SyncPoint(tokens, current)
      ensures r.None? ==>
                var at := old(current) + |StmtHaltSpelling(entry.halt)|;
                && at <= current && tokens[at] == entry.stop
                && (at == current <==> tokens[at].kind == EOF)
                && forall p | at < p < current :: !SyncPoint(tokens, p)
    {
      var isVar := Match([VAR]);
      var s: Result<Stmt>;
      ghost var syn: StmtSyntax;
      ghost var halt: StmtHalt;
      if isVar {
        s, syn, halt := VariableDeclaration();
      } else {
        s, syn, halt := Statement();
      }
      if s.Ok? {
        return Some(s.value), Declared(syn);
      }
      ghost var at := current;
      assert at == old(current) + |StmtHaltSpelling(halt)|;
      Synchronize();
      SkippedStep(tokens, halt, old(current), at, current, old(errors), errors);
      return None, Skipped(halt, tokens[at], tokens[at..current]);
    }

    /** A `var` declaration whose `var` has just been consumed (Parser.java:46-56). */
    method VariableDeclaration() returns (r: Result<Stmt>, ghost syn: StmtSyntax, ghost halt: StmtHalt)
      requires Valid() && current > 0 && tokens[current - 1].kind == VAR
      modifies this
      decreases |tokens| - current, 13
      ensures Valid() && StmtOutcome(tokens, r, syn, old(current) - 1, current, old(errors), errors) == true
      ensures r.Ok? ==> syn.VarSyntax?
      ensures r.ParseError? ==>
                && StmtHalted(tokens, halt, old(current) - 1, current, old(errors), errors) == true
                && (halt.NoName? || halt.InVarInitializer? || halt.VarUnended?)
    {
      syn, halt := VarSyntax(Previous(), None), NoName;
      var name := Consume(IDENTIFIER, ExpectVariableName);
      if name.ParseError? {
        NoNameStep(tokens, old(current) - 1, old(errors));
        return ParseError, syn, halt;
      }
      r, syn, halt := VarBody(old(current) - 1, old(errors), name.value);
    }

    /** The rest of a `var` declaration once its name is read: the optional initializer and the `;` (Parser.java:49-55). */
    method VarBody(ghost start: nat, ghost before: seq<Diagnostic>, name: Token) returns (r: Result<Stmt>, ghost syn: StmtSyntax, ghost halt: StmtHalt)
      requires Valid() && current == start + 2 && errors == before
      requires tokens[start].kind == VAR && tokens[start + 1] == name && name.kind == IDENTIFIER
      modifies this
      decreases |tokens| - current, 13
      ensures Valid() && StmtOutcome(tokens, r, syn, start, current, before, errors) == true
      ensures r.Ok? ==> syn.VarSyntax?
      ensures r.ParseError? ==> StmtHalted(tokens, halt, start, current, before, errors) == true && (halt.InVarInitializer? || halt.VarUnended?)
    {
      syn := VarSyntax(name, None);
      ghost var initStart := current;
      var initializer, initSyn, initHalt := VarInitializer();
      halt := InVarInitializer(name, initHalt);
      if initializer.ParseError? {
        VarInitializerHaltStep(tokens, name, initHalt, start, current, before, errors);
        return ParseError, syn, halt;
      }
      ghost var semi, afterInit := current, errors;
      var semicolon := Consume(SEMICOLON, ExpectSemicolonAfterVariable);
      if semicolon.ParseError? {
        VarUnendedStep(tokens, name, initSyn, start, semi, before, afterInit);
        return ParseError, syn, VarUnended(name, initSyn);
      }
      VarStep(tokens, name, initSyn, initializer.value, start, initStart, semi, current, before, errors);
      return Ok(Var(name, initializer.value)), VarSyntax(name, initSyn), halt;
    }

    /**
     * The optional `= expression` of a `var` declaration (Parser.java:49-52);
     * there is none exactly when the next token is not `=`.
     */
    method VarInitializer() returns (r: Result<Option<Expr>>, ghost syn: Option<ExprSyntax>, ghost halt: ExprHalt)
      requires Valid()
      modifies this
      decreases |tokens| - current, 12
      ensures Valid() && old(current) <= current && old(errors) <= errors
      ensures r.ParseError? ==> tokens[old(current)].kind == EQUAL && Halted(tokens, halt, 0, old(current) + 1, current, old(errors), errors) == true
      ensures r.Ok? ==>
                && r.value == OptTree(syn) && OptGrammatical(syn)
                && Consumed(tokens, InitializerSpelling(syn), OptReports(syn), old(current), current, old(errors), errors) == true
                && (syn.None? <==> tokens[old(current)].kind != EQUAL)
                && (if syn.Some? then InfixLevel(tokens[current].kind) < 0 else current == old(current))
    {
      syn, halt := None, NoOperand;
      var hasInitializer := Match([EQUAL]);
      if !hasInitializer {
        assert errors == errors + [];
        return Ok(None), syn, halt;
      }
      var e, eSyn, eHalt := Expression();
      halt := eHalt;
      if e.ParseError? {
        return ParseError, syn, halt;
      }
      InitializerStep(tokens, eSyn, old(current), current, old(errors), errors);
      return Ok(Some(e.value)), Some(eSyn), halt;
    }

    /**
     * `statement` (Parser.java:58-66). A statement that stopped before
     * reading anything stopped at a token that no statement starts with.
     * It is never a declaration, and never stops inside one.
     */
    method Statement() returns (r: Result<Stmt>, ghost syn: StmtSyntax, ghost halt: StmtHalt)
      requires Valid()
      modifies this
      decreases |tokens| - current, 15
      ensures Valid() && StmtOutcome(tokens, r, syn, old(current), current, old(errors), errors) == true
      ensures r.Ok? ==> !syn.VarSyntax?
      ensures r.ParseError? ==>
                && StmtHalted(tokens, halt, old(current), current, old(errors), errors) == true
                && Unaccepted(halt, StatementKeywords, tokens[current].kind) && !DeclarationHalt(halt)
    {
      var m := Match([FOR]);
      if m {
        r, syn, halt := ForStatement();
        return;
      }
      m := Match([IF]);
      if m {
        r, syn, halt := IfStatement();
        return;
      }
      m := Match([PRINT]);
      if m {
        r, syn, halt := PrintStatement();
        return;
      }
      r, syn, halt := OtherStatement();
    }

    /** The last cases of `statement` (Parser.java:62-65), once `for`, `if` and `print` are ruled out. */
    method OtherStatement() returns (r: Result<Stmt>, ghost syn: StmtSyntax, ghost halt: StmtHalt)
      requires Valid() && tokens[current].kind !in {FOR, IF, PRINT}
      modifies this
      decreases |tokens| - current, 14
      ensures Valid() && StmtOutcome(tokens, r, syn, old(current), current, old(errors), errors) == true
      ensures r.Ok? ==> !syn.VarSyntax?
      ensures r.ParseError? ==>
                && StmtHalted(tokens, halt, old(current), current, old(errors), errors) == true
                && Unaccepted(halt, StatementKeywords, tokens[current].kind) && !DeclarationHalt(halt)
    {
      var m := Match([WHILE]);
      if m {
        r, syn, halt := WhileStatement();
        return;
      }
      m := Match([LEFT_BRACE]);
      if m {
        r, syn, halt := BlockStatement();
        return;
      }
      r, syn, halt := ExpressionStatement();
      assert r.ParseError? && halt == InExpressionStmt(NoOperand) ==> current == old(current) + |StmtHaltSpelling(halt)| == old(current);
    }

    /** A block statement whose `{` has just been consumed (Parser.java:63). */
    method BlockStatement() returns (r: Result<Stmt>, ghost syn: StmtSyntax, ghost halt: StmtHalt)
      requires Valid() && current > 0 && tokens[current - 1].kind == LEFT_BRACE
      modifies this
      decreases |tokens| - current, 18
      ensures Valid() && StmtOutcome(tokens, r, syn, old(current) - 1, current, old(errors), errors) == true
      ensures r.Ok? ==> syn.BlockSyntax?
      ensures r.ParseError? ==> StmtHalted(tokens, halt, old(current) - 1, current, old(errors), errors) == true && halt.BlockUnclosed?
    {
      var statements, entries, afterEntries := Block();
      syn, halt := BlockSyntax(entries), BlockUnclosed(entries);
      if statements.ParseError? {
        BlockUnclosedStep(tokens, entries, old(current) - 1, current, old(errors), afterEntries);
        return ParseError, syn, halt;
      }
      BlockStep(tokens, entries, old(current) - 1, current, old(errors), errors);
      return Ok(Stmt.Block(statements.value)), syn, halt;
    }

    /**
     * A `for` loop whose `for` has just been consumed (Parser.java:68-107),
     * returned desugared from the clauses it read. The increment clause is
     * checked for `;` where `)` follows it (Parser.java:87), so every loop
     * read has an increment.
     */
    method ForStatement() returns (r: Result<Stmt>, ghost syn: StmtSyntax, ghost halt: StmtHalt)
      requires Valid() && current > 0 && tokens[current - 1].kind == FOR
      modifies this
      decreases |tokens| - current, 13
      ensures Valid() && StmtOutcome(tokens, r, syn, old(current) - 1, current, old(errors), errors) == true
      ensures r.Ok? ==> syn.ForSyntax? && syn.increment.Some?
      ensures r.Ok? ==>
                r.value == DesugarFor(OptStmtTree(syn.init), OptTree(syn.cond), Some(Tree(syn.increment.value)), StmtTree(syn.body))
      ensures r.ParseError? ==>
                StmtHalted(tokens, halt, old(current) - 1, current, old(errors), errors) == true && (halt.InForHeader? || halt.InForBody?)
    {
      var header, init, cond, inc, headerHalt := ForHeader();
      syn, halt := ForSyntax(init, cond, inc, ExpressionStmtSyntax(LiteralSyntax(NilValue))), InForHeader(headerHalt);
      if header.ParseError? {
        ForHeaderHaltStep(tokens, headerHalt, old(current) - 1, current, old(errors), errors);
        return ParseError, syn, halt;
      }
      var (initializer, condition, increment) := header.value;
      ghost var bodyStart, middle := current, errors;
      var body, bodySyn, bodyHalt := Statement();
      if body.ParseError? {
        ForBodyHaltStep(tokens, init, cond, inc.value, bodyHalt, old(current) - 1, bodyStart, current, old(errors), middle, errors);
        return ParseError, syn, InForBody(init, cond, inc.value, bodyHalt);
      }
      ForStep(tokens, init, cond, inc, bodySyn, old(current) - 1, old(current), bodyStart, current, old(errors), middle, errors);
      return Ok(DesugarFor(initializer, condition, increment, body.value)), ForSyntax(init, cond, inc, bodySyn), halt;
    }

    /**
     * The parenthesised header of a `for` loop (Parser.java:69-90): its
     * initializer, condition and increment clauses as read. The increment
     * is never missing, because only a `;` can close an empty clause.
     */
    method ForHeader() returns (r: Result<(Option<Stmt>, Option<Expr>, Option<Expr>)>,
                                ghost init: Option<StmtSyntax>, ghost cond: Option<ExprSyntax>, ghost inc: Option<ExprSyntax>,
                                ghost halt: HeaderHalt)
      requires Valid()
      modifies this
      decreases |tokens| - current, 12
      ensures Valid() && old(current) <= current && old(errors) <= errors
      ensures r.ParseError? ==> HeaderHalted(tokens, halt, old(current), current, old(errors), errors) == true
      ensures r.Ok? ==>
                && r.value == (OptStmtTree(init), OptTree(cond), OptTree(inc))
                && HeaderDerived(tokens, init, cond, inc, old(current), current, old(errors), errors) == true
                && inc.Some?
    {
      init, cond, inc, halt := None, None, None, HeaderUnopened;
      var open := Consume(LEFT_PAREN, ExpectParenAfterFor);
      if open.ParseError? {
        HeaderUnopenedStep(tokens, old(current), old(errors));
        return ParseError, init, cond, inc, halt;
      }
      var initializer;
      ghost var initHalt;
      initializer, init, initHalt := ForInitializer();
      if initializer.ParseError? {
        InitializerHaltStep(tokens, initHalt, old(current), current, old(errors), errors);
        return ParseError, init, cond, inc, InInitializer(initHalt);
      }
      ConsumedAfter(tokens, Kind(LEFT_PAREN), InitClauseSpelling(init), InitClauseReports(init), old(current), current, old(errors), errors);
      var clauses;
      clauses, cond, inc, halt := LoopClauses(old(current), old(errors), init);
      if clauses.ParseError? {
        return ParseError, init, cond, inc, halt;
      }
      return Ok((initializer.value, clauses.value.0, clauses.value.1)), init, cond, inc, halt;
    }

    /** The condition and increment clauses, after `(` and the initializer clause. */
    method LoopClauses(ghost start: nat, ghost before: seq<Diagnostic>, ghost init: Option<StmtSyntax>)
      returns (r: Result<(Option<Expr>, Option<Expr>)>, ghost cond: Option<ExprSyntax>, ghost inc: Option<ExprSyntax>,
               ghost halt: HeaderHalt)
      requires Valid() && InitClauseGrammatical(init)
      requires Consumed(tokens, [Kind(LEFT_PAREN)] + InitClauseSpelling(init), InitClauseReports(init), start, current, before, errors)
      modifies this
      decreases |tokens| - current, 13
      ensures Valid() && old(current) <= current && old(errors) <= errors
      ensures r.ParseError? ==> HeaderHalted(tokens, halt, start, current, before, errors) == true
      ensures r.Ok? ==>
                && r.value == (OptTree(cond), OptTree(inc))
                && HeaderDerived(tokens, init, cond, inc, start, current, before, errors) == true
                && inc.Some?
    {
      ghost var afterInit := errors;
      var condition;
      ghost var condHalt;
      condition, cond, condHalt := ForClause(SEMICOLON, ExpectSemicolonAfterLoopCondition);
      inc, halt := None, InLoopCondition(init, condHalt);
      if condition.ParseError? {
        LoopConditionHaltStep(tokens, init, condHalt, start, old(current), current, before, afterInit, errors);
        return ParseError, cond, inc, halt;
      }
      ghost var incStart, afterCond := current, errors;
      var increment;
      ghost var incHalt;
      increment, inc, incHalt := ForClause(RIGHT_PAREN, ExpectParenAfterForClauses);
      if increment.ParseError? {
        IncrementHaltStep(tokens, init, cond, incHalt, start, old(current), incStart, current, before, afterInit, afterCond, errors);
        return ParseError, cond, inc, InIncrement(init, cond, incHalt);
      }
      HeaderStep(tokens, init, cond, inc, start, old(current), incStart, current, before, afterInit, afterCond, errors);
      return Ok((condition.value, increment.value)), cond, inc, halt;
    }

    /**
     * The initializer clause of a `for` header (Parser.java:71-78): a lone
     * `;`, a `var` declaration or an expression statement.
     */
    method ForInitializer() returns (r: Result<Option<Stmt>>, ghost syn: Option<StmtSyntax>, ghost halt: StmtHalt)
      requires Valid()
      modifies this
      decreases |tokens| - current, 14
      ensures Valid() && old(current) <= current && old(errors) <= errors
      ensures r.ParseError? ==>
                && InitializerHalt(halt) && StmtHalted(tokens, halt, old(current), current, old(errors), errors) == true
                && Unaccepted(halt, InitializerKeywords, tokens[current].kind)
      ensures r.Ok? ==>
                && r.value == OptStmtTree(syn) && InitClauseGrammatical(syn)
                && Consumed(tokens, InitClauseSpelling(syn), InitClauseReports(syn), old(current), current, old(errors), errors) == true
    {
      syn, halt := None, NoName;
      var m := Match([SEMICOLON]);
      if m {
        assert errors == errors + [];
        return Ok(None), syn, halt;
      }
      m := Match([VAR]);
      var s: Result<Stmt>;
      ghost var stmt: StmtSyntax;
      if m {
        s, stmt, halt := VariableDeclaration();
      } else {
        s, stmt, halt := ExpressionStatement();
        assert s.ParseError? && halt == InExpressionStmt(NoOperand) ==> current == old(current) + |StmtHaltSpelling(halt)| == old(current);
      }
      if s.ParseError? {
        return ParseError, syn, halt;
      }
      InitClauseStep(tokens, s, stmt, old(current), current, old(errors), errors);
      return Ok(Some(s.value)), Some(stmt), halt;
    }

    /**
     * An optional expression clause of a `for` header and the token that
     * closes it (Parser.java:80-90). The clause is empty exactly when the
     * next token is `;`, whatever token closes it, so an empty clause is
     * only accepted where `;` closes it.
     */
    method ForClause(terminator: TokenType, message: Message) returns (r: Result<Option<Expr>>, ghost syn: Option<ExprSyntax>, ghost halt: ClauseHalt)
      requires Valid() && Asks(message) == Some(terminator)
      modifies this
      decreases |tokens| - current, 12
      ensures Valid() && old(current) <= current && old(errors) <= errors
      ensures r.ParseError? ==> ClauseHalted(tokens, halt, terminator, message, old(current), current, old(errors), errors) == true
      ensures r.Ok? ==>
                && r.value == OptTree(syn) && OptGrammatical(syn)
                && Consumed(tokens, ClauseSpelling(syn, terminator), OptReports(syn), old(current), current, old(errors), errors) == true
                && (syn.None? <==> tokens[old(current)].kind == SEMICOLON)
      ensures r.Ok? && syn.None? ==> terminator == SEMICOLON
    {
      syn, halt := None, ClauseUnended(None);
      var clause: Option<Expr> := None;
      if !Check(SEMICOLON) {
        var e, eSyn, eHalt := Expression();
        if e.ParseError? {
          InClauseStep(tokens, eHalt, terminator, message, old(current), current, old(errors), errors);
          return ParseError, syn, InClause(eHalt);
        }
        clause, syn := Some(e.value), Some(eSyn);
      } else {
        assert errors == errors + [];
      }
      ghost var close, afterClause := current, errors;
      var closing := Consume(terminator, message);
      if closing.ParseError? {
        ClauseUnendedStep(tokens, syn, terminator, message, old(current), close, old(errors), afterClause);
        return ParseError, syn, ClauseUnended(syn);
      }
      assert OptReports(syn) + [] == OptReports(syn);
      ConsumedBefore(tokens, OptSpelling(syn), OptReports(syn), Kind(terminator), old(current), close, old(errors), errors);
      return Ok(clause), syn, halt;
    }

    /** A `while` loop whose `while` has just been consumed (Parser.java:109-116). */
    method WhileStatement() returns (r: Result<Stmt>, ghost syn: StmtSyntax, ghost halt: StmtHalt)
      requires Valid() && current > 0 && tokens[current - 1].kind == WHILE
      modifies this
      decreases |tokens| - current, 13
      ensures Valid() && StmtOutcome(tokens, r, syn, old(current) - 1, current, old(errors), errors) == true
      ensures r.Ok? ==> syn.WhileSyntax?
      ensures r.ParseError? ==>
                StmtHalted(tokens, halt, old(current) - 1, current, old(errors), errors) == true && (halt.InWhileCondition? || halt.InWhileBody?)
    {
      var condition, condSyn, condHalt := Condition(ExpectParenAfterWhile, ExpectParenAfterWhileCondition);
      syn, halt := WhileSyntax(condSyn, ExpressionStmtSyntax(condSyn)), InWhileCondition(condHalt);
      if condition.ParseError? {
        WhileConditionHaltStep(tokens, condHalt, old(current) - 1, current, old(errors), errors);
        return ParseError, syn, halt;
      }
      ghost var bodyStart, middle := current, errors;
      var body, bodySyn, bodyHalt := Statement();
      if body.ParseError? {
        WhileBodyHaltStep(tokens, condSyn, bodyHalt, old(current) - 1, bodyStart, current, old(errors), middle, errors);
        return ParseError, syn, InWhileBody(condSyn, bodyHalt);
      }
      WhileStep(tokens, condSyn, bodySyn, old(current) - 1, bodyStart, current, old(errors), middle, errors);
      return Ok(While(condition.value, body.value)), WhileSyntax(condSyn, bodySyn), halt;
    }

    /**
     * An `if` statement whose `if` has just been consumed (Parser.java:118-131).
     * An `else` binds to the nearest `if`: a statement without an else
     * branch stops before any `else`.
     */
    method IfStatement() returns (r: Result<Stmt>, ghost syn: StmtSyntax, ghost halt: StmtHalt)
      requires Valid() && current > 0 && tokens[current - 1].kind == IF
      modifies this
      decreases |tokens| - current, 17
      ensures Valid() && StmtOutcome(tokens, r, syn, old(current) - 1, current, old(errors), errors) == true
      ensures r.Ok? ==> syn.IfSyntax? && (syn.elseBranch.None? ==> tokens[current].kind != ELSE)
      ensures r.ParseError? ==>
                && StmtHalted(tokens, halt, old(current) - 1, current, old(errors), errors) == true
                && (halt.InIfCondition? || halt.InThen? || halt.InElse?)
    {
      var condition, condSyn, condHalt := Condition(ExpectParenAfterIf, ExpectParenAfterIfCondition);
      if condition.ParseError? {
        IfConditionHaltStep(tokens, condHalt, old(current) - 1, current, old(errors), errors);
        return ParseError, ExpressionStmtSyntax(condSyn), InIfCondition(condHalt);
      }
      r, syn, halt := IfBranches(old(current) - 1, condition.value, condSyn, old(errors));
    }

    /** The then branch and the optional else branch of an `if` statement whose condition is read (Parser.java:122-131). */
    method IfBranches(ghost start: nat, condition: Expr, ghost condSyn: ExprSyntax, ghost before: seq<Diagnostic>)
      returns (r: Result<Stmt>, ghost syn: StmtSyntax, ghost halt: StmtHalt)
      requires Valid() && start < current && tokens[start].kind == IF
      requires condition == Tree(condSyn) && Grammatical(condSyn) == true
      requires Consumed(tokens, Parenthesized(Spelling(condSyn)), Reports(condSyn), start + 1, current, before, errors) == true
      modifies this
      decreases |tokens| - current, 16
      ensures Valid() && StmtOutcome(tokens, r, syn, start, current, before, errors) == true
      ensures r.Ok? ==> syn.IfSyntax? && (syn.elseBranch.None? ==> tokens[current].kind != ELSE)
      ensures r.ParseError? ==> StmtHalted(tokens, halt, start, current, before, errors) == true && (halt.InThen? || halt.InElse?)
    {
      ghost var thenStart, afterCondition := current, errors;
      var thenBranch, thenSyn, thenHalt := Statement();
      if thenBranch.ParseError? {
        ThenHaltStep(tokens, condSyn, thenHalt, start, thenStart, current, before, afterCondition, errors);
        return ParseError, ExpressionStmtSyntax(condSyn), InThen(condSyn, thenHalt);
      }
      r, syn, halt := IfElse(start, condition, condSyn, thenBranch, thenSyn, thenStart, before, afterCondition);
    }

    /** The optional else branch of an `if` statement whose then branch is read (Parser.java:124-131). */
    method IfElse(ghost start: nat, condition: Expr, ghost condSyn: ExprSyntax, thenBranch: Result<Stmt>, ghost thenSyn: StmtSyntax,
                  ghost thenStart: nat, ghost before: seq<Diagnostic>, ghost afterCondition: seq<Diagnostic>)
      returns (r: Result<Stmt>, ghost syn: StmtSyntax, ghost halt: StmtHalt)
      requires Valid() && start < thenStart <= current && tokens[start].kind == IF
      requires condition == Tree(condSyn) && Grammatical(condSyn) == true
      requires Consumed(tokens, Parenthesized(Spelling(condSyn)), Reports(condSyn), start + 1, thenStart, before, afterCondition) == true
      requires thenBranch.Ok? && StmtOutcome(tokens, thenBranch, thenSyn, thenStart, current, afterCondition, errors) == true
      requires !thenSyn.VarSyntax?
      modifies this
      decreases |tokens| - current, 13
      ensures Valid() && StmtOutcome(tokens, r, syn, start, current, before, errors) == true
      ensures r.Ok? ==> syn.IfSyntax? && (syn.elseBranch.None? ==> tokens[current].kind != ELSE)
      ensures r.ParseError? ==> StmtHalted(tokens, halt, start, current, before, errors) == true && halt.InElse?
    {
      ghost var thenEnd, afterThen := current, errors;
      var elseBranch, elseSyn, elseHalt := ElseBranch();
      if elseBranch.ParseError? {
        OkDerived(tokens, thenBranch, thenSyn, thenStart, thenEnd, afterCondition, afterThen);
        ElseHaltStep(tokens, condSyn, thenSyn, elseHalt, start, thenStart, thenEnd, current,
                     before, afterCondition, afterThen, errors);
        return ParseError, ExpressionStmtSyntax(condSyn), InElse(condSyn, thenSyn, elseHalt);
      }
      IfStep(tokens, condSyn, thenSyn, elseSyn, condition, thenBranch, elseBranch.value, start, thenStart, thenEnd, current,
             before, afterCondition, afterThen, errors);
      return Ok(If(condition, thenBranch.value, elseBranch.value)), IfSyntax(condSyn, thenSyn, elseSyn), elseHalt;
    }

    /** The optional `else` branch of an `if` statement (Parser.java:124-128). */
    method ElseBranch() returns (r: Result<Option<Stmt>>, ghost syn: Option<StmtSyntax>, ghost halt: StmtHalt)
      requires Valid()
      modifies this
      decreases |tokens| - current, 12
      ensures Valid() && old(current) <= current && old(errors) <= errors
      ensures r.ParseError? ==>
                && tokens[old(current)].kind == ELSE && StmtHalted(tokens, halt, old(current) + 1, current, old(errors), errors) == true
                && Unaccepted(halt, StatementKeywords, tokens[current].kind) && !DeclarationHalt(halt)
      ensures r.Ok? ==> r.value == OptStmtTree(syn) && ElseDerived(tokens, syn, old(current), current, old(errors), errors) == true
      ensures r.Ok? && syn.None? ==> current == old(current) && errors == old(errors) && tokens[current].kind != ELSE
    {
      syn, halt := None, NoName;
      var hasElse := Match([ELSE]);
      if !hasElse {
        assert errors == errors + [];
        return Ok(None), syn, halt;
      }
      ghost var bodyStart := current;
      var e, eSyn, eHalt := Statement();
      halt := eHalt;
      if e.ParseError? {
        return ParseError, syn, halt;
      }
      ElseStep(tokens, eSyn, e, old(current), bodyStart, current, old(errors), errors);
      return Ok(Some(e.value)), Some(eSyn), halt;
    }

    /**
     * A parenthesised condition (Parser.java:110-112 for `while`,
     * Parser.java:119-121 for `if`), with the messages for a missing `(`
     * and a missing `)`.
     */
    method Condition(openMessage: Message, closeMessage: Message) returns (r: Result<Expr>, ghost syn: ExprSyntax, ghost halt: CondHalt)
      requires Valid() && Asks(openMessage) == Some(LEFT_PAREN) && Asks(closeMessage) == Some(RIGHT_PAREN)
      modifies this
      decreases |tokens| - current, 12
      ensures Valid() && old(current) <= current && old(errors) <= errors
      ensures r.ParseError? ==> CondHalted(tokens, halt, openMessage, closeMessage, old(current), current, old(errors), errors) == true
      ensures r.Ok? ==>
                && r.value == Tree(syn) && Grammatical(syn) == true
                && Consumed(tokens, Parenthesized(Spelling(syn)), Reports(syn), old(current), current, old(errors), errors) == true
    {
      syn, halt := LiteralSyntax(NilValue), Unopened;
      var open := Consume(LEFT_PAREN, openMessage);
      if open.ParseError? {
        UnopenedStep(tokens, openMessage, closeMessage, old(current), old(errors));
        return ParseError, syn, halt;
      }
      r, syn, halt := ConditionBody(openMessage, closeMessage);
    }

    /** The condition and its `)` once the `(` is consumed. */
    method ConditionBody(ghost openMessage: Message, closeMessage: Message) returns (r: Result<Expr>, ghost syn: ExprSyntax, ghost halt: CondHalt)
      requires Valid() && current > 0 && tokens[current - 1].kind == LEFT_PAREN && Asks(closeMessage) == Some(RIGHT_PAREN)
      modifies this
      decreases |tokens| - current, 12
      ensures Valid() && old(current) <= current && old(errors) <= errors
      ensures r.ParseError? ==> CondHalted(tokens, halt, openMessage, closeMessage, old(current) - 1, current, old(errors), errors) == true
      ensures r.Ok? ==>
                && r.value == Tree(syn) && Grammatical(syn) == true
                && Consumed(tokens, Parenthesized(Spelling(syn)), Reports(syn), old(current) - 1, current, old(errors), errors) == true
    {
      var condition;
      ghost var condHalt;
      condition, syn, condHalt := Expression();
      halt := InCondition(condHalt);
      if condition.ParseError? {
        InConditionStep(tokens, condHalt, openMessage, closeMessage, old(current) - 1, current, old(errors), errors);
        return ParseError, syn, halt;
      }
      ghost var close, afterCondition := current, errors;
      var closing := Consume(RIGHT_PAREN, closeMessage);
      if closing.ParseError? {
        CondUnclosedStep(tokens, syn, openMessage, closeMessage, old(current) - 1, close, old(errors), afterCondition);
        return ParseError, syn, CondUnclosed(syn);
      }
      ConditionStep(tokens, syn, old(current) - 1, close, old(errors), errors);
      return Ok(condition.value), syn, halt;
    }

    /**
     * The declarations of a block whose `{` has been consumed, up to and
     * including its `}` (Parser.java:133-143). The loop runs up to `}` or
     * EOF, so the `}` can only be missing at the end of the input;
     * `afterEntries` are the reports made before that last one.
     */
    method Block() returns (r: Result<seq<Option<Stmt>>>, ghost entries: seq<EntrySyntax>, ghost afterEntries: seq<Diagnostic>)
      requires Valid()
      modifies this
      decreases |tokens| - current, 17
      ensures Valid() && old(current) <= current && old(errors) <= errors
      ensures r.ParseError? ==>
                && tokens[current].kind == EOF
                && ListDerived(tokens, entries, old(current), current, old(errors), afterEntries) == true
                && errors == afterEntries + [Diagnostic(tokens[current], ExpectBraceAfterBlock)]
      ensures r.Ok? ==>
                && r.value == ListTree(entries) && ListGrammatical(entries)
                && Consumed(tokens, ListSpelling(entries) + [Kind(RIGHT_BRACE)], ListReports(entries),
                            old(current), current, old(errors), errors)
    {
      var statements: seq<Option<Stmt>> := [];
      entries := [];
      assert errors == errors + [];
      while !Check(RIGHT_BRACE) && !IsAtEnd()
        invariant Valid() && old(current) <= current
        invariant statements == ListTree(entries)
        invariant ListDerived(tokens, entries, old(current), current, old(errors), errors) == true
        decreases |tokens| - current
      {
        ghost var mid, middle := current, errors;
        var d, entry := Declaration();
        ListStep(tokens, entries, entry, old(current), mid, current, old(errors), middle, errors);
        statements, entries := statements + [d], entries + [entry];
      }
      ghost var close := current;
      afterEntries := errors;
      var closing := Consume(RIGHT_BRACE, ExpectBraceAfterBlock);
      if closing.ParseError? {
        return ParseError, entries, afterEntries;
      }
      ConsumedBefore(tokens, ListSpelling(entries), ListReports(entries), Kind(RIGHT_BRACE), old(current), close, old(errors), errors);
      return Ok(statements), entries, afterEntries;
    }

    /** A `print` statement whose `print` has just been consumed (Parser.java:145-149). */
    method PrintStatement() returns (r: Result<Stmt>, ghost syn: StmtSyntax, ghost halt: StmtHalt)
      requires Valid() && current > 0 && tokens[current - 1].kind == PRINT
      modifies this
      decreases |tokens| - current, 13
      ensures Valid() && StmtOutcome(tokens, r, syn, old(current) - 1, current, old(errors), errors) == true
      ensures r.Ok? ==> syn.PrintSyntax?
      ensures r.ParseError? ==>
                StmtHalted(tokens, halt, old(current) - 1, current, old(errors), errors) == true && (halt.InPrint? || halt.PrintUnended?)
    {
      var value, valueSyn, valueHalt := Expression();
      syn, halt := PrintSyntax(valueSyn), InPrint(valueHalt);
      if value.ParseError? {
        PrintHaltStep(tokens, valueHalt, old(current) - 1, current, old(errors), errors);
        return ParseError, syn, halt;
      }
      ghost var semi, afterValue := current, errors;
      var semicolon := Consume(SEMICOLON, ExpectSemicolonAfterValue);
      if semicolon.ParseError? {
        PrintUnendedStep(tokens, valueSyn, old(current) - 1, semi, old(errors), afterValue);
        return ParseError, syn, PrintUnended(valueSyn);
      }
      PrintStep(tokens, valueSyn, old(current) - 1, semi, old(errors), errors);
      return Ok(Print(value.value)), syn, halt;
    }

    /** `expression ;` (Parser.java:151-155). */
    method ExpressionStatement() returns (r: Result<Stmt>, ghost syn: StmtSyntax, ghost halt: StmtHalt)
      requires Valid()
      modifies this
      decreases |tokens| - current, 13
      ensures Valid() && StmtOutcome(tokens, r, syn, old(current), current, old(errors), errors) == true
      ensures r.Ok? ==> syn.ExpressionStmtSyntax?
      ensures r.ParseError? ==>
                StmtHalted(tokens, halt, old(current), current, old(errors), errors) == true && (halt.InExpressionStmt? || halt.ExpressionUnended?)
    {
      var expr, exprSyn, exprHalt := Expression();
      syn, halt := ExpressionStmtSyntax(exprSyn), InExpressionStmt(exprHalt);
      if expr.ParseError? {
        ExpressionStmtHaltStep(tokens, exprHalt, old(current), current, old(errors), errors);
        return ParseError, syn, halt;
      }
      ghost var semi, afterExpr := current, errors;
      var semicolon := Consume(SEMICOLON, ExpectSemicolonAfterValue);
      if semicolon.ParseError? {
        ExpressionUnendedStep(tokens, exprSyn, old(current), semi, old(errors), afterExpr);
        return ParseError, syn, ExpressionUnended(exprSyn);
      }
      ExpressionStmtStep(tokens, exprSyn, old(current), semi, old(errors), errors);
      return Ok(Stmt.Expression(expr.value)), syn, halt;
    }

    // -- expressions --------------------------------------------------------

    /** `expression` (Parser.java:189-191). */
    method Expression() returns (r: Result<Expr>, ghost syn: ExprSyntax, ghost halt: ExprHalt)
      requires Valid()
      modifies this
      decreases |tokens| - current, 11
      ensures Valid() && Outcome(tokens, r, syn, 0, old(current), current, old(errors), errors) == true
      ensures r.ParseError? ==> Halted(tokens, halt, 0, old(current), current, old(errors), errors) == true
    {
      r, syn, halt := Assignment();
    }

    /**
     * Right-associative assignment (Parser.java:193-209). A left side that is
     * not a name is reported at its `=` without failing: the value is read
     * and dropped, and the left side itself is the result.
     */
    method Assignment() returns (r: Result<Expr>, ghost syn: ExprSyntax, ghost halt: ExprHalt)
      requires Valid()
      modifies this
      decreases |tokens| - current, 10
      ensures Valid() && Outcome(tokens, r, syn, 0, old(current), current, old(errors), errors) == true
      ensures r.ParseError? ==> Halted(tokens, halt, 0, old(current), current, old(errors), errors) == true
      ensures r.Ok? && syn.InvalidAssignSyntax? ==>
                var eq := old(current) + |Spelling(syn.target)|;
                && r.value == Tree(syn.target) && !r.value.Variable?
                && eq < current && tokens[eq] == syn.equals && syn.equals.kind == EQUAL
                && Derived(tokens, syn.target, 1, old(current), eq, old(errors), old(errors) + Reports(syn.target)) == true
                && errors == old(errors) + Reports(syn.target) + Reports(syn.value) + [Diagnostic(syn.equals, InvalidAssignmentTarget)]
    {
      var left, leftSyn, leftHalt := Or();
      halt := leftHalt;
      if left.ParseError? {
        HaltLoosened(tokens, leftHalt, 1, 0, old(current), current, old(errors), errors);
        return ParseError, leftSyn, halt;
      }
      var expr := left.value;
      ghost var eq, middle := current, errors;
      OperatorsAt(Peek().kind, 0);
      var isAssignment := Match([EQUAL]);
      if isAssignment {
        var equals := Previous();
        ghost var valueStart := current;
        var value, valueSyn, valueHalt := Assignment();
        if value.ParseError? {
          InValueStep(tokens, leftSyn, equals, valueHalt, old(current), eq, current, old(errors), middle, errors);
          return ParseError, valueSyn, InValue(leftSyn, equals, valueHalt);
        }
        if expr.Variable? {
          AssignStep(tokens, leftSyn, valueSyn, left, value, old(current), eq, valueStart, current, old(errors), middle, errors);
          return Ok(Assign(expr.id, expr.name, value.value)), AssignSyntax(old(current), expr.name, valueSyn), halt;
        }
        InvalidTargetStep(tokens, leftSyn, equals, valueSyn, left, value, old(current), eq, valueStart, current, old(errors), middle, errors);
        Error(equals, InvalidAssignmentTarget);
        return Ok(expr), InvalidAssignSyntax(leftSyn, equals, valueSyn), halt;
      }
      StopStep(tokens, leftSyn, 0, old(current), current, old(errors), errors);
      return Ok(expr), leftSyn, halt;
    }

    /** `or` (Parser.java:211-221). */
    method Or() returns (r: Result<Expr>, ghost syn: ExprSyntax, ghost halt: ExprHalt)
      requires Valid()
      modifies this
      decreases |tokens| - current, 9
      ensures Valid() && Outcome(tokens, r, syn, 1, old(current), current, old(errors), errors) == true
      ensures r.ParseError? ==> Halted(tokens, halt, 1, old(current), current, old(errors), errors) == true
    {
      var left;
      left, syn, halt := And();
      if left.ParseError? {
        HaltLoosened(tokens, halt, 2, 1, old(current), current, old(errors), errors);
        return ParseError, syn, halt;
      }
      r, syn, halt := OrRest(old(current), left.value, syn, old(errors));
    }

    /** The loop of `or` (Parser.java:214-218), once its first operand `expr` is read from `start`. */
    method OrRest(ghost start: nat, expr: Expr, ghost exprSyn: ExprSyntax, ghost before: seq<Diagnostic>)
      returns (r: Result<Expr>, ghost syn: ExprSyntax, ghost halt: ExprHalt)
      requires Valid() && start <= current
      requires expr == Tree(exprSyn) && Derived(tokens, exprSyn, 2, start, current, before, errors)
      requires InfixLevel(tokens[current].kind) < 2
      modifies this
      decreases |tokens| - current, 8
      ensures Valid() && Outcome(tokens, r, syn, 1, start, current, before, errors) == true
      ensures r.ParseError? ==> Halted(tokens, halt, 1, start, current, before, errors) == true
    {
      var expr := expr;
      syn, halt := exprSyn, NoOperand;
      ghost var end := current;
      NextOperator(Peek().kind, 1);
      var more := Match([OR]);
      while more
        invariant Valid() && start <= end <= current && before <= errors
        invariant expr == Tree(syn) && Derived(tokens, syn, 1, start, end, before, errors) == true
        invariant more ==> current == end + 1 && InfixLevel(tokens[end].kind) == 1
        invariant !more ==> current == end && InfixLevel(Peek().kind) < 1
        decreases |tokens| - current + if more then 1 else 0
      {
        var operator := Previous();
        ghost var rightStart, middle := current, errors;
        var right, rightSyn, rightHalt := And();
        if right.ParseError? {
          InRightStep(tokens, syn, operator, rightHalt, 1, start, end, current, before, middle, errors);
          return ParseError, rightSyn, InRight(syn, operator, rightHalt);
        }
        LogicalStep(tokens, syn, operator, rightSyn, 1, start, end, rightStart, current, before, middle, errors);
        expr, syn := Logical(expr, operator, right.value), LogicalSyntax(syn, operator, rightSyn);
        end := current;
        NextOperator(Peek().kind, 1);
        more := Match([OR]);
      }
      StopStep(tokens, syn, 1, start, current, before, errors);
      return Ok(expr), syn, halt;
    }

    /** `and` (Parser.java:223-233). */
    method And() returns (r: Result<Expr>, ghost syn: ExprSyntax, ghost halt: ExprHalt)
      requires Valid()
      modifies this
      decreases |tokens| - current, 8
      ensures Valid() && Outcome(tokens, r, syn, 2, old(current), current, old(errors), errors) == true
      ensures r.ParseError? ==> Halted(tokens, halt, 2, old(current), current, old(errors), errors) == true
    {
      var left;
      left, syn, halt := Equality();
      if left.ParseError? {
        HaltLoosened(tokens, halt, 3, 2, old(current), current, old(errors), errors);
        return ParseError, syn, halt;
      }
      var expr := left.value;
      ghost var end := current;
      NextOperator(Peek().kind, 2);
      var more := Match([AND]);
      while more
        invariant Valid() && old(current) <= end <= current && old(errors) <= errors
        invariant expr == Tree(syn) && Derived(tokens, syn, 2, old(current), end, old(errors), errors) == true
        invariant more ==> current == end + 1 && InfixLevel(tokens[end].kind) == 2
        invariant !more ==> current == end && InfixLevel(Peek().kind) < 2
        decreases |tokens| - current + if more then 1 else 0
      {
        var operator := Previous();
        ghost var rightStart, middle := current, errors;
        var right, rightSyn, rightHalt := Equality();
        if right.ParseError? {
          InRightStep(tokens, syn, operator, rightHalt, 2, old(current), end, current, old(errors), middle, errors);
          return ParseError, rightSyn, InRight(syn, operator, rightHalt);
        }
        LogicalStep(tokens, syn, operator, rightSyn, 2, old(current), end, rightStart, current, old(errors), middle, errors);
        expr, syn := Logical(expr, operator, right.value), LogicalSyntax(syn, operator, rightSyn);
        end := current;
        NextOperator(Peek().kind, 2);
        more := Match([AND]);
      }
      StopStep(tokens, syn, 2, old(current), current, old(errors), errors);
      return Ok(expr), syn, halt;
    }

    /** `equality` (Parser.java:235-245). */
    method Equality() returns (r: Result<Expr>, ghost syn: ExprSyntax, ghost halt: ExprHalt)
      requires Valid()
      modifies this
      decreases |tokens| - current, 7
      ensures Valid() && Outcome(tokens, r, syn, 3, old(current), current, old(errors), errors) == true
      ensures r.ParseError? ==> Halted(tokens, halt, 3, old(current), current, old(errors), errors) == true
    {
      var left;
      left, syn, halt := Comparison();
      if left.ParseError? {
        HaltLoosened(tokens, halt, 4, 3, old(current), current, old(errors), errors);
        return ParseError, syn, halt;
      }
      var expr := left.value;
      ghost var end := current;
      NextOperator(Peek().kind, 3);
      var more := Match([BANG_EQUAL, EQUAL_EQUAL]);
      while more
        invariant Valid() && old(current) <= end <= current && old(errors) <= errors
        invariant expr == Tree(syn) && Derived(tokens, syn, 3, old(current), end, old(errors), errors) == true
        invariant more ==> current == end + 1 && InfixLevel(tokens[end].kind) == 3
        invariant !more ==> current == end && InfixLevel(Peek().kind) < 3
        decreases |tokens| - current + if more then 1 else 0
      {
        var operator := Previous();
        ghost var rightStart, middle := current, errors;
        var right, rightSyn, rightHalt := Comparison();
        if right.ParseError? {
          InRightStep(tokens, syn, operator, rightHalt, 3, old(current), end, current, old(errors), middle, errors);
          return ParseError, rightSyn, InRight(syn, operator, rightHalt);
        }
        BinaryStep(tokens, syn, operator, rightSyn, 3, old(current), end, rightStart, current, old(errors), middle, errors);
        expr, syn := Binary(expr, operator, right.value), BinarySyntax(syn, operator, rightSyn);
        end := current;
        NextOperator(Peek().kind, 3);
        more := Match([BANG_EQUAL, EQUAL_EQUAL]);
      }
      StopStep(tokens, syn, 3, old(current), current, old(errors), errors);
      return Ok(expr), syn, halt;
    }

    /** `comparison` (Parser.java:247-257). */
    method Comparison() returns (r: Result<Expr>, ghost syn: ExprSyntax, ghost halt: ExprHalt)
      requires Valid()
      modifies this
      decreases |tokens| - current, 6
      ensures Valid() && Outcome(tokens, r, syn, 4, old(current), current, old(errors), errors) == true
      ensures r.ParseError? ==> Halted(tokens, halt, 4, old(current), current, old(errors), errors) == true
    {
      var left;
      left, syn, halt := Term();
      if left.ParseError? {
        HaltLoosened(tokens, halt, 5, 4, old(current), current, old(errors), errors);
        return ParseError, syn, halt;
      }
      var expr := left.value;
      ghost var end := current;
      NextOperator(Peek().kind, 4);
      var more := Match([GREATER, GREATER_EQUAL, LESS, LESS_EQUAL]);
      while more
        invariant Valid() && old(current) <= end <= current && old(errors) <= errors
        invariant expr == Tree(syn) && Derived(tokens, syn, 4, old(current), end, old(errors), errors) == true
        invariant more ==> current == end + 1 && InfixLevel(tokens[end].kind) == 4
        invariant !more ==> current == end && InfixLevel(Peek().kind) < 4
        decreases |tokens| - current + if more then 1 else 0
      {
        var operator := Previous();
        ghost var rightStart, middle := current, errors;
        var right, rightSyn, rightHalt := Term();
        if right.ParseError? {
          InRightStep(tokens, syn, operator, rightHalt, 4, old(current), end, current, old(errors), middle, errors);
          return ParseError, rightSyn, InRight(syn, operator, rightHalt);
        }
        BinaryStep(tokens, syn, operator, rightSyn, 4, old(current), end, rightStart, current, old(errors), middle, errors);
        expr, syn := Binary(expr, operator, right.value), BinarySyntax(syn, operator, rightSyn);
        end := current;
        NextOperator(Peek().kind, 4);
        more := Match([GREATER, GREATER_EQUAL, LESS, LESS_EQUAL]);
      }
      StopStep(tokens, syn, 4, old(current), current, old(errors), errors);
      return Ok(expr), syn, halt;
    }

    /** `term` (Parser.java:259-269). */
    method Term() returns (r: Result<Expr>, ghost syn: ExprSyntax, ghost halt: ExprHalt)
      requires Valid()
      modifies this
      decreases |tokens| - current, 5
      ensures Valid() && Outcome(tokens, r, syn, 5, old(current), current, old(errors), errors) == true
      ensures r.ParseError? ==> Halted(tokens, halt, 5, old(current), current, old(errors), errors) == true
    {
      var left;
      left, syn, halt := Factor();
      if left.ParseError? {
        HaltLoosened(tokens, halt, 6, 5, old(current), current, old(errors), errors);
        return ParseError, syn, halt;
      }
      var expr := left.value;
      ghost var end := current;
      NextOperator(Peek().kind, 5);
      var more := Match([PLUS, MINUS]);
      while more
        invariant Valid() && old(current) <= end <= current && old(errors) <= errors
        invariant expr == Tree(syn) && Derived(tokens, syn, 5, old(current), end, old(errors), errors) == true
        invariant more ==> current == end + 1 && InfixLevel(tokens[end].kind) == 5
        invariant !more ==> current == end && InfixLevel(Peek().kind) < 5
        decreases |tokens| - current + if more then 1 else 0
      {
        var operator := Previous();
        ghost var rightStart, middle := current, errors;
        var right, rightSyn, rightHalt := Factor();
        if right.ParseError? {
          InRightStep(tokens, syn, operator, rightHalt, 5, old(current), end, current, old(errors), middle, errors);
          return ParseError, rightSyn, InRight(syn, operator, rightHalt);
        }
        BinaryStep(tokens, syn, operator, rightSyn, 5, old(current), end, rightStart, current, old(errors), middle, errors);
        expr, syn := Binary(expr, operator, right.value), BinarySyntax(syn, operator, rightSyn);
        end := current;
        NextOperator(Peek().kind, 5);
        more := Match([PLUS, MINUS]);
      }
      StopStep(tokens, syn, 5, old(current), current, old(errors), errors);
      return Ok(expr), syn, halt;
    }

    /** `factor` (Parser.java:271-281). */
    method Factor() returns (r: Result<Expr>, ghost syn: ExprSyntax, ghost halt: ExprHalt)
      requires Valid()
      modifies this
      decreases |tokens| - current, 4
      ensures Valid() && Outcome(tokens, r, syn, 6, old(current), current, old(errors), errors) == true
      ensures r.ParseError? ==> Halted(tokens, halt, 6, old(current), current, old(errors), errors) == true
    {
      var left;
      left, syn, halt := Ternary();
      if left.ParseError? {
        HaltLoosened(tokens, halt, 7, 6, old(current), current, old(errors), errors);
        return ParseError, syn, halt;
      }
      var expr := left.value;
      ghost var end := current;
      NextOperator(Peek().kind, 6);
      var more := Match([STAR, SLASH]);
      while more
        invariant Valid() && old(current) <= end <= current && old(errors) <= errors
        invariant expr == Tree(syn) && Derived(tokens, syn, 6, old(current), end, old(errors), errors) == true
        invariant more ==> current == end + 1 && InfixLevel(tokens[end].kind) == 6
        invariant !more ==> current == end && InfixLevel(Peek().kind) < 6
        decreases |tokens| - current + if more then 1 else 0
      {
        var operator := Previous();
        ghost var rightStart, middle := current, errors;
        var right, rightSyn, rightHalt := Ternary();
        if right.ParseError? {
          InRightStep(tokens, syn, operator, rightHalt, 6, old(current), end, current, old(errors), middle, errors);
          return ParseError, rightSyn, InRight(syn, operator, rightHalt);
        }
        BinaryStep(tokens, syn, operator, rightSyn, 6, old(current), end, rightStart, current, old(errors), middle, errors);
        expr, syn := Binary(expr, operator, right.value), BinarySyntax(syn, operator, rightSyn);
        end := current;
        NextOperator(Peek().kind, 6);
        more := Match([STAR, SLASH]);
      }
      StopStep(tokens, syn, 6, old(current), current, old(errors), errors);
      return Ok(expr), syn, halt;
    }

    /**
     * `condition ? mid : right` (Parser.java:283-296). The loop runs at most
     * once: a ternary branch never stops in front of a `?`.
     */
    method Ternary() returns (r: Result<Expr>, ghost syn: ExprSyntax, ghost halt: ExprHalt)
      requires Valid()
      modifies this
      decreases |tokens| - current, 3
      ensures Valid() && Outcome(tokens, r, syn, 7, old(current), current, old(errors), errors) == true
      ensures r.ParseError? ==> Halted(tokens, halt, 7, old(current), current, old(errors), errors) == true
    {
      var left;
      left, syn, halt := Unary();
      if left.ParseError? {
        HaltLoosened(tokens, halt, 8, 7, old(current), current, old(errors), errors);
        return ParseError, syn, halt;
      }
      var expr := left.value;
      ghost var end := current;
      OperatorsAt(Peek().kind, 7);
      var more := Match([QUESTION]);
      while more
        invariant Valid() && old(current) <= end <= current && old(errors) <= errors
        invariant expr == Tree(syn) && Derived(tokens, syn, 7, old(current), end, old(errors), errors) == true
        invariant more ==> current == end + 1 && tokens[end].kind == QUESTION
        invariant more ==> Derived(tokens, syn, 8, old(current), end, old(errors), errors) == true
        invariant !more ==> current == end && InfixLevel(Peek().kind) < 7
        decreases |tokens| - current + if more then 1 else 0
      {
        var rest, restSyn, restHalt := TernaryRest(old(current), expr, syn, old(errors));
        if rest.ParseError? {
          return ParseError, restSyn, restHalt;
        }
        expr, syn := rest.value, restSyn;
        end := current;
        OperatorsAt(Peek().kind, 7);
        more := Match([QUESTION]);
      }
      StopStep(tokens, syn, 7, old(current), current, old(errors), errors);
      return Ok(expr), syn, halt;
    }

    /**
     * One round of the ternary loop (Parser.java:286-293): `condition`, read
     * from `start` up to the `?` just consumed, with its two branches.
     */
    method TernaryRest(ghost start: nat, condition: Expr, ghost condSyn: ExprSyntax, ghost before: seq<Diagnostic>)
      returns (r: Result<Expr>, ghost syn: ExprSyntax, ghost halt: ExprHalt)
      requires Valid() && start < current && tokens[current - 1].kind == QUESTION
      requires condition == Tree(condSyn) && Derived(tokens, condSyn, 8, start, current - 1, before, errors)
      modifies this
      decreases |tokens| - current, 5
      ensures Valid() && old(current) <= current && old(errors) <= errors
      ensures r.ParseError? ==> Halted(tokens, halt, 7, start, current, before, errors) == true
      ensures r.Ok? ==>
                && r.value == Tree(syn) && syn.TernarySyntax? && syn.condition == condSyn
                && Derived(tokens, syn, 7, start, current, before, errors) == true && InfixLevel(tokens[current].kind) < 7
    {
      syn := condSyn;
      var question := Previous();
      ghost var afterCondition := errors;
      ghost var midStart := current;
      var branches;
      ghost var midSyn, rightSyn, colonAt, afterMid;
      branches, midSyn, rightSyn, colonAt, afterMid, halt := TernaryBranches(start, condSyn, question, before);
      if branches.ParseError? {
        return ParseError, syn, halt;
      }
      var (mid, colon, right) := branches.value;
      TernaryStep(tokens, condSyn, question, midSyn, colon, rightSyn, start, midStart - 1, colonAt, current,
                  before, afterCondition, afterMid, errors);
      return Ok(Expr.Ternary(condition, question, mid, colon, right)), TernarySyntax(condSyn, question, midSyn, colon, rightSyn), halt;
    }

    /**
     * The two branches of a ternary whose `?` has just been consumed, and the
     * `:` between them (Parser.java:288-291). `colonAt` is where the `:`
     * stands and `afterMid` the reports made before it; a failure is stated
     * for the whole ternary, read from `start`.
     */
    method TernaryBranches(ghost start: nat, ghost condSyn: ExprSyntax, ghost question: Token, ghost before: seq<Diagnostic>)
      returns (r: Result<(Expr, Token, Expr)>, ghost midSyn: ExprSyntax, ghost rightSyn: ExprSyntax,
               ghost colonAt: nat, ghost afterMid: seq<Diagnostic>, ghost halt: ExprHalt)
      requires Valid() && start < current && tokens[current - 1] == question && question.kind == QUESTION
      requires Derived(tokens, condSyn, 8, start, current - 1, before, errors)
      modifies this
      decreases |tokens| - current, 4
      ensures Valid() && old(current) <= current && old(errors) <= errors
      ensures r.ParseError? ==> Halted(tokens, halt, 7, start, current, before, errors) == true
      ensures r.Ok? ==>
                && old(current) <= colonAt && colonAt + 1 <= current
                && r.value.0 == Tree(midSyn) && r.value.2 == Tree(rightSyn)
                && tokens[colonAt] == r.value.1 && r.value.1.kind == COLON
                && Derived(tokens, midSyn, 7, old(current), colonAt, old(errors), afterMid) == true
                && Derived(tokens, rightSyn, 7, colonAt + 1, current, afterMid, errors) == true
                && InfixLevel(tokens[current].kind) < 7
    {
      colonAt, afterMid := 0, [];
      var mid;
      ghost var midHalt;
      mid, midSyn, midHalt := Ternary();
      rightSyn, halt := midSyn, midHalt;
      if mid.ParseError? {
        InMiddleStep(tokens, condSyn, question, midHalt, start, old(current) - 1, current, before, old(errors), errors);
        return ParseError, midSyn, rightSyn, colonAt, afterMid, InMiddle(condSyn, question, midHalt);
      }
      colonAt, afterMid := current, errors;
      var colonToken := Consume(COLON, ExpectColonInTernary);
      if colonToken.ParseError? {
        NoColonStep(tokens, condSyn, question, midSyn, start, old(current) - 1, colonAt, before, old(errors), afterMid);
        return ParseError, midSyn, rightSyn, colonAt, afterMid, NoColon(condSyn, question, midSyn);
      }
      var colon := Previous();
      var right;
      ghost var rightHalt;
      right, rightSyn, rightHalt := Ternary();
      if right.ParseError? {
        InBranchStep(tokens, condSyn, question, midSyn, colon, rightHalt, start, old(current) - 1, colonAt, current,
                     before, old(errors), afterMid, errors);
        return ParseError, midSyn, rightSyn, colonAt, afterMid, InBranch(condSyn, question, midSyn, colon, rightHalt);
      }
      return Ok((mid.value, colon, right.value)), midSyn, rightSyn, colonAt, afterMid, halt;
    }

    /** `unary` (Parser.java:298-306). */
    method Unary() returns (r: Result<Expr>, ghost syn: ExprSyntax, ghost halt: ExprHalt)
      requires Valid()
      modifies this
      decreases |tokens| - current, 2
      ensures Valid() && Outcome(tokens, r, syn, 8, old(current), current, old(errors), errors) == true
      ensures r.ParseError? ==> Halted(tokens, halt, 8, old(current), current, old(errors), errors) == true
    {
      var isUnary := Match([BANG, MINUS]);
      if isUnary {
        var operator := Previous();
        var right, rightSyn, rightHalt := Unary();
        if right.ParseError? {
          InUnaryStep(tokens, operator, rightHalt, old(current), current, old(errors), errors);
          return ParseError, rightSyn, InUnary(operator, rightHalt);
        }
        UnaryStep(tokens, operator, rightSyn, old(current), current, old(errors), errors);
        return Ok(Expr.Unary(operator, right.value)), UnarySyntax(operator, rightSyn), rightHalt;
      }
      r, syn, halt := Primary();
      if r.ParseError? {
        HaltLoosened(tokens, halt, 9, 8, old(current), current, old(errors), errors);
      }
    }

    /** `false`, `true` and `nil` (Parser.java:309-311), then the other primaries. */
    method Primary() returns (r: Result<Expr>, ghost syn: ExprSyntax, ghost halt: ExprHalt)
      requires Valid()
      modifies this
      decreases |tokens| - current, 1
      ensures Valid() && Outcome(tokens, r, syn, 9, old(current), current, old(errors), errors) == true
      ensures r.ParseError? ==> Halted(tokens, halt, 9, old(current), current, old(errors), errors) == true
      ensures old(tokens[current].kind) in {FALSE, TRUE, NIL, NUMBER, STRING, IDENTIFIER} ==>
                r.Ok? && current == old(current) + 1 && errors == old(errors)
      ensures r.ParseError? && old(tokens[current].kind) != LEFT_PAREN ==>
                current == old(current) && errors == old(errors) + [Diagnostic(old(Peek()), ExpectExpression)]
    {
      halt := NoOperand;
      var m := Match([FALSE]);
      if m {
        LiteralStep(tokens, BoolValue(false), old(current), old(errors));
        return Ok(Literal(BoolValue(false))), LiteralSyntax(BoolValue(false)), halt;
      }
      m := Match([TRUE]);
      if m {
        LiteralStep(tokens, BoolValue(true), old(current), old(errors));
        return Ok(Literal(BoolValue(true))), LiteralSyntax(BoolValue(true)), halt;
      }
      m := Match([NIL]);
      if m {
        LiteralStep(tokens, NilValue, old(current), old(errors));
        return Ok(Literal(NilValue)), LiteralSyntax(NilValue), halt;
      }
      r, syn, halt := Operand();
    }

    /**
     * The rest of `primary` once `false`, `true` and `nil` are ruled out
     * (Parser.java:313-327): a number or string carrying its token's value,
     * a name whose `Variable` node is identified by the name's index, a
     * parenthesised expression, or an error at the current token.
     */
    method Operand() returns (r: Result<Expr>, ghost syn: ExprSyntax, ghost halt: ExprHalt)
      requires Valid() && Peek().kind !in {FALSE, TRUE, NIL}
      modifies this
      decreases |tokens| - current, 0
      ensures Valid() && Outcome(tokens, r, syn, 9, old(current), current, old(errors), errors) == true
      ensures r.ParseError? ==> Halted(tokens, halt, 9, old(current), current, old(errors), errors) == true
      ensures old(tokens[current].kind) in {NUMBER, STRING, IDENTIFIER} ==>
                r.Ok? && current == old(current) + 1 && errors == old(errors)
      ensures r.ParseError? && old(tokens[current].kind) != LEFT_PAREN ==>
                current == old(current) && errors == old(errors) + [Diagnostic(old(Peek()), ExpectExpression)]
    {
      syn, halt := LiteralSyntax(NilValue), NoOperand;
      var m := Match([NUMBER, STRING]);
      if m {
        var literal := Previous().literal;
        assert LiteralAgrees(tokens[old(current)]);
        LiteralStep(tokens, literal, old(current), old(errors));
        return Ok(Literal(literal)), LiteralSyntax(literal), halt;
      }
      m := Match([IDENTIFIER]);
      if m {
        var id := current - 1;
        var name := Previous();
        VariableStep(tokens, name, id, old(errors));
        return Ok(Variable(id, name)), VariableSyntax(id, name), halt;
      }
      m := Match([LEFT_PAREN]);
      if m {
        r, syn, halt := Grouped();
        return;
      }
      assert Peek().kind !in PrimaryStarts;
      Error(Peek(), ExpectExpression);
      NoOperandStep(tokens, old(current), old(errors));
      return ParseError, syn, halt;
    }

    /** A parenthesised expression whose `(` has just been consumed (Parser.java:321-325). */
    method Grouped() returns (r: Result<Expr>, ghost syn: ExprSyntax, ghost halt: ExprHalt)
      requires Valid() && current > 0 && tokens[current - 1].kind == LEFT_PAREN
      modifies this
      decreases |tokens| - current, 12
      ensures Valid() && Outcome(tokens, r, syn, 9, old(current) - 1, current, old(errors), errors) == true
      ensures r.ParseError? ==> Halted(tokens, halt, 9, old(current) - 1, current, old(errors), errors) == true
    {
      var inner, innerSyn, innerHalt := Expression();
      syn := GroupingSyntax(innerSyn);
      if inner.ParseError? {
        InGroupStep(tokens, innerHalt, old(current) - 1, current, old(errors), errors);
        return ParseError, syn, InGroup(innerHalt);
      }
      ghost var closeAt, afterInner := current, errors;
      var close := Consume(RIGHT_PAREN, ExpectParenAfterExpression);
      if close.ParseError? {
        UnclosedStep(tokens, innerSyn, old(current) - 1, closeAt, old(errors), afterInner);
        return ParseError, syn, Unclosed(innerSyn);
      }
      GroupingStep(tokens, innerSyn, old(current) - 1, closeAt, old(errors), errors);
      return Ok(Grouping(inner.value)), syn, innerHalt;
    }
  }
}
