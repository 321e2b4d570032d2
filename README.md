# Lox front end in Dafny

A model of the front end of the Java implementation of Lox in the
Yadav106/lox repository, with proofs about it:

- the recursive-descent **parser** (`Parser`), which turns the lexer's
  tokens into statements, desugars `for` loops and recovers from syntax
  errors by resynchronising at a statement boundary;
- the **static resolver** of `jlox` (`Resolver`), which walks the syntax tree
  with a stack of scopes, hands each variable read or assignment the number
  of scopes between it and its declaration, and reports duplicate
  declarations, reads in a variable's own initializer and `return` outside a
  function;
- the **earlier, partial resolver** of `src` (also `Resolver`), which handles
  only blocks, `var` statements and variable reads, never reports a duplicate,
  and throws `UnsupportedOperationException` from every other visitor;
- the **AST printer** (`AstPrinter`), which writes expressions as
  parenthesised prefix text such as `(* (- 123) (group 45.55))`.

Layout:

| file | module | contents |
|---|---|---|
| `ast.dfy` | `Ast` | tokens, expression and statement trees, messages, diagnostics |
| `grammar.dfy` | `Grammar` | the grammar the parser is proved against: what each rule reads, the tokens it is spelled with, the reports it makes, the tree it returns, and the placement of node ids |
| `parser.dfy` | `Parsing` | the parser as a class over the token list and cursor |
| `viability.dfy` | `Viability` | what a failed rule read is the beginning of something the grammar derives |
| `scopes.dfy` | `Scopes` | the stack of scopes: `put` on the innermost scope, the innermost scope holding a name, hop counts |
| `resolution.dfy` | `Resolution` | what the full resolver computes, as functions on its state |
| `resolver.dfy` | `Resolving` | the full resolver as a class updating its fields in place, proved to follow `Resolution` |
| `resolution_facts.dfy` | `ResolutionFacts` | properties of the full resolver |
| `resolution_nodes.dfy` | `ResolutionNodes` | which nodes the full resolver annotates |
| `early_resolution.dfy` | `EarlyResolution` | what the partial resolver computes, with a thrown exception as an `Unsupported` outcome |
| `early_resolver.dfy` | `EarlyResolving` | the partial resolver as a class, proved to follow `EarlyResolution` |
| `early_resolution_facts.dfy` | `EarlyResolutionFacts` | which programs the partial resolver gets through, and how it compares with the full one |
| `ast_printer.dfy` | `AstPrinting` | the printer |
| `ast_printer_facts.dfy` | `AstPrinterFacts` | balanced parentheses, and the example of the printer's `main` |

The state of each resolver is a record of its fields plus what it hands to
others: the hop counts it passes to `interpreter.resolve` are a map from node
identity to hop count, and the reports it makes through `Lox.error` are a
list of diagnostics. Each class method is proved to leave exactly the state
the matching function gives, so every property proved about the functions
holds of the class.

Each parser rule returns, besides its result, a ghost record of what it
read (`Grammar.ExprSyntax`, `Grammar.StmtSyntax`, `Grammar.EntrySyntax`).
Its contract says that the result is the tree of that record, that the
record is spelled by exactly the tokens the rule consumed, and that the
reports made are exactly the record's reports. A spelling fixes every
token: punctuation and keywords by kind, operators and names as the very
token objects, literals by value, and the node id of a `Variable` or
`Assign` by the index of its name token.

A rule that fails returns with `ParseError` a ghost halt that says how far
it had got: the finished parts it read and the part it was in when a token
was missing (`Grammar.ExprHalt`, `Grammar.StmtHalt`, and `CondHalt`,
`ClauseHalt`, `HeaderHalt` for the parenthesised conditions and the `for`
header). Its contract (`Grammar.Halted`, `Grammar.StmtHalted` and the like)
says three things:

- the tokens from where the rule started up to the cursor spell exactly that
  halt;
- the reports are exactly those of the finished parts, followed by one at
  the token under the cursor, carrying the message of the `consume` or
  `primary` that failed;
- that token is one the halt cannot go on with (`Grammar.Blocked` and the
  like): neither the missing token nor an operator that would extend the
  finished part before it. These predicates are written case by case from
  the code; they are not derived from the grammar.

Module `Viability` proves that every halt is a proper beginning of
something the grammar derives. Each halt has a completion that fills a
missing operand with `nil`, supplies a missing `)`, `}`, `:` or `;`, and
names a missing variable. That completion is grammatical at the rule's
rung, and the tokens read spell the beginning of its spelling
(`Viability.HaltedViable`, `Viability.StmtHaltedViable`). So no rule reads
past a token that leaves the grammar.

A skipped declaration keeps its halt, the token that stopped it, and the
tokens `synchronize` skipped from there, none of which but the first is a
statement boundary (`Grammar.EntryGrammatical`). `Parsing.Parser.Declaration`
also gives the index of the stopping token and that the run ends at a
boundary.

### What the parser does at its edges

- The parser has no call syntax and no `fun`, `return` or `class`
  declarations. The `Call`, `Function`, `Return` and `Class` nodes exist so
  the resolver can be modelled; the parser never builds them
  (`Grammar.StmtGrammatical`).
- After the condition of a `for` header, the parser tests for `;` to decide
  whether an increment follows, although `)` closes that clause
  (`src/com/yadav/lox/Parser.java:87`). An empty increment clause therefore
  never parses: `for (;;)` fails at the `)`, and every loop the parser
  accepts has an increment (`Parsing.Parser.ForClause`,
  `Parsing.Parser.ForStatement`). `Grammar.ClauseBlocked` follows the code:
  an increment clause is stopped at a `)` where no expression starts,
  although `Grammar.HeaderGrammatical` derives a header without an
  increment.
- A loop body and a branch of an `if` are read by `statement`
  (`src/com/yadav/lox/Parser.java:58-66`), which has no `var` case. The
  grammar derives any statement there except a declaration
  (`Grammar.StmtGrammatical`), `Parsing.Parser.Statement` never returns a
  declaration nor stops inside one, and `while (c) var x;` stops at the
  `var`, which no loop body can start with.
- An assignment to something that is not a name is reported at the `=`, the
  value after it is still parsed, and the left-hand expression is returned
  without a parse failure (`src/com/yadav/lox/Parser.java:204-208`,
  `Parsing.Parser.Assignment`).
- In `var a = 1; { var a = a + 1; }` the full resolver declares the inner
  `a` before it resolves the initializer, so the read of `a` there is
  reported (`ResolutionFacts.ShadowingInitializer`).

## Model

| member | source | states |
|---|---|---|
| Parsing.Parser.constructor | src/com/yadav/lox/Parser.java:14-16 | a parser starts at the first token of a stream that ends in EOF, with nothing reported |
| Parsing.Parser.Check | src/com/yadav/lox/Parser.java:167-170 | a true answer means the current token has the asked type, is not EOF, and is not the last token |
| Parsing.Parser.Advance | src/com/yadav/lox/Parser.java:172-175 | the cursor moves by exactly one unless it is on EOF, never leaves the stream, and the token returned is the one just passed |
| Parsing.Parser.Match | src/com/yadav/lox/Parser.java:157-165 | advances by one exactly when the current token is not EOF and its type is one of those asked; otherwise the cursor stays |
| Parsing.Parser.Error | src/com/yadav/lox/Parser.java:336-339 | one diagnostic is appended for the token and message |
| Parsing.Parser.Consume | src/com/yadav/lox/Parser.java:330-334 | either the expected token is returned and the cursor moves one step with no report, or a parse error is returned, the cursor stays and exactly that message is reported at the current token; the message must be the one paired with the expected type |
| Parsing.Parser.Synchronize | src/com/yadav/lox/Parser.java:341-361 | unless on EOF, consumes at least one token and stops at the first point after a `;`, before a statement keyword, or at EOF |
| Parsing.Parser.Parse | src/com/yadav/lox/Parser.java:26-33 | ends on EOF; the list holds one entry per declaration read, in order, and those declarations spell exactly the tokens from where it starts up to EOF, with exactly their reports; there are no more null entries than reports; every name node sits at its own token and no two share an id |
| Parsing.Parser.Declaration | src/com/yadav/lox/Parser.java:35-44 | consumes at least one token; the entry is the tree of the declaration those tokens spell, with its reports; a null entry is a failed declaration stopped right after a grammatical beginning of a statement, reported at the stopping token, followed by the tokens `synchronize` skipped from that token up to the first statement boundary after it, none being skipped at EOF; a statement ends with `;` or `}` |
| Parsing.Parser.VariableDeclaration | src/com/yadav/lox/Parser.java:46-56 | from the `var` just matched, a `Var` statement spelled by the tokens through its `;`: the name is the token after `var` and the initializer the tree of the expression after `=`; or a failure stopped right after a grammatical beginning of a `var` declaration (`Grammar.StmtHalted`) and reported at the stopping token |
| Parsing.Parser.VarBody | src/com/yadav/lox/Parser.java:49-55 | the same once the name has been read; or a failure stopped right after a grammatical beginning of a `var` declaration (`Grammar.StmtHalted`) and reported at the stopping token |
| Parsing.Parser.VarInitializer | src/com/yadav/lox/Parser.java:49-52 | absent exactly when the next token is not `=`; otherwise the tree of the expression spelled after the `=`; or a failure after the `=`, stopped right after a grammatical beginning of an expression (`Grammar.Halted`) and reported at the stopping token |
| Parsing.Parser.Statement | src/com/yadav/lox/Parser.java:58-66 | the tree of a statement spelled by exactly the tokens consumed, with exactly its reports, ending with `;` or `}`, and never a `var` declaration; or a failure, never inside a declaration, stopped right after a grammatical beginning of a statement (`Grammar.StmtHalted`) and reported at the stopping token |
| Parsing.Parser.OtherStatement | src/com/yadav/lox/Parser.java:62-65 | the `while`, block and expression-statement cases of `statement`, with the same outcome, never a declaration; a failure before anything was read is not at a `for`, `if`, `print`, `while` or `{` |
| Parsing.Parser.BlockStatement | src/com/yadav/lox/Parser.java:63 | a `Block` of the declarations spelled between the `{` just matched and the `}`; or a failure at EOF, after the declarations read, reported there as a missing `}` |
| Parsing.Parser.ForStatement | src/com/yadav/lox/Parser.java:68-107 | a parsed loop is the desugaring of the very initializer, condition, increment and body spelled by the tokens consumed, the body not a declaration, and its increment is present; or a failure stopped right after a grammatical beginning of a `for` loop (`Grammar.StmtHalted`) and reported at the stopping token |
| Parsing.Parser.ForHeader | src/com/yadav/lox/Parser.java:69-90 | returns the trees of the three clauses spelled, in order, from `(` to `)`; the increment is present; or a failure stopped right after a grammatical beginning of a `for` header (`Grammar.HeaderHalted`) and reported at the stopping token |
| Parsing.Parser.LoopClauses | src/com/yadav/lox/Parser.java:80-90 | the condition and increment clauses after the initializer, spelled up to `)`, the increment present; or a failure stopped right after a grammatical beginning of a `for` header (`Grammar.HeaderHalted`) and reported at the stopping token |
| Parsing.Parser.ForInitializer | src/com/yadav/lox/Parser.java:71-78 | nothing for a lone `;`, otherwise the `var` declaration or expression statement spelled by the tokens consumed; or a failure stopped right after a grammatical beginning of a `var` declaration or expression statement (`Grammar.StmtHalted`) and reported at the stopping token |
| Parsing.Parser.ForClause | src/com/yadav/lox/Parser.java:80-90 | the tree of the expression spelled before the terminator, or nothing; it is empty exactly when the next token is `;`, so it can be empty only where `;` closes it; or a failure stopped right after a grammatical beginning of the clause (`Grammar.ClauseHalted`) and reported at the stopping token |
| Parsing.Parser.WhileStatement | src/com/yadav/lox/Parser.java:109-116 | a `While` whose condition and body are the trees spelled by the parenthesised condition and the body that follow, the body not a declaration; or a failure stopped right after a grammatical beginning of a `while` loop (`Grammar.StmtHalted`) and reported at the stopping token |
| Parsing.Parser.IfStatement | src/com/yadav/lox/Parser.java:118-131 | an `If` whose condition, then branch and else branch are the trees spelled in that order, neither branch a declaration; with no else branch the next token is not `else`; or a failure stopped right after a grammatical beginning of an `if` statement (`Grammar.StmtHalted`) and reported at the stopping token |
| Parsing.Parser.IfBranches | src/com/yadav/lox/Parser.java:123-130 | after the condition, an `If` of the then branch and optional else branch spelled next, neither a declaration; or a failure stopped in one of the branches (`Grammar.StmtHalted`) |
| Parsing.Parser.IfElse | src/com/yadav/lox/Parser.java:126-130 | after the then branch, an `If` with the else branch spelled next, if any and not a declaration, and with none only when the next token is not `else`; or a failure stopped in the else branch (`Grammar.StmtHalted`) |
| Parsing.Parser.ElseBranch | src/com/yadav/lox/Parser.java:124-128 | either nothing, with the cursor unmoved and the next token not `else`, or the statement, not a declaration, spelled after an `else`; or a failure stopped right after a grammatical beginning of the statement after `else`, not inside a declaration, (`Grammar.StmtHalted`) and reported at the stopping token |
| Parsing.Parser.Condition | src/com/yadav/lox/Parser.java:119-121 | the tree of the expression spelled between `(` and `)`; or a failure stopped right after a grammatical beginning of `( condition )` (`Grammar.CondHalted`) and reported at the stopping token |
| Parsing.Parser.ConditionBody | src/com/yadav/lox/Parser.java:120-121 | once the `(` is consumed, the tree of the expression spelled up to the `)`; or a failure stopped right after a grammatical beginning of `( condition )` (`Grammar.CondHalted`) and reported at the stopping token |
| Parsing.Parser.Block | src/com/yadav/lox/Parser.java:133-143 | one entry per declaration read up to the `}`, in order, spelled by the tokens consumed; or a failure at EOF, after the declarations read, reported there as a missing `}` |
| Parsing.Parser.PrintStatement | src/com/yadav/lox/Parser.java:145-149 | a `Print` of the tree of the expression spelled between `print` and `;`; or a failure stopped right after a grammatical beginning of a `print` statement (`Grammar.StmtHalted`) and reported at the stopping token |
| Parsing.Parser.ExpressionStatement | src/com/yadav/lox/Parser.java:151-155 | an `Expression` statement of the tree of the expression spelled before `;`; or a failure stopped right after a grammatical beginning of an expression statement (`Grammar.StmtHalted`) and reported at the stopping token |
| Parsing.Parser.Expression | src/com/yadav/lox/Parser.java:189-191 | the outcome of `assignment`; or a failure stopped right after a grammatical beginning of such an expression (`Grammar.Halted`) and reported at the stopping token |
| Parsing.Parser.Assignment | src/com/yadav/lox/Parser.java:193-209 | the tree of an expression spelled by exactly the tokens consumed, stopped before any token that could continue it; when the left side is not a name, the result is that left side, spelled up to the `=`, and one report at the `=` follows those of both sides; or a failure stopped right after a grammatical beginning of such an expression (`Grammar.Halted`) and reported at the stopping token |
| Parsing.Parser.Or | src/com/yadav/lox/Parser.java:211-221 | the tree of an expression of the `or` rung or tighter, spelled by the tokens consumed, left-associative, stopped before any `or` or tighter operator; or a failure stopped right after a grammatical beginning of such an expression (`Grammar.Halted`) and reported at the stopping token |
| Parsing.Parser.OrRest | src/com/yadav/lox/Parser.java:214-218 | the loop of `or` over a left operand already read: a left-associative chain of `or`s spelled by the tokens consumed, stopped before any `or`; or a failure stopped right after a grammatical beginning of an `or` expression (`Grammar.Halted`) and reported at the stopping token |
| Parsing.Parser.And | src/com/yadav/lox/Parser.java:223-233 | the same for the `and` rung; or a failure stopped right after a grammatical beginning of such an expression (`Grammar.Halted`) and reported at the stopping token |
| Parsing.Parser.Equality | src/com/yadav/lox/Parser.java:235-245 | the same for the equality rung; or a failure stopped right after a grammatical beginning of such an expression (`Grammar.Halted`) and reported at the stopping token |
| Parsing.Parser.Comparison | src/com/yadav/lox/Parser.java:247-257 | the same for the comparison rung; or a failure stopped right after a grammatical beginning of such an expression (`Grammar.Halted`) and reported at the stopping token |
| Parsing.Parser.Term | src/com/yadav/lox/Parser.java:259-269 | the same for the term rung; or a failure stopped right after a grammatical beginning of such an expression (`Grammar.Halted`) and reported at the stopping token |
| Parsing.Parser.Factor | src/com/yadav/lox/Parser.java:271-281 | the same for the factor rung; or a failure stopped right after a grammatical beginning of such an expression (`Grammar.Halted`) and reported at the stopping token |
| Parsing.Parser.Ternary | src/com/yadav/lox/Parser.java:283-296 | a ternary has a unary condition and ternary branches (right-associative), each spelled by its own tokens; or a failure stopped right after a grammatical beginning of such an expression (`Grammar.Halted`) and reported at the stopping token; a missing `:` is reported only where no operator of the middle branch could follow |
| Parsing.Parser.TernaryRest | src/com/yadav/lox/Parser.java:286-293 | one round of the loop builds a `Ternary` over the given condition and the branches spelled after `?` and `:`, and stops before any `?`, so the loop never takes a second round; or a failure stopped right after a grammatical beginning of such an expression (`Grammar.Halted`) and reported at the stopping token |
| Parsing.Parser.TernaryBranches | src/com/yadav/lox/Parser.java:288-291 | the middle branch, the `:` token at its position and the right branch, each spelled by the tokens they span; or a failure stopped right after a grammatical beginning of such an expression (`Grammar.Halted`) and reported at the stopping token |
| Parsing.Parser.Unary | src/com/yadav/lox/Parser.java:298-306 | a `!` or `-` token applied to the unary operand spelled after it, or a primary; or a failure stopped right after a grammatical beginning of such an expression (`Grammar.Halted`) and reported at the stopping token |
| Parsing.Parser.Primary | src/com/yadav/lox/Parser.java:308-328 | `false`, `true`, `nil`, a number, a string or a name always parses, as one token with no report; a literal carries its token's value, a `Variable` has the name token and that token's index as id, and a parenthesised expression is a grouping; on any other token except `(` it fails without moving and reports `Expect expressions` at that token |
| Parsing.Parser.Operand | src/com/yadav/lox/Parser.java:313-327 | the same for numbers, strings, names and groupings, once `false`, `true` and `nil` are ruled out |
| Parsing.Parser.Grouped | src/com/yadav/lox/Parser.java:321-325 | a grouping of the expression spelled between `(` and `)`; or a failure stopped right after a grammatical beginning of such an expression (`Grammar.Halted`) and reported at the stopping token |
| Grammar.Asks | src/com/yadav/lox/Parser.java:330-334 | the type each `consume` asks for is never EOF, so a `consume` on EOF always fails with its report |
| Grammar.NextOperator | src/com/yadav/lox/Parser.java:211-281 | after an operand of a rung, the next token continues the rung exactly when it is one of the operators that rung's loop matches; any other token continues only a looser rung, or none |
| Grammar.LeftAssociativity | src/com/yadav/lox/Parser.java:259-269 | `a - b - c` is derived only as `(a - b) - c` |
| Grammar.AssignmentAssociativity | src/com/yadav/lox/Parser.java:193-209 | `a = (b = c)` is derived, and `a - b = c` is derived as the tree `a - b` with one report at the `=` |
| Grammar.VariableStep | src/com/yadav/lox/Parser.java:317-319 | a name read at a position is a `Variable` of that token whose id is the position |
| Grammar.NameTarget | src/com/yadav/lox/Parser.java:200-202 | a left side whose tree is a `Variable` is the single name token at its start |
| Grammar.AssignStep | src/com/yadav/lox/Parser.java:196-203 | a name, `=` and a value read in order are an `Assign` of that name, with the name's id, and the value |
| Grammar.InvalidTargetStep | src/com/yadav/lox/Parser.java:204-208 | a left side that is not a name, `=` and a value read in order give the left side's tree, with one report at the `=` after those of both sides |
| Grammar.ForStep | src/com/yadav/lox/Parser.java:93-106 | a header and body read in order give the desugaring of exactly those clauses and that body |
| Grammar.ListStep | src/com/yadav/lox/Parser.java:28-30 | a declaration read after a run of declarations adds one entry at the end |
| Grammar.SkippedStep | src/com/yadav/lox/Parser.java:40-43 | a stopped declaration followed by the tokens skipped from its stopping token up to, and not past, a statement boundary is one null entry with the reports of the stopped declaration |
| Grammar.FailuresReported | src/com/yadav/lox/Parser.java:26-44 | a derived list has no more null entries than reports, since every skipped run made one |
| Grammar.SpelledNamesPlaced | src/com/yadav/lox/Parser.java:193-328 | in the tree of any expression spelled by a run of tokens, every name node carries the index of its own token inside that run, and no two nodes share an id |
| Grammar.StmtSpelledNamesPlaced | src/com/yadav/lox/Parser.java:58-155 | the same for a statement, including a desugared `for` loop |
| Grammar.ListSpelledNamesPlaced | src/com/yadav/lox/Parser.java:26-33 | the same for a list of declarations |
| Grammar.DesugarNamesPlaced | src/com/yadav/lox/Parser.java:93-106 | desugaring keeps every clause's node ids and adds none, so parts with disjoint ids give a loop with distinct ids |
| Viability.HaltedViable | src/com/yadav/lox/Parser.java:189-327 | the tokens a failed expression rule read spell a proper beginning of a grammatical expression of the rule's rung: its halt finished with `nil` operands and the missing `)` or `:` |
| Viability.StmtHaltedViable | src/com/yadav/lox/Parser.java:46-155 | the tokens a failed statement rule read spell a proper beginning of a grammatical statement: its halt finished with `nil` operands and statements, a name, and the missing punctuation |
| Viability.CondHaltedViable | src/com/yadav/lox/Parser.java:109-121 | the tokens a failed `( condition )` read spell a proper beginning of a parenthesised grammatical expression |
| Viability.ClauseHaltedViable | src/com/yadav/lox/Parser.java:80-90 | the tokens a failed `for` clause read spell a proper beginning of a grammatical clause and its closing token |
| Viability.HeaderHaltedViable | src/com/yadav/lox/Parser.java:68-90 | the tokens a failed `for` header read spell a proper beginning of the header of a grammatical loop |
| Viability.SkippedViable | src/com/yadav/lox/Parser.java:35-44 | what a skipped declaration read before its stopping token covers a proper beginning of a grammatical statement |
| Scopes.Put | jlox/src/com/yadav/lox/Resolver.java:151 | only the innermost scope changes, and it maps the name to the new state |
| Scopes.Innermost | jlox/src/com/yadav/lox/Resolver.java:245-252 | the highest scope holding the name, if any; no scope above it holds the name |
| Scopes.Hops | jlox/src/com/yadav/lox/Resolver.java:245-252 | a hop count exists exactly when some scope holds the name; it is below the stack height and counts down from the top to the nearest scope holding the name |
| Resolution.Declare | jlox/src/com/yadav/lox/Resolver.java:142-152 | keeps the height of the stack, every scope but the top one and the function kind; only adds reports and drops no annotation |
| Resolution.Define | jlox/src/com/yadav/lox/Resolver.java:154-157 | the same frame as `Declare` |
| Resolution.CheckRead | jlox/src/com/yadav/lox/Resolver.java:230-233 | changes no scope; only adds own-initializer reports |
| Resolution.ResolveLocal | jlox/src/com/yadav/lox/Resolver.java:245-252 | changes no scope and no function kind; every annotation it adds or changes is below the stack height |
| Resolution.ResolveExpr | jlox/src/com/yadav/lox/Resolver.java:166-243 | leaves the scopes and function kind alone, reports only own-initializer reads, drops no annotation, and every new hop count names an existing scope |
| Resolution.ResolveExprs | jlox/src/com/yadav/lox/Resolver.java:185-187 | the same for the call arguments, left to right |
| Resolution.ResolveStmt | jlox/src/com/yadav/lox/Resolver.java:71-164 | keeps the stack height, every scope but the top one and the function kind; only adds reports and drops no annotation; a block, expression, print or return keeps the whole stack |
| Resolution.ResolveReturn | jlox/src/com/yadav/lox/Resolver.java:120-130 | keeps the whole stack and the function kind |
| Resolution.ResolveVar | jlox/src/com/yadav/lox/Resolver.java:132-140 | keeps the stack height and every scope but the top one |
| Resolution.ResolveBlock | jlox/src/com/yadav/lox/Resolver.java:41-47 | the stack is exactly as it was before the block |
| Resolution.ResolveEntry | jlox/src/com/yadav/lox/Resolver.java:55-57 | the frame of `ResolveStmt` |
| Resolution.ResolveStmts | jlox/src/com/yadav/lox/Resolver.java:49-53 | the frame of `ResolveStmt`, for a list |
| Resolution.ResolveFunction | jlox/src/com/yadav/lox/Resolver.java:87-98 | afterwards the stack and the enclosing function kind are exactly as they were |
| Resolution.DeclareParams | jlox/src/com/yadav/lox/Resolver.java:91-94 | every parameter ends up defined in the new top scope, nothing else changes there but additions, and only duplicate parameters are reported |
| ResolutionFacts.StmtsIgnoreTable | jlox/src/com/yadav/lox/Resolver.java:245-252 | resolving from any state is resolving from an empty table and report list, then laying the new hop counts over the old table and appending the new reports |
| ResolutionFacts.ResolvingTwice | jlox/src/com/yadav/lox/Resolver.java:49-53 | a second run over the same program leaves every hop count as the first run left it and makes the same reports |
| ResolutionFacts.DeclareChecksInnermostOnly | jlox/src/com/yadav/lox/Resolver.java:142-157 | declare and define do nothing on an empty stack; declare marks the name declared-not-defined whatever it held, and reports one duplicate exactly when the innermost scope held the name, whatever outer scopes hold |
| ResolutionFacts.VarDeclaration | jlox/src/com/yadav/lox/Resolver.java:132-140 | the name is declared but not defined while the initializer is resolved and defined afterwards; no other scope changes; the first report is a duplicate exactly when the innermost scope held the name |
| ResolutionFacts.TopLevelExpr | jlox/src/com/yadav/lox/Resolver.java:245-252 | with no scope open, resolving an expression changes nothing |
| ResolutionFacts.TopLevelVar | jlox/src/com/yadav/lox/Resolver.java:142-157 | a top-level declaration is neither recorded nor reported |
| ResolutionFacts.ReadCheck | jlox/src/com/yadav/lox/Resolver.java:229-236 | a read is reported exactly when the innermost scope holds the name declared but not defined |
| ResolutionFacts.ReadHops | jlox/src/com/yadav/lox/Resolver.java:245-252 | a read of a declared name gets the hop count of the nearest scope holding it, below the stack height; no other annotation changes |
| ResolutionFacts.ReadGlobal | jlox/src/com/yadav/lox/Resolver.java:245-252 | a read of a name no scope holds is not annotated |
| ResolutionFacts.ReturnReported | jlox/src/com/yadav/lox/Resolver.java:120-130 | a return is reported exactly when it is outside every function, and its value is resolved as it would be without the report |
| ResolutionFacts.DuplicateInBlock | jlox/src/com/yadav/lox/Resolver.java:142-152 | `{ var x = 1; var x = 2; }` makes exactly one report, on the second `x` |
| ResolutionFacts.ReadInInitializer | jlox/src/com/yadav/lox/Resolver.java:132-140 | in a fresh scope, `var a = a + 1;` reports its read of `a` |
| ResolutionFacts.ShadowingInitializer | jlox/src/com/yadav/lox/Resolver.java:229-236 | `var a = 1; { var a = a + 1; }` reports the inner read of `a` |
| ResolutionFacts.NestedRead | jlox/src/com/yadav/lox/Resolver.java:245-252 | in `{ var a = 1; { print a; } }` the read of `a` is one scope out |
| ResolutionNodes.ExprAnnotatesOwnNodes | jlox/src/com/yadav/lox/Resolver.java:166-243 | resolving an expression drops no annotation and annotates only its own Variable and Assign nodes |
| ResolutionNodes.StmtAnnotatesOwnNodes | jlox/src/com/yadav/lox/Resolver.java:71-164 | the same for a statement |
| ResolutionNodes.ProgramAnnotatesOwnNodes | jlox/src/com/yadav/lox/Resolver.java:49-53 | a fresh resolver annotates only the program's own Variable and Assign nodes |
| Resolving.Resolver.constructor | jlox/src/com/yadav/lox/Resolver.java:28-34 | no scopes, outside any function, nothing recorded or reported |
| Resolving.Resolver.BeginScope | jlox/src/com/yadav/lox/Resolver.java:63-65 | pushes an empty scope |
| Resolving.Resolver.EndScope | jlox/src/com/yadav/lox/Resolver.java:67-69 | pops the top scope |
| Resolving.Resolver.Declare | jlox/src/com/yadav/lox/Resolver.java:142-152 | updates the fields exactly as `Resolution.Declare` |
| Resolving.Resolver.Define | jlox/src/com/yadav/lox/Resolver.java:154-157 | updates the fields exactly as `Resolution.Define` |
| Resolving.Resolver.ResolveLocal | jlox/src/com/yadav/lox/Resolver.java:245-252 | the downward search records exactly what `Resolution.ResolveLocal` does |
| Resolving.Resolver.ResolveExpr | jlox/src/com/yadav/lox/Resolver.java:166-243 | updates the fields exactly as `Resolution.ResolveExpr` |
| Resolving.Resolver.ResolveArguments | jlox/src/com/yadav/lox/Resolver.java:185-187 | updates the fields exactly as `Resolution.ResolveExprs` |
| Resolving.Resolver.ResolveStmt | jlox/src/com/yadav/lox/Resolver.java:71-164 | updates the fields exactly as `Resolution.ResolveStmt` |
| Resolving.Resolver.ResolveEntry | jlox/src/com/yadav/lox/Resolver.java:55-57 | updates the fields exactly as `Resolution.ResolveEntry` |
| Resolving.Resolver.Resolve | jlox/src/com/yadav/lox/Resolver.java:49-53 | updates the fields exactly as `Resolution.ResolveStmts` |
| Resolving.Resolver.ResolveFunction | jlox/src/com/yadav/lox/Resolver.java:87-98 | updates the fields exactly as `Resolution.ResolveFunction`, restoring the saved function kind |
| EarlyResolution.Declare | src/com/yadav/lox/Resolver.java:105-110 | never reports; does nothing on an empty stack; otherwise the top scope maps the name to declared-not-defined |
| EarlyResolution.Define | src/com/yadav/lox/Resolver.java:112-115 | does nothing on an empty stack; otherwise the top scope maps the name to defined |
| EarlyResolution.ResolveExpr | src/com/yadav/lox/Resolver.java:165-172 | completes exactly for a variable read; changes no scope and only adds reports |
| EarlyResolution.ResolveStmt | src/com/yadav/lox/Resolver.java:35-121 | completed statements keep the stack height and a completed block the whole stack; a throw leaves open scopes pushed; lower scopes never change; only own-initializer reads are reported |
| EarlyResolution.ResolveEntry | src/com/yadav/lox/Resolver.java:49-51 | the same as `ResolveStmt` |
| EarlyResolution.ResolveStmts | src/com/yadav/lox/Resolver.java:43-47 | the same, for a list that stops at the first throw |
| EarlyResolutionFacts.CompletesIffSupported | src/com/yadav/lox/Resolver.java:65-163 | a statement is resolved without a throw exactly when it is built from blocks and `var` statements whose initializers are missing or plain reads |
| EarlyResolutionFacts.ListCompletesIffSupported | src/com/yadav/lox/Resolver.java:43-47 | the same for a list of statements |
| EarlyResolutionFacts.ThrowSkipsRest | src/com/yadav/lox/Resolver.java:43-47 | after a throw no later statement is looked at |
| EarlyResolutionFacts.LiteralInitializerThrows | src/com/yadav/lox/Resolver.java:147-151 | `var a = 1;` throws and leaves `a` declared but not defined |
| EarlyResolutionFacts.AgreesWithFull | src/com/yadav/lox/Resolver.java:105-110 | on every program it gets through, the partial resolver computes the full resolver's scopes and hop counts, and its reports minus the duplicate declarations |
| EarlyResolutionFacts.ListAgreesWithFull | src/com/yadav/lox/Resolver.java:43-47 | the same for a list of statements |
| EarlyResolutionFacts.DeclareAgrees | src/com/yadav/lox/Resolver.java:105-110 | the two `declare`s agree except for the duplicate report |
| EarlyResolutionFacts.ReadAgrees | src/com/yadav/lox/Resolver.java:165-181 | a read is checked and annotated as by the full resolver |
| EarlyResolutionFacts.VarAgreesWithFull | src/com/yadav/lox/Resolver.java:95-103 | a `var` statement runs declare, initializer, define as in the full resolver |
| EarlyResolutionFacts.FullReportsDuplicate | jlox/src/com/yadav/lox/Resolver.java:142-152 | `{ var x; var x; }` makes one report in the full resolver |
| EarlyResolutionFacts.DuplicateAccepted | src/com/yadav/lox/Resolver.java:105-110 | `{ var x; var x; }` gets through the partial resolver with no report |
| EarlyResolving.EarlyResolver.constructor | src/com/yadav/lox/Resolver.java:28-33 | no scopes, nothing recorded or reported |
| EarlyResolving.EarlyResolver.BeginScope | src/com/yadav/lox/Resolver.java:57-59 | pushes an empty scope |
| EarlyResolving.EarlyResolver.EndScope | src/com/yadav/lox/Resolver.java:61-63 | pops the top scope |
| EarlyResolving.EarlyResolver.Declare | src/com/yadav/lox/Resolver.java:105-110 | updates the fields exactly as `EarlyResolution.Declare` |
| EarlyResolving.EarlyResolver.Define | src/com/yadav/lox/Resolver.java:112-115 | updates the fields exactly as `EarlyResolution.Define` |
| EarlyResolving.EarlyResolver.ResolveLocal | src/com/yadav/lox/Resolver.java:174-181 | the downward search records exactly what `EarlyResolution.ResolveLocal` does |
| EarlyResolving.EarlyResolver.ResolveExpr | src/com/yadav/lox/Resolver.java:123-187 | returns whether it completed, with the fields as `EarlyResolution.ResolveExpr` leaves them |
| EarlyResolving.EarlyResolver.ResolveStmt | src/com/yadav/lox/Resolver.java:35-121 | the same for `EarlyResolution.ResolveStmt` |
| EarlyResolving.EarlyResolver.ResolveEntry | src/com/yadav/lox/Resolver.java:49-51 | the same for `EarlyResolution.ResolveEntry` |
| EarlyResolving.EarlyResolver.Resolve | src/com/yadav/lox/Resolver.java:43-47 | the loop stops at the first throw, with the fields as `EarlyResolution.ResolveStmts` leaves them |
| AstPrinting.KeywordLiteralsPlain | src/com/yadav/lox/AstPrinter.java:29-33 | `nil`, `true` and `false` print as non-empty words without parentheses |
| AstPrinting.Printed | src/com/yadav/lox/AstPrinter.java:10-38 | anything but a literal prints as text of at least two characters that opens with `(` and closes with `)` |
| AstPrinting.PrintAll | src/com/yadav/lox/AstPrinter.java:62-65 | the operands, each printed, in order |
| AstPrinting.BuildParenthesized | src/com/yadav/lox/AstPrinter.java:58-69 | the builder loop gives `(`, the name, each operand after a space, and `)` |
| AstPrinterFacts.ParenthesizeTwo | src/com/yadav/lox/AstPrinter.java:58-69 | with two operands the text is `(name a b)` |
| AstPrinterFacts.ParenthesizeBalanced | src/com/yadav/lox/AstPrinter.java:58-69 | balanced operands under a name without parentheses give balanced text |
| AstPrinterFacts.TernaryBalanced | src/com/yadav/lox/AstPrinter.java:40-56 | the ternary layout keeps balanced operands balanced |
| AstPrinterFacts.PrintBalanced | src/com/yadav/lox/AstPrinter.java:10-69 | when no number or string literal and no operator holds a parenthesis, every parenthesis printed is matched |
| AstPrinterFacts.UnaryExample | src/com/yadav/lox/AstPrinter.java:35-38 | `-123` prints as `(- 123)` |
| AstPrinterFacts.GroupingExample | src/com/yadav/lox/AstPrinter.java:24-27 | `(45.55)` prints as `(group 45.55)` |
| AstPrinterFacts.MainExample | src/com/yadav/lox/AstPrinter.java:71-81 | the tree of the printer's `main` prints as `(* (- 123) (group 45.55))` |

## Left out

- The driver `Lox.java` is not part of this model: file and console I/O, exit codes and the `hadError` flags. `Lox.error` is appending a diagnostic to a list. Messages are the `Message` values, with `Text` giving their spelling.
- The scanner is not part of this model. The parser assumes what the lexer hands over: a stream ending in EOF whose number and string tokens carry values of their kind (`Grammar.LexerOutput`).
- The interpreter is not part of this model. `interpreter.resolve(expr, depth)` writes into a map keyed by node identity. A Variable or Assign node carries its identity (`NodeId`); the parser uses the index of the name token.
- Numbers are Java doubles. They are kept opaque, as the text `Double.toString` gives them, and nothing is computed with them.
- The visitor and `accept` dispatch is replaced by `match` over the syntax trees.
- The AST generator is used only for its field lists. The `Get`, `Set` and `Class` nodes the full resolver visits are added to them.
- The partial resolver belongs to a version of the trees without `Get`, `Set` or `Class` nodes. The model treats those nodes like the other kinds that version throws on.
- `ParseError` is a `ParseError` result passed up to `Declaration`. `UnsupportedOperationException` is an `Unsupported` outcome (a `false` result in the class).
- A null statement left by a failed declaration is `None`. Both resolvers require statement lists without nulls: on a null the Java code throws `NullPointerException`, which is not modelled.
- `EndScope` requires a non-empty stack. An empty-stack `pop` cannot happen, because every pop follows its push.
- The printer's domain is the kinds its visitor implements: ternary, binary, grouping, literal and unary. `Printed` requires such a tree.
- Parsing.Parser.Check: its contract states only what a true answer implies. `Match` states the exact condition.
- Parsing.Parser.Parse: that every token list the grammar derives parses without a report (completeness) is not proved, and it does not hold for a `for` header with an empty increment, which the grammar derives and the code rejects at the `)` (`src/com/yadav/lox/Parser.java:87`); `Primary` is shown to accept every literal and name. For a failed declaration, the last report names the token where its rule stopped, after a grammatical beginning; that no grammatical statement goes on with that token rests on `Grammar.StmtBlocked` and is not proved. The list contract says that no statement boundary falls inside a skipped run; that the run ends at one is stated by `Declaration` only.
- Parsing.Parser.VariableDeclaration: a failure is not proved to happen only at a token that no grammatical continuation of what was read accepts. That rests on `Grammar.StmtBlocked`, written case by case from the code and not derived from `Grammar.StmtGrammatical`; what was read is proved to begin a grammatical construct (`Viability`).
- Parsing.Parser.VarBody: a failure is not proved to happen only at a token that no grammatical continuation of what was read accepts. That rests on `Grammar.StmtBlocked`, written case by case from the code and not derived from `Grammar.StmtGrammatical`; what was read is proved to begin a grammatical construct (`Viability`).
- Parsing.Parser.VarInitializer: a failure is not proved to happen only at a token that no grammatical continuation of what was read accepts. That rests on `Grammar.Blocked`, written case by case from the code and not derived from `Grammar.Grammatical`; what was read is proved to begin a grammatical construct (`Viability`).
- Parsing.Parser.Statement: a failure is not proved to happen only at a token that no grammatical continuation of what was read accepts. That rests on `Grammar.StmtBlocked`, written case by case from the code and not derived from `Grammar.StmtGrammatical`; what was read is proved to begin a grammatical construct (`Viability`).
- Parsing.Parser.OtherStatement: a failure is not proved to happen only at a token that no grammatical continuation of what was read accepts. That rests on `Grammar.StmtBlocked`, written case by case from the code and not derived from `Grammar.StmtGrammatical`; what was read is proved to begin a grammatical construct (`Viability`).
- Parsing.Parser.BlockStatement: a failure happens only at EOF, but a failure inside a declaration of the block is not proved to happen only where no grammatical continuation exists; that rests on `Grammar.StmtBlocked`, which is written case by case from the code and not derived from `Grammar.StmtGrammatical`.
- Parsing.Parser.ForStatement: a failure is not proved to happen only at a token that no grammatical continuation of what was read accepts. That rests on `Grammar.StmtBlocked`, written case by case from the code and not derived from `Grammar.StmtGrammatical`; what was read is proved to begin a grammatical construct (`Viability`).
- Parsing.Parser.ForHeader: a failure is not proved to happen only at a token that no grammatical continuation of what was read accepts. That rests on `Grammar.HeaderBlocked`, written case by case from the code and not derived from `Grammar.StmtGrammatical`; what was read is proved to begin a grammatical construct (`Viability`).
- Parsing.Parser.LoopClauses: a failure is not proved to happen only at a token that no grammatical continuation of what was read accepts. That rests on `Grammar.HeaderBlocked`, written case by case from the code and not derived from `Grammar.StmtGrammatical`; what was read is proved to begin a grammatical construct (`Viability`).
- Parsing.Parser.ForInitializer: a failure is not proved to happen only at a token that no grammatical continuation of what was read accepts. That rests on `Grammar.StmtBlocked`, written case by case from the code and not derived from `Grammar.StmtGrammatical`; what was read is proved to begin a grammatical construct (`Viability`).
- Parsing.Parser.ForClause: a failure is not proved to happen only at a token that no grammatical continuation of what was read accepts. That rests on `Grammar.ClauseBlocked`, written case by case from the code and not derived from `Grammar.StmtGrammatical`; what was read is proved to begin a grammatical construct (`Viability`).
- Parsing.Parser.WhileStatement: a failure is not proved to happen only at a token that no grammatical continuation of what was read accepts. That rests on `Grammar.StmtBlocked`, written case by case from the code and not derived from `Grammar.StmtGrammatical`; what was read is proved to begin a grammatical construct (`Viability`).
- Parsing.Parser.IfStatement: a failure is not proved to happen only at a token that no grammatical continuation of what was read accepts. That rests on `Grammar.StmtBlocked`, written case by case from the code and not derived from `Grammar.StmtGrammatical`; what was read is proved to begin a grammatical construct (`Viability`).
- Parsing.Parser.IfBranches: a failure is not proved to happen only at a token that no grammatical continuation of what was read accepts. That rests on `Grammar.StmtBlocked`, written case by case from the code and not derived from `Grammar.StmtGrammatical`; what was read is proved to begin a grammatical construct (`Viability`).
- Parsing.Parser.IfElse: a failure is not proved to happen only at a token that no grammatical continuation of what was read accepts. That rests on `Grammar.StmtBlocked`, written case by case from the code and not derived from `Grammar.StmtGrammatical`; what was read is proved to begin a grammatical construct (`Viability`).
- Parsing.Parser.ElseBranch: a failure is not proved to happen only at a token that no grammatical continuation of what was read accepts. That rests on `Grammar.StmtBlocked`, written case by case from the code and not derived from `Grammar.StmtGrammatical`; what was read is proved to begin a grammatical construct (`Viability`).
- Parsing.Parser.Condition: a failure is not proved to happen only at a token that no grammatical continuation of what was read accepts. That rests on `Grammar.CondBlocked`, written case by case from the code and not derived from `Grammar.StmtGrammatical`; what was read is proved to begin a grammatical construct (`Viability`).
- Parsing.Parser.ConditionBody: a failure is not proved to happen only at a token that no grammatical continuation of what was read accepts. That rests on `Grammar.CondBlocked`, written case by case from the code and not derived from `Grammar.StmtGrammatical`; what was read is proved to begin a grammatical construct (`Viability`).
- Parsing.Parser.Block: a failure happens only at EOF, but a failure inside a declaration of the block is not proved to happen only where no grammatical continuation exists; that rests on `Grammar.StmtBlocked`, which is written case by case from the code and not derived from `Grammar.StmtGrammatical`.
- Parsing.Parser.PrintStatement: a failure is not proved to happen only at a token that no grammatical continuation of what was read accepts. That rests on `Grammar.StmtBlocked`, written case by case from the code and not derived from `Grammar.StmtGrammatical`; what was read is proved to begin a grammatical construct (`Viability`).
- Parsing.Parser.ExpressionStatement: a failure is not proved to happen only at a token that no grammatical continuation of what was read accepts. That rests on `Grammar.StmtBlocked`, written case by case from the code and not derived from `Grammar.StmtGrammatical`; what was read is proved to begin a grammatical construct (`Viability`).
- Parsing.Parser.Expression: a failure is not proved to happen only at a token that no grammatical continuation of what was read accepts. That rests on `Grammar.Blocked`, written case by case from the code and not derived from `Grammar.Grammatical`; what was read is proved to begin a grammatical construct (`Viability`).
- Parsing.Parser.Assignment: a failure is not proved to happen only at a token that no grammatical continuation of what was read accepts. That rests on `Grammar.Blocked`, written case by case from the code and not derived from `Grammar.Grammatical`; what was read is proved to begin a grammatical construct (`Viability`).
- Parsing.Parser.Or: a failure is not proved to happen only at a token that no grammatical continuation of what was read accepts. That rests on `Grammar.Blocked`, written case by case from the code and not derived from `Grammar.Grammatical`; what was read is proved to begin a grammatical construct (`Viability`).
- Parsing.Parser.OrRest: a failure is not proved to happen only at a token that no grammatical continuation of what was read accepts. That rests on `Grammar.Blocked`, written case by case from the code and not derived from `Grammar.Grammatical`; what was read is proved to begin a grammatical construct (`Viability`).
- Parsing.Parser.And: a failure is not proved to happen only at a token that no grammatical continuation of what was read accepts. That rests on `Grammar.Blocked`, written case by case from the code and not derived from `Grammar.Grammatical`; what was read is proved to begin a grammatical construct (`Viability`).
- Parsing.Parser.Equality: a failure is not proved to happen only at a token that no grammatical continuation of what was read accepts. That rests on `Grammar.Blocked`, written case by case from the code and not derived from `Grammar.Grammatical`; what was read is proved to begin a grammatical construct (`Viability`).
- Parsing.Parser.Comparison: a failure is not proved to happen only at a token that no grammatical continuation of what was read accepts. That rests on `Grammar.Blocked`, written case by case from the code and not derived from `Grammar.Grammatical`; what was read is proved to begin a grammatical construct (`Viability`).
- Parsing.Parser.Term: a failure is not proved to happen only at a token that no grammatical continuation of what was read accepts. That rests on `Grammar.Blocked`, written case by case from the code and not derived from `Grammar.Grammatical`; what was read is proved to begin a grammatical construct (`Viability`).
- Parsing.Parser.Factor: a failure is not proved to happen only at a token that no grammatical continuation of what was read accepts. That rests on `Grammar.Blocked`, written case by case from the code and not derived from `Grammar.Grammatical`; what was read is proved to begin a grammatical construct (`Viability`).
- Parsing.Parser.Ternary: a failure is not proved to happen only at a token that no grammatical continuation of what was read accepts. That rests on `Grammar.Blocked`, written case by case from the code and not derived from `Grammar.Grammatical`; what was read is proved to begin a grammatical construct (`Viability`).
- Parsing.Parser.TernaryRest: a failure is not proved to happen only at a token that no grammatical continuation of what was read accepts. That rests on `Grammar.Blocked`, written case by case from the code and not derived from `Grammar.Grammatical`; what was read is proved to begin a grammatical construct (`Viability`).
- Parsing.Parser.TernaryBranches: a failure is not proved to happen only at a token that no grammatical continuation of what was read accepts. That rests on `Grammar.Blocked`, written case by case from the code and not derived from `Grammar.Grammatical`; what was read is proved to begin a grammatical construct (`Viability`).
- Parsing.Parser.Unary: a failure is not proved to happen only at a token that no grammatical continuation of what was read accepts. That rests on `Grammar.Blocked`, written case by case from the code and not derived from `Grammar.Grammatical`; what was read is proved to begin a grammatical construct (`Viability`).
- Parsing.Parser.Grouped: a failure is not proved to happen only at a token that no grammatical continuation of what was read accepts. That rests on `Grammar.Blocked`, written case by case from the code and not derived from `Grammar.Grammatical`; what was read is proved to begin a grammatical construct (`Viability`).
- The grammar is not proved unambiguous. The rule contracts say that the tree returned is one the grammar derives from exactly the tokens read, and that each rule stops before any operator it could still absorb; that no other derivation of the same tokens exists is shown only for the two inputs of `Grammar.LeftAssociativity` and `Grammar.AssignmentAssociativity`.
- Resolution.ResolveStmt: a `var`, `fun` or `class` declaration declares into the top scope, and an `if` or `while` may hold one outside a block, so its contract keeps the whole stack only for blocks, expressions, prints and returns.
- AstPrinterFacts.PrintBalanced: it assumes that no number or string literal and no operator lexeme holds a parenthesis. A string literal such as `"("` prints unbalanced.
- The `;` test before the increment clause (`src/com/yadav/lox/Parser.java:87`) is modelled as written, so the model rejects `for (;;)` as the code does; the evidently intended `)` test is not modelled.
- `clox` is not part of this model.
