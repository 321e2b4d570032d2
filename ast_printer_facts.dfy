/**
 * Properties of the printer of src/com/yadav/lox/AstPrinter.java: the text
 * it prints has balanced parentheses whenever no number or string literal
 * holds a parenthesis, and the example tree of its `main` prints as expected.
 */
module AstPrinterFacts {
  import opened Ast
  import opened AstPrinting

  /**
   * Read left to right from nesting depth `from`, `s` never closes a
   * parenthesis it did not open and ends at depth `to`.
   */
  predicate Nests(s: string, from: nat, to: nat)
    decreases |s|
  {
    if s == [] then from == to
    else if s[0] == '(' then Nests(s[1..], from + 1, to)
    else if s[0] == ')' then from > 0 && Nests(s[1..], from - 1, to)
    else Nests(s[1..], from, to)
  }

  predicate Balanced(s: string) {
    Nests(s, 0, 0)
  }

  /** No number or string literal of `e` has a parenthesis in its text. */
  predicate PlainLiterals(e: Expr) {
    match e
    case Ternary(left, _, mid, _, right) => PlainLiterals(left) && PlainLiterals(mid) && PlainLiterals(right)
    case Binary(left, _, right) => PlainLiterals(left) && PlainLiterals(right)
    case Grouping(inner) => PlainLiterals(inner)
    case Literal(v) =>
      && (v.NumberValue? ==> NoParens(v.text))
      && (v.StringValue? ==> NoParens(v.s))
    case Unary(_, right) => PlainLiterals(right)
    case _ => true
  }

  lemma {:induction false} NestsAppend(a: string, b: string, from: nat, mid: nat, to: nat)
    requires Nests(a, from, mid) && Nests(b, mid, to)
    decreases |a|
    ensures Nests(a + b, from, to)
  {
    if a == [] {
      assert a + b == b;
    } else {
      assert (a + b)[0] == a[0] && (a + b)[1..] == a[1..] + b;
      var next: nat := if a[0] == '(' then from + 1 else if a[0] == ')' then from - 1 else from;
      NestsAppend(a[1..], b, next, mid, to);
    }
  }

  /** Nesting text keeps nesting when read from a deeper start. */
  lemma {:induction false} NestsDeeper(s: string, from: nat, to: nat, extra: nat)
    requires Nests(s, from, to)
    decreases |s|
    ensures Nests(s, from + extra, to + extra)
  {
    if s != [] {
      var next: nat := if s[0] == '(' then from + 1 else if s[0] == ')' then from - 1 else from;
      NestsDeeper(s[1..], next, to, extra);
    }
  }

  lemma {:induction false} PlainNests(s: string, depth: nat)
    requires NoParens(s)
    decreases |s|
    ensures Nests(s, depth, depth)
  {
    if s != [] {
      PlainNests(s[1..], depth);
    }
  }

  lemma {:induction false} SpacedBalanced(parts: seq<string>)
    requires forall i | 0 <= i < |parts| :: Balanced(parts[i])
    decreases |parts|
    ensures Balanced(Spaced(parts))
  {
    if parts != [] {
      SpacedBalanced(parts[..|parts| - 1]);
      NestsAppend(Spaced(parts[..|parts| - 1]), " ", 0, 0, 0);
      NestsAppend(Spaced(parts[..|parts| - 1]) + " ", parts[|parts| - 1], 0, 0, 0);
    }
  }

  /** `parenthesize` of balanced operands, under a name without parentheses, is balanced. */
  lemma ParenthesizeBalanced(name: string, parts: seq<string>)
    requires NoParens(name)
    requires forall i | 0 <= i < |parts| :: Balanced(parts[i])
    ensures Balanced(Parenthesize(name, parts))
  {
    PlainNests(name, 1);
    SpacedBalanced(parts);
    NestsDeeper(Spaced(parts), 0, 0, 1);
    NestsAppend("(", name, 0, 1, 1);
    NestsAppend("(" + name, Spaced(parts), 0, 1, 1);
    NestsAppend("(" + name + Spaced(parts), ")", 0, 1, 0);
  }

  lemma TernaryBalanced(left: string, mid: string, right: string)
    requires Balanced(left) && Balanced(mid) && Balanced(right)
    ensures Balanced(ParenthesizeTernary(left, mid, right))
  {
    NestsDeeper(left, 0, 0, 2);
    NestsDeeper(mid, 0, 0, 2);
    NestsDeeper(right, 0, 0, 2);
    assert Nests("(? ( ", 0, 2);
    assert Nests(" )(: ", 2, 2);
    assert Nests(" ", 2, 2);
    assert Nests(" ))", 2, 0);
    var s1 := "(? ( " + left;
    NestsAppend("(? ( ", left, 0, 2, 2);
    var s2 := s1 + " )(: ";
    NestsAppend(s1, " )(: ", 0, 2, 2);
    var s3 := s2 + mid;
    NestsAppend(s2, mid, 0, 2, 2);
    var s4 := s3 + " ";
    NestsAppend(s3, " ", 0, 2, 2);
    var s5 := s4 + right;
    NestsAppend(s4, right, 0, 2, 2);
    NestsAppend(s5, " ))", 0, 2, 0);
  }

  /**
   * When no number or string literal holds a parenthesis and no operator's lexeme
   * does, every parenthesis the printer writes is matched.
   */
  lemma {:induction false} PrintBalanced(e: Expr)
    requires Printable(e) && PlainLiterals(e) && PlainOperators(e)
    ensures Balanced(Printed(e))
  {
    match e
    case Ternary(left, _, mid, _, right) =>
      PrintBalanced(left);
      PrintBalanced(mid);
      PrintBalanced(right);
      TernaryBalanced(Printed(left), Printed(mid), Printed(right));
    case Binary(left, operator, right) =>
      PrintBalanced(left);
      PrintBalanced(right);
      ParenthesizeBalanced(operator.lexeme, [Printed(left), Printed(right)]);
    case Grouping(inner) =>
      PrintBalanced(inner);
      assert NoParens("group");
      ParenthesizeBalanced("group", [Printed(inner)]);
    case Literal(v) =>
      if v.NilValue? || v.BoolValue? {
        KeywordLiteralsPlain(v);
      }
      PlainNests(LiteralText(v), 0);
    case Unary(operator, right) =>
      PrintBalanced(right);
      ParenthesizeBalanced(operator.lexeme, [Printed(right)]);
  }

  /** Every operator lexeme of `e` is free of parentheses, as the lexer's operators are. */
  predicate PlainOperators(e: Expr) {
    match e
    case Ternary(left, _, mid, _, right) => PlainOperators(left) && PlainOperators(mid) && PlainOperators(right)
    case Binary(left, operator, right) => NoParens(operator.lexeme) && PlainOperators(left) && PlainOperators(right)
    case Grouping(inner) => PlainOperators(inner)
    case Literal(_) => true
    case Unary(operator, right) => NoParens(operator.lexeme) && PlainOperators(right)
    case _ => true
  }

  lemma UnaryExample(minus: Token, operand: string)
    requires minus.lexeme == "-" && operand == "123"
    ensures Printed(Unary(minus, Literal(NumberValue(operand)))) == "(- 123)"
  {
    assert [operand][..0] == [];
    assert Spaced([operand]) == " 123";
  }

  lemma GroupingExample(operand: string)
    requires operand == "45.55"
    ensures Printed(Grouping(Literal(NumberValue(operand)))) == "(group 45.55)"
  {
    assert [operand][..0] == [];
    assert Spaced([operand]) == " 45.55";
  }

  lemma ParenthesizeTwo(name: string, a: string, b: string)
    ensures Parenthesize(name, [a, b]) == "(" + name + " " + a + " " + b + ")"
  {
    assert [a, b][..1] == [a] && [a][..0] == [];
    assert Spaced([a]) == "" + " " + a == " " + a;
    assert Spaced([a, b]) == " " + a + " " + b;
  }

  /** The tree built by the printer's `main`: `-123 * (45.55)`. */
  lemma MainExample(minus: Token, star: Token, e: Expr)
    requires minus.lexeme == "-" && star.lexeme == "*"
    requires e == Binary(Unary(minus, Literal(NumberValue("123"))), star, Grouping(Literal(NumberValue("45.55"))))
    ensures Printable(e) && Printed(e) == "(* (- 123) (group 45.55))"
  {
    UnaryExample(minus, "123");
    GroupingExample("45.55");
    ParenthesizeTwo("*", "(- 123)", "(group 45.55)");
    assert Printable(e.left) && Printable(e.right);
    assert Printed(e) == Parenthesize("*", ["(- 123)", "(group 45.55)"]);
  }
}
