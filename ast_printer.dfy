/**
 * The printer of src/com/yadav/lox/AstPrinter.java: expressions as
 * parenthesised prefix text, e.g. `(* (- 123) (group 45.55))`. The printer
 * is a visitor over the expression kinds the tree had when it was written
 * (ternary, binary, grouping, literal and unary); the other kinds are outside
 * its domain.
 */
module AstPrinting {
  import opened Ast

  /** No character of `s` is a parenthesis. */
  predicate NoParens(s: string) {
    forall i | 0 <= i < |s| :: s[i] != '(' && s[i] != ')'
  }

  /** `visitLiteralExpr`: `null` prints as `nil`, everything else as Java's `toString` of it. */
  function LiteralText(v: Value): string {
    match v
    case NilValue => "nil"
    case BoolValue(b) => if b then "true" else "false"
    case NumberValue(text) => text
    case StringValue(s) => s
  }

  /**
   * `nil`, `true` and `false` print as non-empty words without parentheses:
   * only a number's or a string's own text can bring a parenthesis into
   * the printed tree.
   */
  lemma KeywordLiteralsPlain(v: Value)
    requires v.NilValue? || v.BoolValue?
    ensures |LiteralText(v)| > 0 && NoParens(LiteralText(v))
  {
  }

  /** The expressions the printer's visitor handles. */
  predicate Printable(e: Expr) {
    match e
    case Ternary(left, _, mid, _, right) => Printable(left) && Printable(mid) && Printable(right)
    case Binary(left, _, right) => Printable(left) && Printable(right)
    case Grouping(inner) => Printable(inner)
    case Literal(_) => true
    case Unary(_, right) => Printable(right)
    case _ => false
  }

  /** Each text, preceded by a space: what the loop of `parenthesize` appends. */
  function Spaced(parts: seq<string>): string {
    if parts == [] then "" else Spaced(parts[..|parts| - 1]) + " " + parts[|parts| - 1]
  }

  /** `parenthesize(name, e1, …, en)`, given the printed operands. */
  function Parenthesize(name: string, parts: seq<string>): string {
    "(" + name + Spaced(parts) + ")"
  }

  /** `parenthesize_ternary(left, mid, right)`, given the printed operands. */
  function ParenthesizeTernary(left: string, mid: string, right: string): string {
    "(? ( " + left + " )(: " + mid + " " + right + " ))"
  }

  /**
   * `print(expr)`. Anything but a literal prints as text that opens and
   * closes with a parenthesis.
   */
  function Printed(e: Expr): (r: string)
    requires Printable(e)
    ensures !e.Literal? ==> |r| >= 2 && r[0] == '(' && r[|r| - 1] == ')'
  {
    match e
    case Ternary(left, _, mid, _, right) => ParenthesizeTernary(Printed(left), Printed(mid), Printed(right))
    case Binary(left, operator, right) => Parenthesize(operator.lexeme, [Printed(left), Printed(right)])
    case Grouping(inner) => Parenthesize("group", [Printed(inner)])
    case Literal(v) => LiteralText(v)
    case Unary(operator, right) => Parenthesize(operator.lexeme, [Printed(right)])
  }

  /** The operands of a `parenthesize` call, each printed. */
  function PrintAll(exprs: seq<Expr>): (r: seq<string>)
    requires forall i | 0 <= i < |exprs| :: Printable(exprs[i])
    ensures |r| == |exprs| && forall i | 0 <= i < |exprs| :: r[i] == Printed(exprs[i])
  {
    if exprs == [] then [] else PrintAll(exprs[..|exprs| - 1]) + [Printed(exprs[|exprs| - 1])]
  }

  /** `parenthesize`, with its `StringBuilder` and its loop over the operands. */
  method BuildParenthesized(name: string, exprs: seq<Expr>) returns (r: string)
    requires forall i | 0 <= i < |exprs| :: Printable(exprs[i])
    ensures r == Parenthesize(name, PrintAll(exprs))
  {
    ghost var printed := PrintAll(exprs);
    var builder := "(" + name;
    for i := 0 to |exprs|
      invariant builder == "(" + name + Spaced(printed[..i])
    {
      assert printed[..i + 1][..i] == printed[..i];
      builder := builder + " " + Printed(exprs[i]);
    }
    assert printed[..|exprs|] == printed;
    r := builder + ")";
  }
}
