/** Whole calculations on concrete text: examples of the intended arithmetic
    (such as `5-3` meaning 2), as the code computes them. */
module Scenarios {
  import opened Common
  import opened Lexing
  import opened Grammar
  import opened Printing
  import opened Evaluation
  import opened Calculator

  /** A one-digit literal prints as its digit. */
  lemma PrintDigit(n: nat) returns (s: string)
    requires n < 10
    ensures Printable(Node.Number(n as real)) && Print(Node.Number(n as real)) == s
    ensures s == [(('0' as int) + n) as char] && Spelling(Token.Number(n as real)) == s
  {
    var v := n as real;
    assert v.Floor == n;
    assert Tokens(Node.Number(v)) == [Token.Number(v)];
    assert Text([Token.Number(v)]) == NaturalDigits(n) + Text([]);
    s := NaturalDigits(n);
  }

  /** The primary of a one-digit literal at `p`, followed by a one-character
      token or the end of the text. */
  lemma DigitPrimary(s: string, p: nat, n: nat) returns (c: Cursor, d: Cursor)
    requires n < 10 && p < |s| && s[p] == (('0' as int) + n) as char
    requires Delimits(s, p + 1)
    ensures ValidCursor(c) && At(s, p) == Ok(c) && c.current == Some(Token.Number(n as real))
    ensures At(s, p + 1) == Ok(d) && PrimaryAt(c) == Ok(Parsed(Node.Number(n as real), d))
  {
    var w := PrintDigit(n);
    assert s[p..p + 1] == w;
    LexFirst(Token.Number(n as real), s, p, p + 1);
    AtDelimiter(s, p + 1);
    c := At(s, p).value;
    d := At(s, p + 1).value;
    NextIgnoresLookahead(c);
  }

  /** A one-digit literal at `p` followed by `=` or the end of the text is a
      whole operand of `=`. */
  lemma DigitOperand(s: string, p: nat, n: nat) returns (c: Cursor, d: Cursor)
    requires n < 10 && p < |s| && s[p] == (('0' as int) + n) as char
    requires p + 1 == |s| || s[p + 1] == '='
    ensures ValidCursor(c) && At(s, p) == Ok(c) && At(s, p + 1) == Ok(d)
    ensures d.current == (if p + 1 == |s| then None else Some(Equal))
    ensures AdditionAt(c) == Ok(Parsed(Node.Number(n as real), d))
  {
    c, d := DigitPrimary(s, p, n);
    AtDelimiter(s, p + 1);
    AdditionOfPrimary(c);
  }

  /** `5-3` is 3 minus 5. */
  lemma FiveMinusThree(math: MathLibrary)
    ensures Calculate("5-3", math) == Ok(-2.0)
  {
    var five := PrintDigit(5);
    var three := PrintDigit(3);
    DifferenceReversed(Node.Number(5.0), Node.Number(3.0), math, 5.0, 3.0);
    assert five + "-" + three == "5-3";
  }

  /** `8/2` divides 2 by 8. */
  lemma EightOverTwo(math: MathLibrary)
    ensures Calculate("8/2", math) == Ok(math.divide(2.0, 8.0))
  {
    var eight := PrintDigit(8);
    var two := PrintDigit(2);
    QuotientReversed(Node.Number(8.0), Node.Number(2.0), math, 8.0, 2.0);
    assert eight + "/" + two == "8/2";
  }

  /** `2^3` raises 2 to the power 3. */
  lemma TwoToTheThree(math: MathLibrary)
    ensures Calculate("2^3", math) == Ok(math.power(2.0, 3.0))
  {
    var two := PrintDigit(2);
    var three := PrintDigit(3);
    PowerInOrder(Node.Number(2.0), Node.Number(3.0), math, 2.0, 3.0);
    assert two + "^" + three == "2^3";
  }

  /** The text after the first expression is not checked: `1,2` is 1, and
      `1)@` is 1 although `@` starts no token. */
  lemma TrailingTextIgnored(math: MathLibrary)
    ensures Calculate("1,2", math) == Ok(1.0)
    ensures Calculate("1)@", math) == Ok(1.0)
  {
    var one := PrintDigit(1);
    ParsePrintedPrefix(Node.Number(1.0), ",2");
    assert one + ",2" == "1,2";
    CalculateIs("1,2", Node.Number(1.0), math, 1.0);
    ParsePrintedPrefix(Node.Number(1.0), ")@");
    assert one + ")@" == "1)@";
    CalculateIs("1)@", Node.Number(1.0), math, 1.0);
  }

  /** Empty text has no primary expression. */
  lemma EmptyText(math: MathLibrary)
    ensures Calculate("", math) == Err(ExpectedPrimary)
  {
  }

  /** The left side of `=` must be a variable. */
  lemma AssignmentToNumber(math: MathLibrary)
    ensures Calculate("2=4", math) == Err(InvalidAssignment)
  {
    NumberAssigned("2=4");
  }

  /** `2=4` does not parse: its left side is a number. */
  lemma NumberAssigned(s: string)
    requires s == "2=4"
    ensures Parse(s) == Err(InvalidAssignment)
  {
    var c, c1 := DigitOperand(s, 0, 2);
    var c2, c3 := DigitOperand(s, 2, 4);
    NextIgnoresLookahead(c1);
    AssignmentToNonVariable(c);
    ParseFails(s, c, InvalidAssignment);
  }

  /** `-2^2` is the negation of `2^2`: `^` binds tighter than the unary minus. */
  lemma MinusOutsidePower(math: MathLibrary)
    ensures Calculate("-2^2", math) == Ok(-math.power(2.0, 2.0))
  {
    NegatedPower("-2^2", math);
  }

  /** The value of `-2^2`. */
  lemma NegatedPower(s: string, math: MathLibrary)
    requires s == "-2^2"
    ensures Calculate(s, math) == Ok(-math.power(2.0, 2.0))
  {
    var power := Binary(right := Node.Number(2.0), left := Node.Number(2.0), operator := Caret);
    NegatedPowerTree(s);
    NegatedValue(power, math);
    CalculateIs(s, Unary(power, Minus), math, -math.power(2.0, 2.0));
  }

  /** The tree of `-2^2`: the negation of the power of 2 by 2. */
  lemma NegatedPowerTree(s: string)
    requires s == "-2^2"
    ensures Parse(s) == Ok(Unary(Binary(right := Node.Number(2.0), left := Node.Number(2.0), operator := Caret), Minus))
  {
    assert s[0..1] == "-";
    LexFirst(Minus, s, 0, 1);
    var c := At(s, 0).value;
    var c1, c2 := DigitPrimary(s, 1, 2);
    var c3, c4 := DigitPrimary(s, 3, 2);
    NextIgnoresLookahead(c);
    NextIgnoresLookahead(c2);
    PowerOfTwo(c1);
    var power := Binary(right := Node.Number(2.0), left := Node.Number(2.0), operator := Caret);
    assert UnaryAt(c) == Ok(Parsed(Unary(power, Minus), c4));
    ExpressionOfUnary(c);
    ParseFrom(s, c, Unary(power, Minus), c4);
  }

  /** The value of the negation of a power. */
  lemma NegatedValue(power: Node, math: MathLibrary)
    requires power == Binary(right := Node.Number(2.0), left := Node.Number(2.0), operator := Caret)
    ensures Evaluate(Unary(power, Minus), math) == Ok(Node.Number(-math.power(2.0, 2.0)))
  {
  }

  /** Minus signs nest: `--2` is the negation of the negation of 2. */
  lemma DoubleNegation(math: MathLibrary)
    ensures Calculate("--2", math) == Ok(2.0)
  {
    var inner := Unary(Node.Number(2.0), Minus);
    DoubleNegationTree("--2");
    UnaryValue(Node.Number(2.0), Minus, math);
    UnaryValue(inner, Minus, math);
    CalculateIs("--2", Unary(inner, Minus), math, 2.0);
  }

  /** The tree of `--2`. */
  lemma DoubleNegationTree(s: string)
    requires s == "--2"
    ensures Parse(s) == Ok(Unary(Unary(Node.Number(2.0), Minus), Minus))
  {
    assert s[0..1] == "-" && s[1..2] == "-";
    LexFirst(Minus, s, 0, 1);
    LexFirst(Minus, s, 1, 2);
    var c := At(s, 0).value;
    var c1 := At(s, 1).value;
    var c2, d := DigitPrimary(s, 2, 2);
    NextIgnoresLookahead(c);
    NextIgnoresLookahead(c1);
    UnaryOfPrimary(c2);
    NegationOfUnary(c1, c2, Node.Number(2.0), d);
    NegationOfUnary(c, c1, Unary(Node.Number(2.0), Minus), d);
    ExpressionOfUnary(c);
    ParseFrom(s, c, Unary(Unary(Node.Number(2.0), Minus), Minus), d);
  }

  /** `root` reads a second argument, so `root(8)` fails out of bounds. */
  lemma RootOfOneArgument(math: MathLibrary)
    ensures Calculate("root(8)", math) == Err(ArgumentIndexOutOfBounds)
  {
    var t := FunctionCall("root", [Node.Number(8.0)]);
    assert Printable(t);
    assert Print(t) == "root(8)";
    ParsePrinted(t);
  }

  /** The arguments are evaluated before the name is looked up: in `foo(x)`
      the bare variable fails first, not the unknown name. */
  lemma ArgumentBeforeName(math: MathLibrary)
    ensures Calculate("foo(x)", math) == Err(InvalidNode)
  {
    var t := FunctionCall("foo", [Variable("x")]);
    assert Printable(t);
    assert Print(t) == "foo(x)";
    ParsePrinted(t);
    ArgumentErrorFirst("foo", [Variable("x")], math, 0);
  }

  /** A character that starts no token fails the calculation once the parser
      reads it as lookahead. */
  lemma StrayCharacter(math: MathLibrary)
    ensures Calculate("1@", math) == Err(UnexpectedCharacter('@'))
  {
    var s := "1@";
    assert NumberEnd(s, 0, false) == Ok(1);
    assert s[0..1] == "1";
    assert Lex(s, 0) == Ok(Scan(Some(Token.Number(1.0)), 0, 1));
    assert Lex(s, 1) == Err(UnexpectedCharacter('@'));
  }
}
