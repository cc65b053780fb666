/** The whole pipeline of `calculate`: a tokenizer over the text, a parser that
    reads one expression from it, and the evaluator.  Where the calculator
    panics, the model returns the `Error` of that panic. */
module Calculator {
  import opened Common
  import opened Lexing
  import opened Grammar
  import opened Parsing
  import opened Printing
  import opened Evaluation

  /** The tree of the one expression at the start of `expr`; text after it is
      not lexed beyond the one token of lookahead, and not checked. */
  function Parse(expr: string): (r: Result<Node>)
    ensures r.Ok? ==> WellFormed(r.value)
    ensures r.Err? ==> IsSyntaxError(r.error)
  {
    var c :- StartCursor(expr);
    var parsed :- ExpressionAt(c);
    Ok(parsed.node)
  }

  /** The number `expr` evaluates to: a text that does not parse fails with
      the parser's error, and a result is the value of the parsed tree. */
  function Calculate(expr: string, math: MathLibrary): (r: Result<real>)
    ensures Parse(expr).Err? ==> r == Err(Parse(expr).error)
    ensures r.Ok? ==> Parse(expr).Ok? && Evaluate(Parse(expr).value, math) == Ok(Node.Number(r.value))
  {
    var tree :- Parse(expr);
    var result :- Evaluate(tree, math);
    if result.Number? then Ok(result.number) else Err(InvalidResult)
  }

  /** `calculate` as the program runs it: a tokenizer, a parser that pulls the
      first token, one `parse_expression`, then the evaluator. */
  method Run(expr: string, math: MathLibrary) returns (r: Result<real>)
    ensures r == Calculate(expr, math)
  {
    var tokenizer := new Tokenizer(expr);
    var parser :- Parser.New(tokenizer);
    var tree :- parser.ParseExpression();
    var result :- Evaluate(tree, math);
    if result.Number? {
      r := Ok(result.number);
    } else {
      r := Err(InvalidResult);
    }
  }

  /** A calculation succeeds exactly when the text parses to an evaluable tree;
      it fails with a syntax error, a bare variable, an unknown function name
      or a missing argument, and never with the final "Invalid result". */
  lemma CalculatesExactly(expr: string, math: MathLibrary)
    ensures Calculate(expr, math).Ok? <==> Parse(expr).Ok? && Evaluable(Parse(expr).value)
    ensures Calculate(expr, math).Err? ==>
              var e := Calculate(expr, math).error;
              IsSyntaxError(e) || IsEvaluationError(e)
  {
    if Parse(expr).Ok? {
      EvaluatesExactly(Parse(expr).value, math);
    }
  }

  /** A calculation over text that parses to `tree` is the evaluation of `tree`. */
  lemma CalculateParsed(expr: string, tree: Node, math: MathLibrary)
    requires Parse(expr) == Ok(tree)
    ensures Evaluate(tree, math).Ok? ==> Calculate(expr, math) == Ok(Evaluate(tree, math).value.number)
    ensures Evaluate(tree, math).Err? ==> Calculate(expr, math) == Err(Evaluate(tree, math).error)
  {
  }

  /** A calculation over text that parses to a tree of value `v` gives `v`. */
  lemma CalculateIs(expr: string, tree: Node, math: MathLibrary, v: real)
    requires Parse(expr) == Ok(tree) && Evaluate(tree, math) == Ok(Node.Number(v))
    ensures Calculate(expr, math) == Ok(v)
  {
  }

  /** Text whose first token starts an expression that fails to parse fails
      to parse with the same error. */
  lemma ParseFails(s: string, c: Cursor, e: Error)
    requires StartCursor(s) == Ok(c) && ExpressionAt(c) == Err(e)
    ensures Parse(s) == Err(e)
  {
  }

  // The printer and the parser.

  /** Parsing stops after one expression: the printed text of a tree, followed
      by `)`, `,` or `|` and anything at all, parses back to the tree. */
  lemma ParsePrintedPrefix(t: Node, rest: string)
    requires Printable(t)
    requires rest == [] || rest[0] == ')' || rest[0] == ',' || rest[0] == '|'
    ensures Parse(Print(t) + rest) == Ok(t)
  {
    var c, d := LexPrinted(t, rest);
    ExpressionOfTokens(t, c, d);
    ParseFrom(Print(t) + rest, c, t, d);
  }

  /** The parser states at the start and at the end of a printed tree. */
  lemma LexPrinted(t: Node, rest: string) returns (c: Cursor, d: Cursor)
    requires Printable(t)
    requires rest == [] || rest[0] == ')' || rest[0] == ',' || rest[0] == '|'
    ensures StartCursor(Print(t) + rest) == Ok(c) && Walk(c, Tokens(t)) == Some(d)
    ensures d.current == None || d.current == Some(CloseParen) || d.current == Some(Comma) || d.current == Some(Pipe)
  {
    TokensPrintable(t);
    var w := Print(t);
    var s := w + rest;
    assert s[0..|w|] == w;
    c, d := LexWhole(Tokens(t), s, |w|);
  }

  /** Text whose first token starts an expression that parses to `t` parses to `t`. */
  lemma ParseFrom(s: string, c: Cursor, t: Node, d: Cursor)
    requires StartCursor(s) == Ok(c) && ExpressionAt(c) == Ok(Parsed(t, d))
    ensures Parse(s) == Ok(t)
  {
  }

  /** The printer and the parser are inverse: printing a tree and parsing the
      text gives the tree back. */
  lemma ParsePrinted(t: Node)
    requires Printable(t)
    ensures Parse(Print(t)) == Ok(t)
  {
    ParsePrintedPrefix(t, "");
    assert Print(t) + "" == Print(t);
  }

  /** The tokens of `a op b` are printable and separated, and their text is the
      printed operands around the operator. */
  lemma InfixTokens(a: Node, op: Token, b: Node)
    requires Printable(a) && Printable(b)
    requires op == Plus || op == Minus || op == Asterisk || op == Slash || op == Caret
    ensures AllPrintable(Tokens(a) + [op] + Tokens(b)) && Separated(Tokens(a) + [op] + Tokens(b))
    ensures Text(Tokens(a) + [op] + Tokens(b)) == Print(a) + Spelling(op) + Print(b)
  {
    var ta, tb := Tokens(a), Tokens(b);
    TokensPrintable(a);
    TokensPrintable(b);
    Joined(ta, [op], tb);
    Join(ta, [op]);
    Join(ta + [op], tb);
    assert Text([op]) == Spelling(op);
  }

  /** The parser states along `a op b` followed by the end of the text. */
  lemma LexInfix(a: Node, op: Token, b: Node) returns (c: Cursor, cm: Cursor, cb: Cursor, d: Cursor)
    requires Printable(a) && Printable(b)
    requires op == Plus || op == Minus || op == Asterisk || op == Slash || op == Caret
    ensures StartCursor(Print(a) + Spelling(op) + Print(b)) == Ok(c)
    ensures PrimaryReads(c, a, cm) && cm.current == Some(op) && NextCursor(cm) == Ok(cb)
    ensures PrimaryReads(cb, b, d) && d.current == None
  {
    var ta, tb := Tokens(a), Tokens(b);
    var s := Print(a) + Spelling(op) + Print(b);
    InfixTokens(a, op, b);
    assert s[0..|s|] == s;
    c, d := LexText(ta + [op] + tb, s, 0, |s|);
    AtDelimiter(s, |s|);
    cm, cb := Around(c, ta, [op], tb, d);
    WalkOne(cm, op, cb);
    PrimaryOfTokens(a, c, cm);
    PrimaryOfTokens(b, cb, d);
  }

  /** `a op b` for `+ - * /`: the parser keeps the first operand `a` in the
      node's `right` field and the second operand `b` in its `left` field. */
  lemma InfixOperandsSwapped(a: Node, op: Token, b: Node)
    requires Printable(a) && Printable(b)
    requires op == Plus || op == Minus || op == Asterisk || op == Slash
    ensures Parse(Print(a) + Spelling(op) + Print(b)) == Ok(Binary(right := a, left := b, operator := op))
  {
    var c, cm, cb, d := LexInfix(a, op, b);
    OperationOfPrimaries(c, cm, cb, d, a, b);
  }

  /** `a ^ b`: the base `a` is the node's `left` field and the exponent its
      `right` field. */
  lemma PowerOperandsInOrder(a: Node, b: Node)
    requires Printable(a) && Printable(b)
    ensures Parse(Print(a) + "^" + Print(b)) == Ok(Binary(right := b, left := a, operator := Caret))
  {
    var c, cm, cb, d := LexInfix(a, Caret, b);
    PowerOfPrimaries(c, cm, cb, d, a, b);
  }

  /** A calculation of the text `s` of `a op b` for `+ - * /` is the
      evaluation of the node whose `right` is `a` and whose `left` is `b`. */
  lemma CalculateInfix(s: string, a: Node, op: Token, b: Node, math: MathLibrary, v: real)
    requires Printable(a) && Printable(b)
    requires (op == Plus || op == Minus || op == Asterisk || op == Slash) && s == Print(a) + Spelling(op) + Print(b)
    requires Evaluate(Binary(right := a, left := b, operator := op), math) == Ok(Node.Number(v))
    ensures Calculate(s, math) == Ok(v)
  {
    InfixOperandsSwapped(a, op, b);
    CalculateIs(s, Binary(a, b, op), math, v);
  }

  // What the swap does to the arithmetic.

  /** `a - b` computes the value `y` of `b` minus the value `x` of `a`. */
  lemma DifferenceReversed(a: Node, b: Node, math: MathLibrary, x: real, y: real)
    requires Printable(a) && Printable(b)
    requires Evaluate(a, math) == Ok(Node.Number(x)) && Evaluate(b, math) == Ok(Node.Number(y))
    ensures Calculate(Print(a) + "-" + Print(b), math) == Ok(y - x)
  {
    Subtracted(a, b, math, x, y);
    Subtraction(a, b, math, y - x);
  }

  /** The node with `right` `a` and `left` `b` evaluates to the value of `b`
      minus the value of `a`. */
  lemma Subtracted(a: Node, b: Node, math: MathLibrary, x: real, y: real)
    requires Evaluate(a, math) == Ok(Node.Number(x)) && Evaluate(b, math) == Ok(Node.Number(y))
    ensures Evaluate(Binary(a, b, Minus), math) == Ok(Node.Number(y - x))
  {
  }

  /** The text of `a - b` calculates to the value of the node with `right`
      `a` and `left` `b`. */
  lemma Subtraction(a: Node, b: Node, math: MathLibrary, v: real)
    requires Printable(a) && Printable(b)
    requires Evaluate(Binary(a, b, Minus), math) == Ok(Node.Number(v))
    ensures Calculate(Print(a) + "-" + Print(b), math) == Ok(v)
  {
    assert Spelling(Minus) == "-";
    CalculateInfix(Print(a) + "-" + Print(b), a, Minus, b, math, v);
  }

  /** `a / b` divides the value `y` of `b` by the value `x` of `a`. */
  lemma QuotientReversed(a: Node, b: Node, math: MathLibrary, x: real, y: real)
    requires Printable(a) && Printable(b)
    requires Evaluate(a, math) == Ok(Node.Number(x)) && Evaluate(b, math) == Ok(Node.Number(y))
    ensures Calculate(Print(a) + "/" + Print(b), math) == Ok(math.divide(y, x))
  {
    assert Evaluate(Binary(a, b, Slash), math) == Ok(Node.Number(math.divide(y, x)));
    assert Spelling(Slash) == "/";
    CalculateInfix(Print(a) + "/" + Print(b), a, Slash, b, math, math.divide(y, x));
  }

  /** `a ^ b` raises the value `x` of `a` to the value `y` of `b`. */
  lemma PowerInOrder(a: Node, b: Node, math: MathLibrary, x: real, y: real)
    requires Printable(a) && Printable(b)
    requires Evaluate(a, math) == Ok(Node.Number(x)) && Evaluate(b, math) == Ok(Node.Number(y))
    ensures Calculate(Print(a) + "^" + Print(b), math) == Ok(math.power(x, y))
  {
    assert Evaluate(Binary(b, a, Caret), math) == Ok(Node.Number(math.power(x, y)));
    PowerOperandsInOrder(a, b);
    CalculateIs(Print(a) + "^" + Print(b), Binary(b, a, Caret), math, math.power(x, y));
  }
}
