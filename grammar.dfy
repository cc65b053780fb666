/** The expression tree and the recursive-descent grammar of the calculator, as
    functions of the parser's state.  The parser keeps exactly one token of
    lookahead and pulls the next token from the lexer only when it moves on, so
    its state is a `Cursor`: the input, the lexer's scan position and the
    lookahead token.  Text after the point where parsing stops is never lexed. */
module Grammar {
  import opened Common
  import opened Lexing

  /** An expression tree.  `Binary` and `Unary` keep the operator token they were
      built from; `Binary` names its two children `right` and `left`. */
  datatype Node =
    | Number(number: real)
    | Binary(right: Node, left: Node, operator: Token)
    | Unary(right: Node, operator: Token)
    | FunctionCall(name: string, args: seq<Node>)
    | Variable(name: string)
    | Assignment(name: string, value: Node)

  /** A name as the lexer produces it: a non-empty run of ASCII letters. */
  predicate IsName(s: string) { |s| > 0 && AllLetters(s) }

  /** The shape of every tree the parser builds: binary operators are among
      `+ - * / ^`, the only unary operator is `-`, every call has at least one
      argument, and every name is an identifier. */
  predicate WellFormed(n: Node) {
    match n
    case Number(_) => true
    case Binary(right, left, op) =>
      (op == Plus || op == Minus || op == Asterisk || op == Slash || op == Caret)
      && WellFormed(right) && WellFormed(left)
    case Unary(right, op) => op == Minus && WellFormed(right)
    case FunctionCall(name, args) =>
      IsName(name) && |args| >= 1 && forall a | a in args :: WellFormed(a)
    case Variable(name) => IsName(name)
    case Assignment(name, value) => IsName(name) && WellFormed(value)
  }

  /** The failures that parsing can end in: the lexer's, and the parser's own. */
  predicate IsSyntaxError(e: Error) {
    e.UnexpectedCharacter?
    || e == InvalidAssignment || e == ExpectedComma || e == ExpectedClosingParenthesis
    || e == ExpectedClosingPipe || e == ExpectedPrimary
  }

  /** The parser's state: the input text, the lexer's scan position, and the
      lookahead token (`None` once the input is exhausted). */
  datatype Cursor = Cursor(input: string, pos: nat, current: Option<Token>)

  /** The scan position is inside the input and a lookahead identifier is a name. */
  predicate ValidCursor(c: Cursor) {
    c.pos <= |c.input|
    && (c.current.Some? && c.current.value.Identifier? ==> IsName(c.current.value.name))
  }

  /** What is left to consume: the unscanned characters and the lookahead. */
  function Rank(c: Cursor): nat {
    (if c.pos <= |c.input| then |c.input| - c.pos else 0) + (if c.current.Some? then 1 else 0)
  }

  /** `c2` is a later state over the same input, strictly later when `strict`. */
  predicate Later(c: Cursor, c2: Cursor, strict: bool) {
    ValidCursor(c2) && c2.input == c.input
    && (if strict then Rank(c2) < Rank(c) else Rank(c2) <= Rank(c))
  }

  /** Replaces the lookahead by the next token of the lexer. */
  function NextCursor(c: Cursor): (r: Result<Cursor>)
    requires ValidCursor(c)
    ensures r.Ok? ==> Later(c, r.value, c.current.Some?)
    ensures r.Ok? ==> r.value.pos >= c.pos
    ensures r.Err? ==> r.error.UnexpectedCharacter?
  {
    var s :- Lex(c.input, c.pos);
    Ok(Cursor(c.input, s.end, s.token))
  }

  /** The state of a new parser: the first token has been read. */
  function StartCursor(input: string): (r: Result<Cursor>)
    ensures r.Ok? ==> ValidCursor(r.value) && r.value.input == input
    ensures r.Ok? <==> Lex(input, 0).Ok?
    ensures r.Ok? ==> r.value.current == Lex(input, 0).value.token
                      && r.value.pos == Lex(input, 0).value.end
    ensures r.Err? ==> r.error == Lex(input, 0).error
  {
    NextCursor(Cursor(input, 0, None))
  }

  /** A parsed subtree and the state after it. */
  datatype Parsed = Parsed(node: Node, after: Cursor)

  /** A parsed argument list and the state after its closing parenthesis. */
  datatype Arguments = Arguments(args: seq<Node>, after: Cursor)

  /** expression := assignment */
  function ExpressionAt(c: Cursor): (r: Result<Parsed>)
    requires ValidCursor(c)
    ensures r.Ok? ==> Later(c, r.value.after, true) && WellFormed(r.value.node)
    ensures r.Err? ==> IsSyntaxError(r.error)
    decreases Rank(c), 6
  {
    AssignmentAt(c)
  }

  /** assignment := addition ( '=' addition )?, the left side a bare variable */
  function AssignmentAt(c: Cursor): (r: Result<Parsed>)
    requires ValidCursor(c)
    ensures r.Ok? ==> Later(c, r.value.after, true) && WellFormed(r.value.node)
    ensures r.Err? ==> IsSyntaxError(r.error)
    decreases Rank(c), 5
  {
    var target :- AdditionAt(c);
    if target.after.current == Some(Equal) then
      var c2 :- NextCursor(target.after);
      var value :- AdditionAt(c2);
      if target.node.Variable? then
        Ok(Parsed(Assignment(target.node.name, value.node), value.after))
      else
        Err(InvalidAssignment)
    else
      Ok(target)
  }

  /** addition := multiplication ( ('+' | '-') multiplication )* */
  function AdditionAt(c: Cursor): (r: Result<Parsed>)
    requires ValidCursor(c)
    ensures r.Ok? ==> Later(c, r.value.after, true) && WellFormed(r.value.node)
    ensures r.Err? ==> IsSyntaxError(r.error)
    decreases Rank(c), 4
  {
    var first :- MultiplicationAt(c);
    AdditionRest(first.node, first.after)
  }

  /** The loop of `addition` with `acc` parsed so far: each `+` or `-` and the
      operand after it make a node whose `right` is `acc` and whose `left` is the
      new operand. */
  function AdditionRest(acc: Node, c: Cursor): (r: Result<Parsed>)
    requires ValidCursor(c)
    ensures r.Ok? ==> Later(c, r.value.after, false)
    ensures r.Ok? && WellFormed(acc) ==> WellFormed(r.value.node)
    ensures r.Err? ==> IsSyntaxError(r.error)
    decreases Rank(c), 0
  {
    if c.current == Some(Plus) || c.current == Some(Minus) then
      var c2 :- NextCursor(c);
      var operand :- MultiplicationAt(c2);
      AdditionRest(Binary(acc, operand.node, c.current.value), operand.after)
    else
      Ok(Parsed(acc, c))
  }

  /** multiplication := unary ( ('*' | '/') unary )* */
  function MultiplicationAt(c: Cursor): (r: Result<Parsed>)
    requires ValidCursor(c)
    ensures r.Ok? ==> Later(c, r.value.after, true) && WellFormed(r.value.node)
    ensures r.Err? ==> IsSyntaxError(r.error)
    decreases Rank(c), 3
  {
    var first :- UnaryAt(c);
    MultiplicationRest(first.node, first.after)
  }

  /** The loop of `multiplication`, built like `AdditionRest`. */
  function MultiplicationRest(acc: Node, c: Cursor): (r: Result<Parsed>)
    requires ValidCursor(c)
    ensures r.Ok? ==> Later(c, r.value.after, false)
    ensures r.Ok? && WellFormed(acc) ==> WellFormed(r.value.node)
    ensures r.Err? ==> IsSyntaxError(r.error)
    decreases Rank(c), 0
  {
    if c.current == Some(Asterisk) || c.current == Some(Slash) then
      var c2 :- NextCursor(c);
      var operand :- UnaryAt(c2);
      MultiplicationRest(Binary(acc, operand.node, c.current.value), operand.after)
    else
      Ok(Parsed(acc, c))
  }

  /** unary := '-' unary | exponentiation */
  function UnaryAt(c: Cursor): (r: Result<Parsed>)
    requires ValidCursor(c)
    ensures r.Ok? ==> Later(c, r.value.after, true) && WellFormed(r.value.node)
    ensures r.Err? ==> IsSyntaxError(r.error)
    decreases Rank(c), 2
  {
    if c.current == Some(Minus) then
      var c2 :- NextCursor(c);
      var operand :- UnaryAt(c2);
      Ok(Parsed(Unary(operand.node, Minus), operand.after))
    else
      ExponentiationAt(c)
  }

  /** exponentiation := primary ( '^' exponentiation )?, so `^` groups to the
      right; the base is the `left` child and the exponent the `right` one. */
  function ExponentiationAt(c: Cursor): (r: Result<Parsed>)
    requires ValidCursor(c)
    ensures r.Ok? ==> Later(c, r.value.after, true) && WellFormed(r.value.node)
    ensures r.Err? ==> IsSyntaxError(r.error)
    decreases Rank(c), 1
  {
    var base :- PrimaryAt(c);
    if base.after.current == Some(Caret) then
      var c2 :- NextCursor(base.after);
      var exponent :- ExponentiationAt(c2);
      Ok(Parsed(Binary(exponent.node, base.node, Caret), exponent.after))
    else
      Ok(base)
  }

  /** primary := Number | Identifier ( '(' expression (',' expression)* ')' )?
                | '(' expression ')' | '|' expression '|' */
  function PrimaryAt(c: Cursor): (r: Result<Parsed>)
    requires ValidCursor(c)
    ensures r.Ok? ==> Later(c, r.value.after, true) && WellFormed(r.value.node)
    ensures r.Err? ==> IsSyntaxError(r.error)
    decreases Rank(c), 0
  {
    match c.current
    case Some(Number(v)) =>
      var c2 :- NextCursor(c);
      Ok(Parsed(Node.Number(v), c2))
    case Some(Identifier(name)) =>
      var c2 :- NextCursor(c);
      NamedAt(name, c2)
    case Some(OpenParen) =>
      var c2 :- NextCursor(c);
      EnclosedAt(c2, CloseParen)
    case Some(Pipe) =>
      var c2 :- NextCursor(c);
      var inner :- EnclosedAt(c2, Pipe);
      Ok(Parsed(FunctionCall("abs", [inner.node]), inner.after))
    case _ =>
      Err(ExpectedPrimary)
  }

  /** What follows an identifier `name`: a call when `(` comes next, otherwise
      the variable `name`. */
  function NamedAt(name: string, c: Cursor): (r: Result<Parsed>)
    requires ValidCursor(c) && IsName(name)
    ensures r.Ok? ==> Later(c, r.value.after, false) && WellFormed(r.value.node)
    ensures r.Err? ==> IsSyntaxError(r.error)
    decreases Rank(c), 8
  {
    if c.current == Some(OpenParen) then
      var c2 :- NextCursor(c);
      var call :- FirstArgumentAt(c2);
      Ok(Parsed(FunctionCall(name, call.args), call.after))
    else
      Ok(Parsed(Variable(name), c))
  }

  /** The expression after `(` or `|` and the `close` token that must follow
      it, `)` or `|`; the state after that token. */
  function EnclosedAt(c: Cursor, close: Token): (r: Result<Parsed>)
    requires ValidCursor(c)
    ensures r.Ok? ==> Later(c, r.value.after, true) && WellFormed(r.value.node)
    ensures r.Err? ==> IsSyntaxError(r.error)
    decreases Rank(c), 8
  {
    var inner :- ExpressionAt(c);
    if inner.after.current != Some(close) then
      Err(if close == Pipe then ExpectedClosingPipe else ExpectedClosingParenthesis)
    else
      var c2 :- NextCursor(inner.after);
      Ok(Parsed(inner.node, c2))
  }

  /** The argument list of a call after its `(`: at least one argument. */
  function FirstArgumentAt(c: Cursor): (r: Result<Arguments>)
    requires ValidCursor(c)
    ensures r.Ok? ==> Later(c, r.value.after, true)
    ensures r.Ok? ==> |r.value.args| >= 1 && forall a | a in r.value.args :: WellFormed(a)
    ensures r.Err? ==> IsSyntaxError(r.error)
    decreases Rank(c), 7
  {
    var first :- ExpressionAt(c);
    ArgumentsRest([first.node], first.after)
  }

  /** The argument loop of a call, `args` parsed so far: a `)` ends the list, a
      `,` is followed by one more argument, anything else is an error. */
  function ArgumentsRest(args: seq<Node>, c: Cursor): (r: Result<Arguments>)
    requires ValidCursor(c)
    ensures r.Ok? ==> Later(c, r.value.after, c.current.Some?)
    ensures r.Ok? ==> |r.value.args| >= |args|
    ensures r.Ok? && (forall a | a in args :: WellFormed(a)) ==>
              forall a | a in r.value.args :: WellFormed(a)
    ensures r.Err? ==> IsSyntaxError(r.error)
    decreases Rank(c), 0
  {
    if c.current == Some(CloseParen) then
      var c2 :- NextCursor(c);
      Ok(Arguments(args, c2))
    else if c.current != Some(Comma) then
      Err(ExpectedComma)
    else
      var c2 :- NextCursor(c);
      var next :- ExpressionAt(c2);
      ArgumentsRest(args + [next.node], next.after)
  }

  /** The argument loop keeps the arguments read before it, in order, in front
      of the ones it reads. */
  lemma {:induction false} ArgumentsKept(args: seq<Node>, c: Cursor)
    requires ValidCursor(c) && ArgumentsRest(args, c).Ok?
    ensures ArgumentsRest(args, c).value.args[..|args|] == args
    decreases Rank(c)
  {
    if c.current == Some(Comma) {
      var next := ExpressionAt(NextCursor(c).value).value;
      var longer := args + [next.node];
      ArgumentsKept(longer, next.after);
      var all := ArgumentsRest(args, c).value.args;
      assert all[..|args|] == all[..|longer|][..|args|];
      assert longer[..|args|] == args;
    }
  }

  // One grammar rule at a time: the lemmas below say what a level of the
  // grammar does with one or two operands, so that a derivation can be assembled
  // from them without unfolding the whole grammar at once.

  /** A token that makes a level of the grammar above `primary` go on. */
  predicate Continues(t: Option<Token>) {
    t == Some(Caret) || t == Some(Asterisk) || t == Some(Slash)
    || t == Some(Plus) || t == Some(Minus) || t == Some(Equal)
  }

  /** `+` or `-`, the operators of `addition`. */
  predicate IsAdditive(t: Option<Token>) { t == Some(Plus) || t == Some(Minus) }

  /** `*` or `/`, the operators of `multiplication`. */
  predicate IsMultiplicative(t: Option<Token>) { t == Some(Asterisk) || t == Some(Slash) }

  /** The token after a primary does not depend on the lookahead it replaced. */
  lemma NextIgnoresLookahead(c: Cursor)
    requires ValidCursor(c)
    ensures NextCursor(c) == NextCursor(Cursor(c.input, c.pos, None))
  {
  }

  /** A primary that does not start with `-` and is not followed by `^` is a
      whole unary expression. */
  lemma UnaryOfPrimary(c: Cursor)
    requires ValidCursor(c) && c.current != Some(Minus) && PrimaryAt(c).Ok?
    requires PrimaryAt(c).value.after.current != Some(Caret)
    ensures UnaryAt(c) == PrimaryAt(c)
  {
    assert ExponentiationAt(c) == PrimaryAt(c);
  }

  /** A unary expression that no operator follows is a whole expression. */
  lemma ExpressionOfUnary(c: Cursor)
    requires ValidCursor(c) && UnaryAt(c).Ok? && !Continues(UnaryAt(c).value.after.current)
    ensures ExpressionAt(c) == UnaryAt(c)
  {
    var u := UnaryAt(c).value;
    assert MultiplicationRest(u.node, u.after) == Ok(u);
    assert MultiplicationAt(c) == UnaryAt(c);
    assert AdditionRest(u.node, u.after) == Ok(u);
    assert AdditionAt(c) == UnaryAt(c);
    assert AssignmentAt(c) == AdditionAt(c);
  }

  /** A primary followed by none of `^ * /` is a whole multiplication. */
  lemma MultiplicationOfPrimary(c: Cursor)
    requires ValidCursor(c) && c.current != Some(Minus) && PrimaryAt(c).Ok?
    requires PrimaryAt(c).value.after.current != Some(Caret)
    requires !IsMultiplicative(PrimaryAt(c).value.after.current)
    ensures MultiplicationAt(c) == PrimaryAt(c)
  {
    var p := PrimaryAt(c).value;
    UnaryOfPrimary(c);
    assert MultiplicationRest(p.node, p.after) == Ok(p);
  }

  /** A primary followed by none of `^ * / + -` is a whole addition. */
  lemma AdditionOfPrimary(c: Cursor)
    requires ValidCursor(c) && c.current != Some(Minus) && PrimaryAt(c).Ok?
    requires PrimaryAt(c).value.after.current != Some(Caret)
    requires !IsMultiplicative(PrimaryAt(c).value.after.current)
    requires !IsAdditive(PrimaryAt(c).value.after.current)
    ensures AdditionAt(c) == PrimaryAt(c)
  {
    var p := PrimaryAt(c).value;
    MultiplicationOfPrimary(c);
    assert AdditionRest(p.node, p.after) == Ok(p);
  }

  /** A multiplication followed by neither `+`, `-` nor `=` is a whole expression. */
  lemma ExpressionOfMultiplication(c: Cursor)
    requires ValidCursor(c) && MultiplicationAt(c).Ok?
    requires !IsAdditive(MultiplicationAt(c).value.after.current)
    requires MultiplicationAt(c).value.after.current != Some(Equal)
    ensures ExpressionAt(c) == MultiplicationAt(c)
  {
    var m := MultiplicationAt(c).value;
    assert AdditionRest(m.node, m.after) == Ok(m);
    assert AdditionAt(c) == MultiplicationAt(c);
    assert AssignmentAt(c) == AdditionAt(c);
  }

  /** An addition followed by anything but `=` is a whole expression. */
  lemma ExpressionOfAddition(c: Cursor)
    requires ValidCursor(c) && AdditionAt(c).Ok?
    requires AdditionAt(c).value.after.current != Some(Equal)
    ensures ExpressionAt(c) == AdditionAt(c)
  {
  }

  /** `a + b` and `a - b`: the node's `right` child is the first operand `a` and
      its `left` child the second operand `b`. */
  lemma SumOfTwo(c: Cursor)
    requires ValidCursor(c) && MultiplicationAt(c).Ok?
    requires IsAdditive(MultiplicationAt(c).value.after.current)
    requires NextCursor(MultiplicationAt(c).value.after).Ok?
    requires MultiplicationAt(NextCursor(MultiplicationAt(c).value.after).value).Ok?
    requires !IsAdditive(MultiplicationAt(NextCursor(MultiplicationAt(c).value.after).value).value.after.current)
    ensures var a := MultiplicationAt(c).value;
            var b := MultiplicationAt(NextCursor(a.after).value).value;
            AdditionAt(c) == Ok(Parsed(Binary(right := a.node, left := b.node, operator := a.after.current.value), b.after))
  {
    var a := MultiplicationAt(c).value;
    var b := MultiplicationAt(NextCursor(a.after).value).value;
    var n := Binary(a.node, b.node, a.after.current.value);
    assert AdditionRest(n, b.after) == Ok(Parsed(n, b.after));
    assert AdditionRest(a.node, a.after) == AdditionRest(n, b.after);
  }

  /** `a * b` and `a / b`, built like `SumOfTwo`. */
  lemma ProductOfTwo(c: Cursor)
    requires ValidCursor(c) && UnaryAt(c).Ok?
    requires IsMultiplicative(UnaryAt(c).value.after.current)
    requires NextCursor(UnaryAt(c).value.after).Ok?
    requires UnaryAt(NextCursor(UnaryAt(c).value.after).value).Ok?
    requires !IsMultiplicative(UnaryAt(NextCursor(UnaryAt(c).value.after).value).value.after.current)
    ensures var a := UnaryAt(c).value;
            var b := UnaryAt(NextCursor(a.after).value).value;
            MultiplicationAt(c) == Ok(Parsed(Binary(right := a.node, left := b.node, operator := a.after.current.value), b.after))
  {
    var a := UnaryAt(c).value;
    var b := UnaryAt(NextCursor(a.after).value).value;
    var n := Binary(a.node, b.node, a.after.current.value);
    assert MultiplicationRest(n, b.after) == Ok(Parsed(n, b.after));
    assert MultiplicationRest(a.node, a.after) == MultiplicationRest(n, b.after);
  }

  /** `a ^ b`: the base `a` is the `left` child and the exponent `b` the `right`. */
  lemma PowerOfTwo(c: Cursor)
    requires ValidCursor(c) && PrimaryAt(c).Ok? && PrimaryAt(c).value.after.current == Some(Caret)
    requires NextCursor(PrimaryAt(c).value.after).Ok?
    requires PrimaryAt(NextCursor(PrimaryAt(c).value.after).value).Ok?
    requires PrimaryAt(NextCursor(PrimaryAt(c).value.after).value).value.after.current != Some(Caret)
    ensures var a := PrimaryAt(c).value;
            var b := PrimaryAt(NextCursor(a.after).value).value;
            ExponentiationAt(c) == Ok(Parsed(Binary(right := b.node, left := a.node, operator := Caret), b.after))
  {
    var a := PrimaryAt(c).value;
    var c2 := NextCursor(a.after).value;
    assert ExponentiationAt(c2) == PrimaryAt(c2);
  }

  /** `- a` for a primary `a` not followed by `^`. */
  lemma NegationOfPrimary(c: Cursor)
    requires ValidCursor(c) && c.current == Some(Minus) && NextCursor(c).Ok?
    requires NextCursor(c).value.current != Some(Minus)
    requires PrimaryAt(NextCursor(c).value).Ok?
    requires PrimaryAt(NextCursor(c).value).value.after.current != Some(Caret)
    ensures var b := PrimaryAt(NextCursor(c).value).value;
            UnaryAt(c) == Ok(Parsed(Unary(right := b.node, operator := Minus), b.after))
  {
    UnaryOfPrimary(NextCursor(c).value);
  }

  /** `- u` for any unary expression `u`, itself possibly negated: the minus
      signs nest, the outermost one at the root. */
  lemma NegationOfUnary(c: Cursor, c1: Cursor, e: Node, ce: Cursor)
    requires ValidCursor(c) && c.current == Some(Minus) && NextCursor(c) == Ok(c1)
    requires UnaryAt(c1) == Ok(Parsed(e, ce))
    ensures UnaryAt(c) == Ok(Parsed(Unary(right := e, operator := Minus), ce))
  {
  }

  /** `x = v` for a variable `x` and an addition `v`. */
  lemma AssignmentOfTwo(c: Cursor)
    requires ValidCursor(c) && AdditionAt(c).Ok? && AdditionAt(c).value.node.Variable?
    requires AdditionAt(c).value.after.current == Some(Equal)
    requires NextCursor(AdditionAt(c).value.after).Ok?
    requires AdditionAt(NextCursor(AdditionAt(c).value.after).value).Ok?
    ensures var a := AdditionAt(c).value;
            var b := AdditionAt(NextCursor(a.after).value).value;
            ExpressionAt(c) == Ok(Parsed(Assignment(a.node.name, b.node), b.after))
  {
  }

  /** `target = value` where the target is not a bare variable fails, once the
      value has been parsed. */
  lemma AssignmentToNonVariable(c: Cursor)
    requires ValidCursor(c) && AdditionAt(c).Ok? && !AdditionAt(c).value.node.Variable?
    requires AdditionAt(c).value.after.current == Some(Equal)
    requires NextCursor(AdditionAt(c).value.after).Ok?
    requires AdditionAt(NextCursor(AdditionAt(c).value.after).value).Ok?
    ensures ExpressionAt(c) == Err(InvalidAssignment)
  {
  }

  /** `a + b - d` (any of `+ -` in either place) folds from the left, and at
      each step the expression so far becomes the `right` child and the new
      operand the `left` child. */
  lemma SumOfThree(c: Cursor, a: Node, c1: Cursor, c2: Cursor, b: Node, c3: Cursor, c4: Cursor, d: Node, c5: Cursor)
    requires ValidCursor(c) && MultiplicationAt(c) == Ok(Parsed(a, c1))
    requires IsAdditive(c1.current) && NextCursor(c1) == Ok(c2)
    requires ValidCursor(c2) && MultiplicationAt(c2) == Ok(Parsed(b, c3))
    requires IsAdditive(c3.current) && NextCursor(c3) == Ok(c4)
    requires ValidCursor(c4) && MultiplicationAt(c4) == Ok(Parsed(d, c5)) && !IsAdditive(c5.current)
    ensures AdditionAt(c) == Ok(Parsed(Binary(right := Binary(right := a, left := b, operator := c1.current.value),
                                              left := d, operator := c3.current.value), c5))
  {
    var ab := Binary(a, b, c1.current.value);
    var abd := Binary(ab, d, c3.current.value);
    assert AdditionRest(abd, c5) == Ok(Parsed(abd, c5));
    assert AdditionRest(ab, c3) == AdditionRest(abd, c5);
    assert AdditionRest(a, c1) == AdditionRest(ab, c3);
  }

  /** `a ^ b ^ d` groups to the right: `b ^ d` is the exponent of `a`. */
  lemma PowerOfThree(c: Cursor, a: Node, c1: Cursor, c2: Cursor, b: Node, c3: Cursor, c4: Cursor, d: Node, c5: Cursor)
    requires ValidCursor(c) && PrimaryAt(c) == Ok(Parsed(a, c1))
    requires c1.current == Some(Caret) && NextCursor(c1) == Ok(c2)
    requires ValidCursor(c2) && PrimaryAt(c2) == Ok(Parsed(b, c3))
    requires c3.current == Some(Caret) && NextCursor(c3) == Ok(c4)
    requires ValidCursor(c4) && PrimaryAt(c4) == Ok(Parsed(d, c5)) && c5.current != Some(Caret)
    ensures ExponentiationAt(c) == Ok(Parsed(Binary(right := Binary(right := d, left := b, operator := Caret),
                                                    left := a, operator := Caret), c5))
  {
    PowerOfTwo(c2);
  }

  /** The exponent of `^` cannot start with `-`: `2^-1` does not parse. */
  lemma NegativeExponent(c: Cursor)
    requires ValidCursor(c) && PrimaryAt(c).Ok? && PrimaryAt(c).value.after.current == Some(Caret)
    requires NextCursor(PrimaryAt(c).value.after).Ok?
    requires NextCursor(PrimaryAt(c).value.after).value.current == Some(Minus)
    ensures ExponentiationAt(c) == Err(ExpectedPrimary)
  {
    var c2 := NextCursor(PrimaryAt(c).value.after).value;
    assert PrimaryAt(c2) == Err(ExpectedPrimary);
  }

  /** A lookahead that starts no primary, the end of the text included, is
      an error where a primary must start. */
  lemma NoPrimary(c: Cursor)
    requires ValidCursor(c)
    requires c.current.None? || !(c.current.value.Number? || c.current.value.Identifier?
                                  || c.current.value == OpenParen || c.current.value == Pipe)
    ensures PrimaryAt(c) == Err(ExpectedPrimary) && ExponentiationAt(c) == Err(ExpectedPrimary)
  {
  }

  /** `| e |` is a call of `abs` with the one argument `e`. */
  lemma AbsoluteValue(c: Cursor, ca: Cursor, e: Node, ce: Cursor, cq: Cursor)
    requires ValidCursor(c) && c.current == Some(Pipe) && NextCursor(c) == Ok(ca)
    requires ValidCursor(ca) && ExpressionAt(ca) == Ok(Parsed(e, ce))
    requires ce.current == Some(Pipe) && NextCursor(ce) == Ok(cq)
    ensures PrimaryAt(c) == Ok(Parsed(FunctionCall("abs", [e]), cq))
  {
    assert EnclosedAt(ca, Pipe) == Ok(Parsed(e, cq));
  }

  /** `( e` or `| e` not closed by the same kind of token is an error. */
  lemma Unclosed(c: Cursor, ca: Cursor, e: Node, ce: Cursor)
    requires ValidCursor(c) && (c.current == Some(OpenParen) || c.current == Some(Pipe))
    requires NextCursor(c) == Ok(ca) && ValidCursor(ca) && ExpressionAt(ca) == Ok(Parsed(e, ce))
    requires ce.current != (if c.current == Some(Pipe) then Some(Pipe) else Some(CloseParen))
    ensures PrimaryAt(c) == Err(if c.current == Some(Pipe) then ExpectedClosingPipe else ExpectedClosingParenthesis)
  {
    if c.current == Some(Pipe) {
      assert EnclosedAt(ca, Pipe) == Err(ExpectedClosingPipe);
    } else {
      assert EnclosedAt(ca, CloseParen) == Err(ExpectedClosingParenthesis);
    }
  }

  /** A later argument, after a `,`, followed by anything but `,` or `)`,
      the end of the text included, is an error, whatever came before. */
  lemma MissingCommaLater(args: seq<Node>, c: Cursor, c2: Cursor, e: Node, ce: Cursor)
    requires ValidCursor(c) && c.current == Some(Comma) && NextCursor(c) == Ok(c2)
    requires ExpressionAt(c2) == Ok(Parsed(e, ce))
    requires ce.current != Some(Comma) && ce.current != Some(CloseParen)
    ensures ArgumentsRest(args, c) == Err(ExpectedComma)
  {
    assert ArgumentsRest(args + [e], ce) == Err(ExpectedComma);
  }

  /** The first argument followed by anything but `,` or `)`, the end of the
      text included, is an error. */
  lemma MissingComma(c: Cursor, e: Node, ce: Cursor)
    requires ValidCursor(c) && ExpressionAt(c) == Ok(Parsed(e, ce))
    requires ce.current != Some(Comma) && ce.current != Some(CloseParen)
    ensures FirstArgumentAt(c) == Err(ExpectedComma)
  {
  }
}
