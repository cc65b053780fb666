/** A printer for expression trees whose text the parser reads back as the same
    tree.  Every operator node is printed inside its own parentheses, so the
    text never depends on precedence or associativity; it does depend on the
    order in which the parser stores operands, which the printer follows: for
    `+ - * /` the `right` child is printed first, for `^` the `left` one.

    The proof has two halves that meet in a chain of parser states: lexing the
    printed text yields the chain whose lookaheads are the printed tokens
    (`LexText`), and parsing along any such chain rebuilds the tree
    (`PrimaryOfTokens`). */
module Printing {
  import opened Common
  import opened Lexing
  import opened Grammar

  /** The decimal digits of `n`, most significant first, without leading zeros. */
  function NaturalDigits(n: nat): (s: string)
    ensures |s| > 0 && AllDigits(s) && DigitsValue(s) == n
  {
    var last := [(('0' as int) + n % 10) as char];
    if n < 10 then
      last
    else
      var s := NaturalDigits(n / 10) + last;
      assert s[..|s| - 1] == NaturalDigits(n / 10);
      s
  }

  /** The trees the parser can build from literals without a fractional part. */
  predicate Printable(t: Node) {
    match t
    case Number(v) => v >= 0.0 && v.Floor as real == v
    case Binary(right, left, op) =>
      (op == Plus || op == Minus || op == Asterisk || op == Slash || op == Caret)
      && Printable(right) && Printable(left)
    case Unary(right, op) => op == Minus && Printable(right)
    case FunctionCall(name, args) =>
      IsName(name) && |args| >= 1 && forall a | a in args :: Printable(a)
    case Variable(name) => IsName(name)
    case Assignment(name, value) => IsName(name) && Printable(value)
  }

  // Tokens and their text.

  /** A token the printer can write: a whole number, a name, or punctuation. */
  predicate PrintableToken(tok: Token) {
    match tok
    case Number(v) => v >= 0.0 && v.Floor as real == v
    case Identifier(name) => IsName(name)
    case _ => true
  }

  predicate AllPrintable(ts: seq<Token>) {
    forall i | 0 <= i < |ts| :: PrintableToken(ts[i])
  }

  /** A token of more than one possible character. */
  predicate IsWord(tok: Token) { tok.Number? || tok.Identifier? }

  /** No two words are adjacent, so the text of one cannot run into the next. */
  ghost predicate Separated(ts: seq<Token>) {
    forall i, j | 0 <= i < j < |ts| && j == i + 1 :: !(IsWord(ts[i]) && IsWord(ts[j]))
  }

  /** A token a primary can start with. */
  predicate StartsPrimary(tok: Token) { tok.Number? || tok.Identifier? || tok == OpenParen }

  /** The text of one token. */
  function Spelling(tok: Token): (s: string)
    requires PrintableToken(tok)
    ensures |s| > 0
    ensures !IsWord(tok) ==> |s| == 1 && Punctuation(s[0]) == Some(tok)
  {
    match tok
    case Number(v) => NaturalDigits(v.Floor)
    case Identifier(name) => name
    case OpenParen => "("
    case CloseParen => ")"
    case Asterisk => "*"
    case Caret => "^"
    case Plus => "+"
    case Minus => "-"
    case Slash => "/"
    case Comma => ","
    case Pipe => "|"
    case Equal => "="
  }

  /** The tokens written back to back. */
  function Text(ts: seq<Token>): string
    requires AllPrintable(ts)
    decreases |ts|
  {
    if ts == [] then "" else Spelling(ts[0]) + Text(ts[1..])
  }

  /** Joining two token sequences joins their texts and keeps them printable. */
  lemma {:induction false} Join(a: seq<Token>, b: seq<Token>)
    requires AllPrintable(a) && AllPrintable(b)
    ensures AllPrintable(a + b)
    ensures Text(a + b) == Text(a) + Text(b)
    decreases |a|
  {
    PrintableAppend(a, b);
    if a == [] {
      assert a + b == b;
    } else {
      PrintableTail(a);
      Join(a[1..], b);
      JoinStep(a, b);
    }
  }

  /** Two printable token sequences joined are printable. */
  lemma PrintableAppend(a: seq<Token>, b: seq<Token>)
    requires AllPrintable(a) && AllPrintable(b)
    ensures AllPrintable(a + b)
  {
    forall i | 0 <= i < |a + b|
      ensures PrintableToken((a + b)[i])
    {
      if i < |a| {
        assert (a + b)[i] == a[i];
      } else {
        assert (a + b)[i] == b[i - |a|];
      }
    }
  }

  /** The tokens after the first printable token are printable, and the text
      is the first token's spelling followed by theirs. */
  lemma PrintableTail(ts: seq<Token>)
    requires ts != [] && AllPrintable(ts)
    ensures AllPrintable(ts[1..]) && PrintableToken(ts[0])
    ensures Text(ts) == Spelling(ts[0]) + Text(ts[1..])
  {
    assert forall i | 0 <= i < |ts| - 1 :: ts[1..][i] == ts[i + 1];
  }

  /** One step of `Join`: the first token of `a` leads the joined text. */
  lemma JoinStep(a: seq<Token>, b: seq<Token>)
    requires a != [] && AllPrintable(a) && AllPrintable(b) && AllPrintable(a + b)
    requires AllPrintable(a[1..]) && AllPrintable(a[1..] + b)
    requires Text(a[1..] + b) == Text(a[1..]) + Text(b)
    ensures Text(a + b) == Text(a) + Text(b)
  {
    TailOfAppend(a, b);
    PrintableTail(a + b);
    PrintableTail(a);
    Associative(Spelling(a[0]), Text(a[1..]), Text(b));
  }

  lemma TailOfAppend<T>(a: seq<T>, b: seq<T>)
    requires a != []
    ensures (a + b)[0] == a[0] && (a + b)[1..] == a[1..] + b
  {
  }

  lemma Associative<T>(x: seq<T>, y: seq<T>, z: seq<T>)
    ensures x + (y + z) == (x + y) + z
  {
  }

  /** Joining two separated token sequences where no two words meet at the
      seam keeps them separated. */
  lemma JoinSeparated(a: seq<Token>, b: seq<Token>)
    requires Separated(a) && Separated(b)
    requires a != [] && b != [] ==> !(IsWord(a[|a| - 1]) && IsWord(b[0]))
    ensures Separated(a + b)
  {
    forall i, j | 0 <= i < j < |a + b| && j == i + 1
      ensures !(IsWord((a + b)[i]) && IsWord((a + b)[j]))
    {
      if i + 1 < |a| {
        assert (a + b)[i] == a[i] && (a + b)[i + 1] == a[i + 1];
      } else if i + 1 == |a| {
        assert (a + b)[i] == a[|a| - 1] && (a + b)[i + 1] == b[0];
      } else {
        assert (a + b)[i] == b[i - |a|] && (a + b)[i + 1] == b[i - |a| + 1];
      }
    }
  }

  /** The tokens the printer writes for `t`. */
  function Tokens(t: Node): (ts: seq<Token>)
    requires Printable(t)
    ensures |ts| > 0 && StartsPrimary(ts[0])
    decreases t, 1
  {
    match t
    case Number(v) => [Token.Number(v)]
    case Variable(name) => [Identifier(name)]
    case Binary(right, left, op) =>
      if op == Caret then
        [OpenParen] + (Tokens(left) + [Caret] + Tokens(right)) + [CloseParen]
      else
        [OpenParen] + (Tokens(right) + [op] + Tokens(left)) + [CloseParen]
    case Unary(right, _) => [OpenParen, Minus] + Tokens(right) + [CloseParen]
    case Assignment(name, value) => [OpenParen, Identifier(name), Equal] + Tokens(value) + [CloseParen]
    case FunctionCall(name, args) => [Identifier(name), OpenParen] + ListTokens(args) + [CloseParen]
  }

  /** The tokens of a call's arguments, separated by commas. */
  function ListTokens(args: seq<Node>): (ts: seq<Token>)
    requires |args| >= 1 && forall a | a in args :: Printable(a)
    ensures |ts| > 0
    decreases args, 0
  {
    if |args| == 1 then
      Tokens(args[0])
    else
      assert forall a | a in args[1..] :: a in args;
      Tokens(args[0]) + [Comma] + ListTokens(args[1..])
  }

  /** Three separated token sequences back to back, where no two words meet at
      a seam, are separated. */
  lemma Joined(a: seq<Token>, b: seq<Token>, c: seq<Token>)
    requires AllPrintable(a) && AllPrintable(b) && AllPrintable(c)
    requires Separated(a) && Separated(b) && Separated(c)
    requires |a| > 0 && |b| > 0 && |c| > 0
    requires !(IsWord(a[|a| - 1]) && IsWord(b[0])) && !(IsWord(b[|b| - 1]) && IsWord(c[0]))
    ensures AllPrintable(a + b + c) && Separated(a + b + c)
  {
    Join(a, b);
    JoinSeparated(a, b);
    Join(a + b, c);
    JoinSeparated(a + b, c);
  }

  /** The printer writes printable tokens, and never two words in a row. */
  lemma {:induction false} TokensPrintable(t: Node)
    requires Printable(t)
    ensures AllPrintable(Tokens(t)) && Separated(Tokens(t))
    decreases t, 1
  {
    match t
    case Number(v) =>
    case Variable(name) =>
    case Binary(right, left, op) =>
      TokensPrintable(right);
      TokensPrintable(left);
      if op == Caret {
        Bracketed(Tokens(left), Caret, Tokens(right));
      } else {
        Bracketed(Tokens(right), op, Tokens(left));
      }
    case Unary(right, _) =>
      TokensPrintable(right);
      Joined([OpenParen, Minus], Tokens(right), [CloseParen]);
    case Assignment(name, value) =>
      TokensPrintable(value);
      Joined([OpenParen, Identifier(name), Equal], Tokens(value), [CloseParen]);
    case FunctionCall(name, args) =>
      ListPrintable(args);
      Joined([Identifier(name), OpenParen], ListTokens(args), [CloseParen]);
  }

  /** `( a op b )` is separated and printable when `a` and `b` are. */
  lemma Bracketed(a: seq<Token>, op: Token, b: seq<Token>)
    requires AllPrintable(a) && AllPrintable(b) && Separated(a) && Separated(b) && |a| > 0 && |b| > 0
    requires PrintableToken(op) && !IsWord(op)
    ensures AllPrintable([OpenParen] + (a + [op] + b) + [CloseParen])
    ensures Separated([OpenParen] + (a + [op] + b) + [CloseParen])
  {
    Joined(a, [op], b);
    Joined([OpenParen], a + [op] + b, [CloseParen]);
  }

  lemma {:induction false} ListPrintable(args: seq<Node>)
    requires |args| >= 1 && forall a | a in args :: Printable(a)
    ensures AllPrintable(ListTokens(args)) && Separated(ListTokens(args))
    decreases args, 0
  {
    assert args[0] in args;
    TokensPrintable(args[0]);
    if |args| > 1 {
      assert forall a | a in args[1..] :: a in args;
      ListPrintable(args[1..]);
      Joined(Tokens(args[0]), [Comma], ListTokens(args[1..]));
    }
  }

  /** The text of `t`. */
  function Print(t: Node): string
    requires Printable(t)
  {
    TokensPrintable(t);
    Text(Tokens(t))
  }

  // Lexing printed text.

  /** The parser state whose lookahead is the token that starts at `p`. */
  function At(s: string, p: nat): (r: Result<Cursor>)
    requires p <= |s|
    ensures r.Ok? ==> ValidCursor(r.value) && r.value.input == s
  {
    NextCursor(Cursor(s, p, None))
  }

  /** `q` is the end of the text or a one-character token other than `(`. */
  predicate Delimits(s: string, q: nat) {
    q <= |s| && (q == |s| || (Punctuation(s[q]).Some? && s[q] != '('))
  }

  /** `w` occurs in `s` at `p`. */
  predicate Occurs(s: string, p: nat, w: string) {
    p + |w| <= |s| && s[p..p + |w|] == w
  }

  lemma Split(s: string, p: nat, a: string, b: string)
    requires Occurs(s, p, a + b)
    ensures Occurs(s, p, a) && Occurs(s, p + |a|, b)
  {
    assert s[p..p + |a|] == s[p..p + |a + b|][..|a|];
    assert s[p + |a|..p + |a| + |b|] == s[p..p + |a + b|][|a|..];
  }

  /** The token at a delimiter. */
  lemma AtDelimiter(s: string, q: nat)
    requires Delimits(s, q)
    ensures At(s, q).Ok?
    ensures q == |s| ==> At(s, q).value == Cursor(s, q, None)
    ensures q < |s| ==> At(s, q).value == Cursor(s, q + 1, Punctuation(s[q]))
  {
    if q < |s| {
      LexPunctuation(s, q);
    }
  }

  /** One printed token is lexed back as itself when a word is followed by a
      punctuation character or the end. */
  lemma LexSpelling(tok: Token, s: string, p: nat)
    requires PrintableToken(tok) && Occurs(s, p, Spelling(tok))
    requires var q := p + |Spelling(tok)|; IsWord(tok) ==> q == |s| || Punctuation(s[q]).Some?
    ensures Lex(s, p) == Ok(Scan(Some(tok), p, p + |Spelling(tok)|))
  {
    var q := p + |Spelling(tok)|;
    match tok
    case Number(v) =>
      LexDigits(s, p, q);
    case Identifier(name) =>
      LexLetters(s, p, q);
    case _ =>
      assert s[p] == s[p..q][0];
      LexPunctuation(s, p);
  }

  // Stepping the parser through tokens.

  /** The state the parser reaches from `c` by moving on once per token of
      `ts`, when every state on the way is valid and has the next token of `ts`
      as its lookahead; `None` when a step fails or meets another lookahead. */
  function Walk(c: Cursor, ts: seq<Token>): (r: Option<Cursor>)
    ensures r.Some? ==> ValidCursor(c) && ValidCursor(r.value) && r.value.input == c.input
    ensures r.Some? && ts != [] ==> c.current == Some(ts[0])
    decreases |ts|
  {
    if !ValidCursor(c) then None
    else if ts == [] then Some(c)
    else if c.current == Some(ts[0]) && NextCursor(c).Ok? then Walk(NextCursor(c).value, ts[1..])
    else None
  }

  /** Walking through `a + b` is walking through `a`, then through `b`. */
  lemma {:induction false} WalkSplit(c: Cursor, a: seq<Token>, b: seq<Token>)
    ensures Walk(c, a + b) == if Walk(c, a).Some? then Walk(Walk(c, a).value, b) else None
    decreases |a|
  {
    if a == [] {
      assert a + b == b;
    } else if ValidCursor(c) {
      assert (a + b)[0] == a[0] && (a + b)[1..] == a[1..] + b;
      if c.current == Some(a[0]) && NextCursor(c).Ok? {
        WalkSplit(NextCursor(c).value, a[1..], b);
      }
    }
  }

  /** Walking through one token is one step of the parser. */
  lemma WalkOne(c: Cursor, tok: Token, d: Cursor)
    requires Walk(c, [tok]) == Some(d)
    ensures ValidCursor(c) && c.current == Some(tok) && NextCursor(c) == Ok(d)
  {
  }

  /** A walk through `a + m + b` passes the state after `a` and the one after `m`. */
  lemma Around(c: Cursor, a: seq<Token>, m: seq<Token>, b: seq<Token>, d: Cursor) returns (ca: Cursor, cb: Cursor)
    requires Walk(c, a + m + b) == Some(d)
    ensures Walk(c, a) == Some(ca) && Walk(ca, m) == Some(cb) && Walk(cb, b) == Some(d)
  {
    WalkSplit(c, a + m, b);
    WalkSplit(c, a, m);
    ca := Walk(c, a).value;
    cb := Walk(ca, m).value;
  }

  /** The parser state after the lexer reads a token. */
  lemma AtScan(s: string, p: nat, tok: Token, q: nat)
    requires p <= |s| && Lex(s, p) == Ok(Scan(Some(tok), p, q))
    ensures At(s, p) == Ok(Cursor(s, q, Some(tok)))
  {
  }

  /** The tokens after the first of separated printable tokens are separated
      and printable. */
  lemma Rest(ts: seq<Token>)
    requires ts != [] && AllPrintable(ts) && Separated(ts)
    ensures AllPrintable(ts[1..]) && Separated(ts[1..])
  {
  }

  /** Separated printed text, ending at `e` where a delimiter follows: its
      first token, ending at `q`, is followed by a delimiter or a punctuation
      character, and the rest of the text runs from `q` to `e`. */
  lemma TextFirst(ts: seq<Token>, s: string, p: nat, q: nat, e: nat)
    requires ts != [] && AllPrintable(ts) && Separated(ts)
    requires Occurs(s, p, Text(ts)) && e == p + |Text(ts)| && Delimits(s, e)
    requires q == p + |Spelling(ts[0])|
    ensures AllPrintable(ts[1..])
    ensures Occurs(s, p, Spelling(ts[0]))
    ensures Occurs(s, q, Text(ts[1..])) && e == q + |Text(ts[1..])|
    ensures IsWord(ts[0]) ==> q == |s| || Punctuation(s[q]).Some?
  {
    PrintableTail(ts);
    if IsWord(ts[0]) && |ts| > 1 {
      var w := PunctuationNext(ts);
    }
    Seam(s, p, q, e, Spelling(ts[0]), Text(ts[1..]));
  }

  /** Text `x + y` at `p`, ending at the delimiter `e`, seen as `x` at `p`
      then `y` at `q`; when `y` starts with a one-character token or is empty,
      such a token or the end of the text follows `x`. */
  lemma Seam(s: string, p: nat, q: nat, e: nat, x: string, y: string)
    requires Occurs(s, p, x + y) && e == p + |x + y| && Delimits(s, e) && q == p + |x|
    ensures Occurs(s, p, x) && Occurs(s, q, y) && e == q + |y|
    ensures (y == [] || Punctuation(y[0]).Some?) ==> q == |s| || Punctuation(s[q]).Some?
  {
    Split(s, p, x, y);
    if y != [] {
      OccursFirst(s, q, y);
    }
  }

  /** In separated printable tokens a word is followed by a punctuation token,
      so the text after the word starts with a one-character token. */
  lemma PunctuationNext(ts: seq<Token>) returns (w: string)
    requires |ts| > 1 && AllPrintable(ts) && Separated(ts) && IsWord(ts[0])
    ensures AllPrintable(ts[1..]) && w == Text(ts[1..])
    ensures w != [] && Punctuation(w[0]).Some?
  {
    Rest(ts);
    var rest := ts[1..];
    assert rest[0] == ts[1];
    assert !IsWord(rest[0]);
    PrintableTail(rest);
    w := Text(rest);
    assert w[0] == Spelling(rest[0])[0];
  }

  /** The first character of a text occurring at `q`. */
  lemma OccursFirst(s: string, q: nat, w: string)
    requires Occurs(s, q, w) && w != []
    ensures q < |s| && s[q] == w[0]
  {
    assert s[q..q + |w|][0] == s[q];
  }

  /** The first token of separated printed text lexes back as itself. */
  lemma LexFirst(tok: Token, s: string, p: nat, q: nat)
    requires PrintableToken(tok) && Occurs(s, p, Spelling(tok)) && q == p + |Spelling(tok)|
    requires IsWord(tok) ==> q == |s| || Punctuation(s[q]).Some?
    ensures At(s, p) == Ok(Cursor(s, q, Some(tok)))
  {
    LexSpelling(tok, s, p);
    AtScan(s, p, tok, q);
  }

  /** A walk through a non-empty `ts` is a step with the first token, then a
      walk through the rest. */
  lemma WalkFirst(c: Cursor, ts: seq<Token>, d: Cursor)
    requires ts != [] && ValidCursor(c) && c.current == Some(ts[0]) && NextCursor(c).Ok?
    requires Walk(NextCursor(c).value, ts[1..]) == Some(d)
    ensures Walk(c, ts) == Some(d)
  {
  }

  /** The text of separated tokens, ending at `e` where a delimiter follows,
      lexes back into the tokens: the parser walks through them from the state
      `c` that lexes the token at `p` to the state `d` that lexes the delimiter. */
  lemma {:induction false} LexText(ts: seq<Token>, s: string, p: nat, e: nat) returns (c: Cursor, d: Cursor)
    requires AllPrintable(ts) && Separated(ts)
    requires Occurs(s, p, Text(ts)) && e == p + |Text(ts)| && Delimits(s, e)
    ensures At(s, p) == Ok(c) && At(s, e) == Ok(d) && Walk(c, ts) == Some(d)
    decreases |ts|
  {
    if ts == [] {
      assert e == p;
      AtDelimiter(s, e);
      c, d := At(s, e).value, At(s, e).value;
    } else {
      var q := p + |Spelling(ts[0])|;
      Rest(ts);
      TextFirst(ts, s, p, q, e);
      LexFirst(ts[0], s, p, q);
      c := Cursor(s, q, Some(ts[0]));
      var c1;
      c1, d := LexText(ts[1..], s, q, e);
      NextIgnoresLookahead(c);
      WalkFirst(c, ts, d);
    }
  }

  /** Text that starts with separated printable tokens followed by the end,
      `)`, `,` or `|`: the parser walks through the tokens from its first state
      to a state whose lookahead is that delimiter. */
  lemma LexWhole(ts: seq<Token>, s: string, e: nat) returns (c: Cursor, d: Cursor)
    requires AllPrintable(ts) && Separated(ts) && Occurs(s, 0, Text(ts)) && e == |Text(ts)|
    requires e == |s| || s[e] == ')' || s[e] == ',' || s[e] == '|'
    ensures StartCursor(s) == Ok(c) && Walk(c, ts) == Some(d)
    ensures d.current == None || d.current == Some(CloseParen) || d.current == Some(Comma) || d.current == Some(Pipe)
  {
    Delimiter(s, e);
    c, d := LexText(ts, s, 0, e);
  }

  /** The end, `)`, `,` and `|` end a word and are lexed as themselves. */
  lemma Delimiter(s: string, e: nat)
    requires e <= |s| && (e == |s| || s[e] == ')' || s[e] == ',' || s[e] == '|')
    ensures Delimits(s, e) && At(s, e).Ok?
    ensures var t := At(s, e).value.current;
            t == None || t == Some(CloseParen) || t == Some(Comma) || t == Some(Pipe)
  {
    AtDelimiter(s, e);
  }

  // Parsing along a walk.

  /** Where the parser walks through the tokens of `t`, from `c` to a state whose
      lookahead is not `(`, parsing a primary from `c` gives `t` and stops there. */
  lemma {:induction false} PrimaryOfTokens(t: Node, c: Cursor, d: Cursor)
    requires Printable(t) && Walk(c, Tokens(t)) == Some(d) && d.current != Some(OpenParen)
    ensures PrimaryAt(c) == Ok(Parsed(t, d))
    decreases t, 2
  {
    match t
    case Number(v) => WalkOne(c, Token.Number(v), d);
    case Variable(name) => WalkOne(c, Identifier(name), d);
    case Binary(right, left, op) =>
      if op == Caret {
        ParsedPower(right, left, c, d);
      } else {
        ParsedOperation(right, left, op, c, d);
      }
    case Unary(right, op) => ParsedNegation(right, c, d);
    case Assignment(name, value) => ParsedAssignment(name, value, c, d);
    case FunctionCall(name, args) => ParsedCall(name, args, c, d);
  }

  /** The same, for an expression followed by the end, `)`, `,` or `|`. */
  lemma ExpressionOfTokens(t: Node, c: Cursor, d: Cursor)
    requires Printable(t) && Walk(c, Tokens(t)) == Some(d)
    requires d.current == None || d.current == Some(CloseParen) || d.current == Some(Comma) || d.current == Some(Pipe)
    ensures ExpressionAt(c) == Ok(Parsed(t, d))
    decreases t, 3
  {
    PrimaryOfTokens(t, c, d);
    UnaryOfPrimary(c);
    ExpressionOfUnary(c);
  }

  /** The states around `( a op b )`. */
  lemma OperationWalk(c: Cursor, ta: seq<Token>, op: Token, tb: seq<Token>, d: Cursor)
      returns (ca: Cursor, cm: Cursor, cb: Cursor, ce: Cursor)
    requires Walk(c, [OpenParen] + (ta + [op] + tb) + [CloseParen]) == Some(d)
    ensures ValidCursor(c) && c.current == Some(OpenParen) && NextCursor(c) == Ok(ca)
    ensures Walk(ca, ta) == Some(cm) && cm.current == Some(op) && NextCursor(cm) == Ok(cb)
    ensures Walk(cb, tb) == Some(ce) && ce.current == Some(CloseParen) && NextCursor(ce) == Ok(d)
  {
    var cx;
    ca, cx := Around(c, [OpenParen], ta + [op] + tb, [CloseParen], d);
    WalkOne(c, OpenParen, ca);
    cm, cb := Around(ca, ta, [op], tb, cx);
    WalkOne(cm, op, cb);
    ce := Walk(cb, tb).value;
    WalkOne(ce, CloseParen, d);
  }

  lemma {:induction false} ParsedOperation(right: Node, left: Node, op: Token, c: Cursor, d: Cursor)
    requires (op == Plus || op == Minus || op == Asterisk || op == Slash) && Printable(Binary(right, left, op))
    requires Walk(c, Tokens(Binary(right, left, op))) == Some(d)
    ensures PrimaryAt(c) == Ok(Parsed(Binary(right, left, op), d))
    decreases Binary(right, left, op), 0
  {
    var tr, tl := Tokens(right), Tokens(left);
    assert Tokens(Binary(right, left, op)) == [OpenParen] + (tr + [op] + tl) + [CloseParen];
    var ca, cm, cb, ce := OperationWalk(c, tr, op, tl, d);
    PrimaryOfTokens(right, ca, cm);
    PrimaryOfTokens(left, cb, ce);
    ParenthesisedOperation(c, ca, cm, cb, ce, d, right, left);
  }

  lemma {:induction false} ParsedPower(right: Node, left: Node, c: Cursor, d: Cursor)
    requires Printable(Binary(right, left, Caret))
    requires Walk(c, Tokens(Binary(right, left, Caret))) == Some(d)
    ensures PrimaryAt(c) == Ok(Parsed(Binary(right, left, Caret), d))
    decreases Binary(right, left, Caret), 0
  {
    var tb, te := Tokens(left), Tokens(right);
    assert Tokens(Binary(right, left, Caret)) == [OpenParen] + (tb + [Caret] + te) + [CloseParen];
    var ca, cm, cb, ce := OperationWalk(c, tb, Caret, te, d);
    PrimaryOfTokens(left, ca, cm);
    PrimaryOfTokens(right, cb, ce);
    PowerOfPrimaries(ca, cm, cb, ce, left, right);
    Grouped(c, ca, ce, d, Binary(right, left, Caret));
  }

  lemma {:induction false} ParsedNegation(right: Node, c: Cursor, d: Cursor)
    requires Printable(Unary(right, Minus))
    requires Walk(c, Tokens(Unary(right, Minus))) == Some(d)
    ensures PrimaryAt(c) == Ok(Parsed(Unary(right, Minus), d))
    decreases Unary(right, Minus), 0
  {
    var te := Tokens(right);
    var cx, ce := Around(c, [OpenParen, Minus], te, [CloseParen], d);
    var cm := Walk(c, [OpenParen]).value;
    WalkSplit(c, [OpenParen], [Minus]);
    WalkOne(c, OpenParen, cm);
    WalkOne(cm, Minus, cx);
    WalkOne(ce, CloseParen, d);
    PrimaryOfTokens(right, cx, ce);
    NegationOfPrimaries(cm, cx, ce, right);
    Grouped(c, cm, ce, d, Unary(right, Minus));
  }

  /** The states around `( name = v )`. */
  lemma AssignmentWalk(c: Cursor, name: string, tv: seq<Token>, d: Cursor)
      returns (cx: Cursor, cm: Cursor, cv: Cursor, ce: Cursor)
    requires Walk(c, [OpenParen, Identifier(name), Equal] + tv + [CloseParen]) == Some(d)
    ensures ValidCursor(c) && c.current == Some(OpenParen) && NextCursor(c) == Ok(cx)
    ensures ValidCursor(cx) && cx.current == Some(Identifier(name)) && NextCursor(cx) == Ok(cm)
    ensures ValidCursor(cm) && cm.current == Some(Equal) && NextCursor(cm) == Ok(cv)
    ensures Walk(cv, tv) == Some(ce) && ce.current == Some(CloseParen) && NextCursor(ce) == Ok(d)
  {
    cv, ce := Around(c, [OpenParen, Identifier(name), Equal], tv, [CloseParen], d);
    cx, cm := Around(c, [OpenParen], [Identifier(name)], [Equal], cv);
    WalkOne(c, OpenParen, cx);
    WalkOne(cx, Identifier(name), cm);
    WalkOne(cm, Equal, cv);
    WalkOne(ce, CloseParen, d);
  }

  lemma {:induction false} ParsedAssignment(name: string, value: Node, c: Cursor, d: Cursor)
    requires Printable(Assignment(name, value))
    requires Walk(c, Tokens(Assignment(name, value))) == Some(d)
    ensures PrimaryAt(c) == Ok(Parsed(Assignment(name, value), d))
    decreases Assignment(name, value), 0
  {
    var cx, cm, cv, ce := AssignmentWalk(c, name, Tokens(value), d);
    PrimaryOfTokens(value, cv, ce);
    VariableAt(cx, name, cm);
    AssignmentOfPrimaries(cx, cm, cv, ce, name, value);
    Grouped(c, cx, ce, d, Assignment(name, value));
  }

  lemma {:induction false} ParsedCall(name: string, args: seq<Node>, c: Cursor, d: Cursor)
    requires Printable(FunctionCall(name, args))
    requires Walk(c, Tokens(FunctionCall(name, args))) == Some(d)
    ensures PrimaryAt(c) == Ok(Parsed(FunctionCall(name, args), d))
    decreases FunctionCall(name, args), 0
  {
    var ta := ListTokens(args);
    assert [Identifier(name), OpenParen] + ta + [CloseParen] == [Identifier(name)] + [OpenParen] + (ta + [CloseParen]);
    var co, ca := Around(c, [Identifier(name)], [OpenParen], ta + [CloseParen], d);
    WalkOne(c, Identifier(name), co);
    WalkOne(co, OpenParen, ca);
    ArgumentsOfTokens([], args, ca, d);
    assert [] + [args[0]] == [args[0]] && [] + args == args;
    CallOfArguments(c, co, ca, d, name, args);
  }

  /** Where the parser walks through the tokens of the arguments `args` and
      then `)`, the argument loop, having read `done`, reads `args` and the `)`. */
  lemma {:induction false} ArgumentsOfTokens(done: seq<Node>, args: seq<Node>, c: Cursor, d: Cursor)
    requires |args| >= 1 && forall a | a in args :: Printable(a)
    requires Walk(c, ListTokens(args) + [CloseParen]) == Some(d)
    ensures ValidCursor(c) && ExpressionAt(c).Ok? && ExpressionAt(c).value.node == args[0]
    ensures ArgumentsRest(done + [args[0]], ExpressionAt(c).value.after) == Ok(Arguments(done + args, d))
    decreases args, 1
  {
    var t0 := Tokens(args[0]);
    assert args[0] in args;
    if |args| == 1 {
      WalkSplit(c, t0, [CloseParen]);
      var ce := Walk(c, t0).value;
      WalkOne(ce, CloseParen, d);
      ExpressionOfTokens(args[0], c, ce);
      assert args == [args[0]];
    } else {
      var rest := args[1..];
      assert forall a | a in rest :: a in args;
      var tr := ListTokens(rest);
      assert ListTokens(args) + [CloseParen] == t0 + [Comma] + (tr + [CloseParen]);
      var ce, cn := Around(c, t0, [Comma], tr + [CloseParen], d);
      WalkOne(ce, Comma, cn);
      ExpressionOfTokens(args[0], c, ce);
      ArgumentsOfTokens(done + [args[0]], rest, cn, d);
      Appended(done, args);
      ArgumentsStep(done + [args[0]], ce, cn, rest[0], Ok(Arguments(done + args, d)));
    }
  }

  /** Appending the first element, then the others, appends them all. */
  lemma Appended(done: seq<Node>, args: seq<Node>)
    requires |args| >= 1
    ensures done + [args[0]] + args[1..] == done + args
  {
    assert args == [args[0]] + args[1..];
  }

  /** The argument loop at a `,` reads the next argument and goes on. */
  lemma ArgumentsStep(acc: seq<Node>, c: Cursor, cn: Cursor, next: Node, r: Result<Arguments>)
    requires ValidCursor(c) && c.current == Some(Comma) && NextCursor(c) == Ok(cn)
    requires ValidCursor(cn) && ExpressionAt(cn).Ok? && ExpressionAt(cn).value.node == next
    requires ArgumentsRest(acc + [next], ExpressionAt(cn).value.after) == r
    ensures ArgumentsRest(acc, c) == r
  {
  }

  // The parser on the shapes the printer produces, stated on parser states.

  /** Parsing a primary from `c`, whose lookahead is not `-`, gives `t` and
      stops at `after`. */
  predicate PrimaryReads(c: Cursor, t: Node, after: Cursor) {
    ValidCursor(c) && c.current != Some(Minus) && PrimaryAt(c) == Ok(Parsed(t, after))
  }

  /** A name not followed by `(` is a variable. */
  lemma VariableAt(c: Cursor, name: string, cq: Cursor)
    requires ValidCursor(c) && c.current == Some(Identifier(name)) && NextCursor(c) == Ok(cq)
    requires cq.current != Some(OpenParen)
    ensures PrimaryAt(c) == Ok(Parsed(Variable(name), cq))
  {
  }

  /** `( e )`: a parenthesised expression is a primary. */
  lemma Grouped(c: Cursor, ca: Cursor, ce: Cursor, cq: Cursor, t: Node)
    requires ValidCursor(c) && c.current == Some(OpenParen) && NextCursor(c) == Ok(ca)
    requires ValidCursor(ca) && ExpressionAt(ca) == Ok(Parsed(t, ce))
    requires ce.current == Some(CloseParen) && NextCursor(ce) == Ok(cq)
    ensures PrimaryAt(c) == Ok(Parsed(t, cq))
  {
  }

  /** `a + b` and `a - b` followed by no operator: the node's `right` child is
      the first operand. */
  lemma SumOfPrimaries(ca: Cursor, cm: Cursor, cb: Cursor, ce: Cursor, a: Node, b: Node)
    requires PrimaryReads(ca, a, cm) && (cm.current == Some(Plus) || cm.current == Some(Minus))
    requires NextCursor(cm) == Ok(cb) && PrimaryReads(cb, b, ce) && !Continues(ce.current)
    ensures ExpressionAt(ca) == Ok(Parsed(Binary(a, b, cm.current.value), ce))
  {
    MultiplicationOfPrimary(ca);
    MultiplicationOfPrimary(cb);
    SumOfTwo(ca);
    ExpressionOfAddition(ca);
  }

  /** `a * b` and `a / b` followed by no operator, built like a sum. */
  lemma ProductOfPrimaries(ca: Cursor, cm: Cursor, cb: Cursor, ce: Cursor, a: Node, b: Node)
    requires PrimaryReads(ca, a, cm) && (cm.current == Some(Asterisk) || cm.current == Some(Slash))
    requires NextCursor(cm) == Ok(cb) && PrimaryReads(cb, b, ce) && !Continues(ce.current)
    ensures ExpressionAt(ca) == Ok(Parsed(Binary(a, b, cm.current.value), ce))
  {
    UnaryOfPrimary(ca);
    UnaryOfPrimary(cb);
    ProductOfTwo(ca);
    ExpressionOfMultiplication(ca);
  }

  /** `a op b` for `op` one of `+ - * /`, followed by no operator. */
  lemma OperationOfPrimaries(ca: Cursor, cm: Cursor, cb: Cursor, ce: Cursor, a: Node, b: Node)
    requires PrimaryReads(ca, a, cm)
    requires cm.current == Some(Plus) || cm.current == Some(Minus) || cm.current == Some(Asterisk) || cm.current == Some(Slash)
    requires NextCursor(cm) == Ok(cb) && PrimaryReads(cb, b, ce) && !Continues(ce.current)
    ensures ExpressionAt(ca) == Ok(Parsed(Binary(a, b, cm.current.value), ce))
  {
    if cm.current == Some(Plus) || cm.current == Some(Minus) {
      SumOfPrimaries(ca, cm, cb, ce, a, b);
    } else {
      ProductOfPrimaries(ca, cm, cb, ce, a, b);
    }
  }

  /** `( a op b )` for `op` one of `+ - * /`. */
  lemma ParenthesisedOperation(c: Cursor, ca: Cursor, cm: Cursor, cb: Cursor, ce: Cursor, cq: Cursor, a: Node, b: Node)
    requires ValidCursor(c) && c.current == Some(OpenParen) && NextCursor(c) == Ok(ca)
    requires PrimaryReads(ca, a, cm)
    requires cm.current == Some(Plus) || cm.current == Some(Minus) || cm.current == Some(Asterisk) || cm.current == Some(Slash)
    requires NextCursor(cm) == Ok(cb) && PrimaryReads(cb, b, ce)
    requires ce.current == Some(CloseParen) && NextCursor(ce) == Ok(cq)
    ensures PrimaryAt(c) == Ok(Parsed(Binary(a, b, cm.current.value), cq))
  {
    OperationOfPrimaries(ca, cm, cb, ce, a, b);
    Grouped(c, ca, ce, cq, Binary(a, b, cm.current.value));
  }

  /** `a ^ b` followed by no operator: the base `a` becomes the `left` child. */
  lemma PowerOfPrimaries(ca: Cursor, cm: Cursor, cb: Cursor, ce: Cursor, a: Node, b: Node)
    requires PrimaryReads(ca, a, cm) && cm.current == Some(Caret)
    requires NextCursor(cm) == Ok(cb) && PrimaryReads(cb, b, ce) && !Continues(ce.current)
    ensures ExpressionAt(ca) == Ok(Parsed(Binary(b, a, Caret), ce))
  {
    PowerOfTwo(ca);
    assert UnaryAt(ca) == ExponentiationAt(ca);
    ExpressionOfUnary(ca);
  }

  /** `- a` followed by no operator. */
  lemma NegationOfPrimaries(cm: Cursor, ca: Cursor, ce: Cursor, a: Node)
    requires ValidCursor(cm) && cm.current == Some(Minus) && NextCursor(cm) == Ok(ca)
    requires PrimaryReads(ca, a, ce) && !Continues(ce.current)
    ensures ExpressionAt(cm) == Ok(Parsed(Unary(a, Minus), ce))
  {
    NegationOfPrimary(cm);
    ExpressionOfUnary(cm);
  }

  /** `x = v` followed by no operator. */
  lemma AssignmentOfPrimaries(cx: Cursor, cm: Cursor, cv: Cursor, ce: Cursor, name: string, v: Node)
    requires PrimaryReads(cx, Variable(name), cm) && cm.current == Some(Equal) && NextCursor(cm) == Ok(cv)
    requires PrimaryReads(cv, v, ce) && !Continues(ce.current)
    ensures ExpressionAt(cx) == Ok(Parsed(Assignment(name, v), ce))
  {
    AdditionOfPrimary(cx);
    AdditionOfPrimary(cv);
    AssignmentOfTwo(cx);
  }

  /** `name ( ...` where the argument loop reads `args`. */
  lemma CallOfArguments(c: Cursor, co: Cursor, ca: Cursor, cq: Cursor, name: string, args: seq<Node>)
    requires ValidCursor(c) && c.current == Some(Identifier(name)) && NextCursor(c) == Ok(co)
    requires co.current == Some(OpenParen) && NextCursor(co) == Ok(ca)
    requires FirstArgumentAt(ca) == Ok(Arguments(args, cq))
    ensures PrimaryAt(c) == Ok(Parsed(FunctionCall(name, args), cq))
  {
    NamedPrimary(c, co, name);
    NamedCall(name, co, ca, cq, args);
  }

  /** A primary that starts with a name is what follows the name. */
  lemma NamedPrimary(c: Cursor, co: Cursor, name: string)
    requires ValidCursor(c) && c.current == Some(Identifier(name)) && NextCursor(c) == Ok(co)
    ensures IsName(name) && ValidCursor(co) && PrimaryAt(c) == NamedAt(name, co)
  {
  }

  /** `( ...` after a name, where the argument loop reads `args`. */
  lemma NamedCall(name: string, co: Cursor, ca: Cursor, cq: Cursor, args: seq<Node>)
    requires ValidCursor(co) && IsName(name) && co.current == Some(OpenParen) && NextCursor(co) == Ok(ca)
    requires FirstArgumentAt(ca) == Ok(Arguments(args, cq))
    ensures NamedAt(name, co) == Ok(Parsed(FunctionCall(name, args), cq))
  {
  }
}
