/** The lexer of the calculator: a cursor over the input text that hands out one
    token per call of `Next`.  The pure functions below say, for a scan position,
    which token the next call yields and where it leaves the cursor; the class
    `Tokenizer` is the stateful lexer itself and is proved to follow them. */
module Lexing {
  import opened Common

  /** A lexical token.  `Number` carries the value of its literal. */
  datatype Token =
    | OpenParen
    | CloseParen
    | Asterisk
    | Caret
    | Plus
    | Minus
    | Slash
    | Comma
    | Pipe
    | Equal
    | Number(value: real)
    | Identifier(name: string)

  /** The only characters skipped between tokens: space, carriage return, tab. */
  predicate IsSkippable(c: char) { c == ' ' || c == '\r' || c == '\t' }

  predicate IsDigit(c: char) { '0' <= c <= '9' }

  /** An ASCII letter. */
  predicate IsLetter(c: char) { 'a' <= c <= 'z' || 'A' <= c <= 'Z' }

  /** A character that may continue a number literal. */
  predicate IsNumberChar(c: char) { IsDigit(c) || c == '.' }

  /** The ten one-character tokens. */
  function Punctuation(c: char): Option<Token> {
    match c
    case '(' => Some(OpenParen)
    case ')' => Some(CloseParen)
    case '*' => Some(Asterisk)
    case '^' => Some(Caret)
    case '+' => Some(Plus)
    case '-' => Some(Minus)
    case '/' => Some(Slash)
    case ',' => Some(Comma)
    case '|' => Some(Pipe)
    case '=' => Some(Equal)
    case _ => None
  }

  predicate AllSkippable(s: string) { forall i | 0 <= i < |s| :: IsSkippable(s[i]) }

  predicate AllLetters(s: string) { forall i | 0 <= i < |s| :: IsLetter(s[i]) }

  predicate AllDigits(s: string) { forall i | 0 <= i < |s| :: IsDigit(s[i]) }

  predicate AllNumberChars(s: string) { forall i | 0 <= i < |s| :: IsNumberChar(s[i]) }

  predicate AtMostOneDot(s: string) {
    forall i, j | 0 <= i < j < |s| && s[i] == '.' :: s[j] != '.'
  }

  /** The text of a number literal: a digit, then digits with at most one '.'. */
  predicate IsNumberLexeme(s: string) {
    |s| > 0 && IsDigit(s[0]) && AllNumberChars(s) && AtMostOneDot(s)
  }

  /** The value of a decimal digit; only digits are ever given to it. */
  function DigitValue(c: char): nat {
    if IsDigit(c) then (c as int) - ('0' as int) else 0
  }

  /** The natural number a string of decimal digits denotes. */
  function DigitsValue(s: string): nat {
    if s == [] then 0 else 10 * DigitsValue(s[..|s| - 1]) + DigitValue(s[|s| - 1])
  }

  /** The value of the digits after a decimal point: `0.d1d2...`. */
  function FractionValue(s: string): (v: real)
    ensures 0.0 <= v <= 1.0
  {
    if s == [] then 0.0 else (DigitValue(s[0]) as real + FractionValue(s[1..])) / 10.0
  }

  /** The index of the first '.' of `s`, or `|s|` when there is none. */
  function DotIndex(s: string): (i: nat)
    ensures i <= |s|
    ensures i < |s| ==> s[i] == '.'
    ensures forall k | 0 <= k < i :: s[k] != '.'
  {
    if s == [] || s[0] == '.' then 0 else 1 + DotIndex(s[1..])
  }

  /** The exact decimal value of a number literal: the digits before the '.' as
      the integer part, the digits after it as the fraction. */
  function LexemeValue(s: string): (v: real)
    ensures v >= 0.0
    ensures '.' !in s ==> v == DigitsValue(s) as real
  {
    var d := DotIndex(s);
    if d == |s| then
      DigitsValue(s) as real
    else
      DigitsValue(s[..d]) as real + FractionValue(s[d + 1..])
  }

  /** Where skipping whitespace from `pos` stops. */
  function WhitespaceEnd(input: string, pos: nat): (e: nat)
    requires pos <= |input|
    ensures pos <= e <= |input|
    decreases |input| - pos
  {
    if pos < |input| && IsSkippable(input[pos]) then WhitespaceEnd(input, pos + 1) else pos
  }

  /** Skipping whitespace passes only skippable characters and stops at the
      first other one. */
  lemma {:induction false} WhitespaceEndStops(input: string, pos: nat)
    requires pos <= |input|
    ensures var e := WhitespaceEnd(input, pos);
            AllSkippable(input[pos..e]) && (e == |input| || !IsSkippable(input[e]))
    decreases |input| - pos
  {
    if pos < |input| && IsSkippable(input[pos]) {
      WhitespaceEndStops(input, pos + 1);
      var e := WhitespaceEnd(input, pos);
      assert input[pos..e] == [input[pos]] + input[pos + 1..e];
    }
  }

  /** Where the identifier scan from `pos` stops: the end of the run of letters. */
  function IdentifierEnd(input: string, pos: nat): (e: nat)
    requires pos <= |input|
    ensures pos <= e <= |input|
    decreases |input| - pos
  {
    if pos < |input| && IsLetter(input[pos]) then IdentifierEnd(input, pos + 1) else pos
  }

  /** The identifier scan passes only letters and stops at the first other
      character. */
  lemma {:induction false} IdentifierEndStops(input: string, pos: nat)
    requires pos <= |input|
    ensures var e := IdentifierEnd(input, pos);
            AllLetters(input[pos..e]) && (e == |input| || !IsLetter(input[e]))
    decreases |input| - pos
  {
    if pos < |input| && IsLetter(input[pos]) {
      IdentifierEndStops(input, pos + 1);
      var e := IdentifierEnd(input, pos);
      assert input[pos..e] == [input[pos]] + input[pos + 1..e];
    }
  }

  /** Where the number scan from `pos` stops, `dot` telling whether a '.' has
      already been read.  It stops at the first character that is neither a digit
      nor '.', and fails on a '.' when one was read before. */
  function NumberEnd(input: string, pos: nat, dot: bool): (r: Result<nat>)
    requires pos <= |input|
    ensures r.Ok? ==> pos <= r.value <= |input|
    ensures r.Err? ==> r.error == UnexpectedCharacter('.')
    decreases |input| - pos
  {
    if pos < |input| && IsDigit(input[pos]) then
      NumberEnd(input, pos + 1, dot)
    else if pos < |input| && input[pos] == '.' then
      if dot then Err(UnexpectedCharacter('.')) else NumberEnd(input, pos + 1, true)
    else
      Ok(pos)
  }

  /** A successful number scan passes digits and at most one '.' (none when
      one was read before), and stops at the first other character. */
  lemma {:induction false} NumberEndStops(input: string, pos: nat, dot: bool)
    requires pos <= |input| && NumberEnd(input, pos, dot).Ok?
    ensures var e := NumberEnd(input, pos, dot).value;
            AllNumberChars(input[pos..e]) && AtMostOneDot(input[pos..e])
            && (dot ==> '.' !in input[pos..e])
            && (e == |input| || !IsNumberChar(input[e]))
    decreases |input| - pos
  {
    if pos < |input| && IsNumberChar(input[pos]) {
      var next := input[pos] == '.' || dot;
      NumberEndStops(input, pos + 1, next);
      var e := NumberEnd(input, pos, dot).value;
      var rest := input[pos + 1..e];
      assert input[pos..e] == [input[pos]] + rest;
      forall i, j | 0 <= i < j < |input[pos..e]| && input[pos..e][i] == '.'
        ensures input[pos..e][j] != '.'
      {
        if i == 0 {
          assert input[pos..e][j] == rest[j - 1];
        } else {
          assert input[pos..e][i] == rest[i - 1] && input[pos..e][j] == rest[j - 1];
        }
      }
    }
  }

  /** The number scan fails only on a second '.', reached through number
      characters only. */
  lemma {:induction false} NumberEndFailsOnSecondDot(input: string, pos: nat, dot: bool)
    requires pos <= |input| && NumberEnd(input, pos, dot).Err?
    ensures exists k | pos <= k < |input| ::
              input[k] == '.' && AllNumberChars(input[pos..k]) && (dot || '.' in input[pos..k])
    decreases |input| - pos
  {
    if IsDigit(input[pos]) {
      NumberEndFailsOnSecondDot(input, pos + 1, dot);
      var k :| pos + 1 <= k < |input| && input[k] == '.' && AllNumberChars(input[pos + 1..k])
               && (dot || '.' in input[pos + 1..k]);
      assert input[pos..k] == [input[pos]] + input[pos + 1..k];
    } else if dot {
      assert input[pos..pos] == [];
    } else {
      NumberEndFailsOnSecondDot(input, pos + 1, true);
      var k :| pos + 1 <= k < |input| && input[k] == '.' && AllNumberChars(input[pos + 1..k]);
      assert input[pos..k] == [input[pos]] + input[pos + 1..k];
      assert input[pos..k][0] == '.';
    }
  }

  /** A token and the text it was read from. */
  predicate Spells(t: Token, s: string) {
    match t
    case Number(v) => IsNumberLexeme(s) && v == LexemeValue(s)
    case Identifier(name) => |s| > 0 && AllLetters(s) && name == s
    case _ => |s| == 1 && Punctuation(s[0]) == Some(t)
  }

  /** The token ending at `end` could not have been longer. */
  predicate EndsAt(t: Token, input: string, end: nat)
    requires end <= |input|
  {
    match t
    case Number(_) => end == |input| || !IsNumberChar(input[end])
    case Identifier(_) => end == |input| || !IsLetter(input[end])
    case _ => true
  }

  /** What one call of `Next` does from scan position `pos`: the token (none at
      the end of input), where its text starts, and where the cursor ends. */
  datatype Scan = Scan(token: Option<Token>, start: nat, end: nat)

  /** The outcome of one call of `Next` from scan position `pos`.  The text it
      consumes is whitespace followed by exactly the token's lexeme. */
  function Lex(input: string, pos: nat): (r: Result<Scan>)
    requires pos <= |input|
    ensures r.Ok? ==> pos <= r.value.start <= r.value.end <= |input|
    ensures r.Ok? && r.value.token.None? ==> r.value.start == r.value.end == |input|
    ensures r.Ok? && r.value.token.Some? ==> r.value.start < r.value.end
    ensures r.Ok? && r.value.token.Some? && r.value.token.value.Identifier? ==>
              var name := r.value.token.value.name; |name| > 0 && AllLetters(name)
    ensures r.Err? ==> r.error.UnexpectedCharacter?
  {
    var start := WhitespaceEnd(input, pos);
    if start == |input| then
      Ok(Scan(None, start, start))
    else
      var c := input[start];
      if Punctuation(c).Some? then
        Ok(Scan(Punctuation(c), start, start + 1))
      else if IsDigit(c) then
        var end :- NumberEnd(input, start, false);
        Ok(Scan(Some(Number(LexemeValue(input[start..end]))), start, end))
      else if IsLetter(c) then
        var end := IdentifierEnd(input, start);
        IdentifierEndStops(input, start);
        Ok(Scan(Some(Identifier(input[start..end])), start, end))
      else
        Err(UnexpectedCharacter(c))
  }

  /** What one call of `Next` reads: a token is spelled by exactly the text it
      was read from and could not have been longer; a failure is a character
      that starts no token, or a number scan that met a second '.'. */
  lemma LexReadsOneToken(input: string, pos: nat)
    requires pos <= |input|
    ensures var r := Lex(input, pos);
            r.Ok? ==> AllSkippable(input[pos..r.value.start])
    ensures var r := Lex(input, pos);
            r.Ok? && r.value.token.Some? ==>
              Spells(r.value.token.value, input[r.value.start..r.value.end])
              && EndsAt(r.value.token.value, input, r.value.end)
    ensures var r := Lex(input, pos);
            var start := WhitespaceEnd(input, pos);
            r.Err? ==>
              start < |input|
              && ((Punctuation(input[start]).None? && !IsDigit(input[start]) && !IsLetter(input[start])
                   && r.error == UnexpectedCharacter(input[start]))
                  || (IsDigit(input[start]) && NumberEnd(input, start, false).Err?
                      && r.error == UnexpectedCharacter('.')))
  {
    var start := WhitespaceEnd(input, pos);
    WhitespaceEndStops(input, pos);
    if start < |input| && IsDigit(input[start]) && NumberEnd(input, start, false).Ok? {
      var end := NumberEnd(input, start, false).value;
      NumberEndStops(input, start, false);
      assert IsDigit(input[start..end][0]);
    }
    if start < |input| && IsLetter(input[start]) {
      IdentifierEndStops(input, start);
    }
  }

  /** A call yields no token exactly when nothing but skippable whitespace is
      left, and it then leaves the scan position at the end. */
  lemma NoTokenIffWhitespace(input: string, pos: nat)
    requires pos <= |input|
    ensures (Lex(input, pos).Ok? && Lex(input, pos).value.token.None?) <==> AllSkippable(input[pos..])
    ensures AllSkippable(input[pos..]) ==> Lex(input, pos) == Ok(Scan(None, |input|, |input|))
  {
    WhitespaceEndStops(input, pos);
    var e := WhitespaceEnd(input, pos);
    assert input[pos..|input|] == input[pos..];
    if e < |input| {
      assert input[pos..][e - pos] == input[e];
    }
  }

  /** Once a call yields no token, every later call yields none and leaves the
      scan position at the end. */
  lemma ExhaustedStaysExhausted(input: string, pos: nat)
    requires pos <= |input| && Lex(input, pos).Ok? && Lex(input, pos).value.token.None?
    ensures Lex(input, Lex(input, pos).value.end) == Ok(Scan(None, |input|, |input|))
  {
  }

  /** Whitespace before a token makes no difference to it. */
  lemma LexAfterWhitespace(input: string, pos: nat)
    requires pos <= |input|
    ensures Lex(input, pos) == Lex(input, WhitespaceEnd(input, pos))
  {
    WhitespaceEndStops(input, pos);
  }

  /** A character that starts no token is an error, whatever follows it; this
      includes the newline, a '.' and an underscore. */
  lemma UnrecognisedCharacter(input: string, pos: nat)
    requires pos < |input| && !IsSkippable(input[pos])
    requires Punctuation(input[pos]).None? && !IsDigit(input[pos]) && !IsLetter(input[pos])
    ensures Lex(input, pos) == Err(UnexpectedCharacter(input[pos]))
  {
  }

  /** A punctuation character is read as its token, one character long. */
  lemma LexPunctuation(input: string, pos: nat)
    requires pos < |input| && Punctuation(input[pos]).Some?
    ensures Lex(input, pos) == Ok(Scan(Punctuation(input[pos]), pos, pos + 1))
  {
  }

  /** A run of digits from `pos` to `end`, not followed by a digit or '.', is
      scanned to `end`. */
  lemma {:induction false} NumberEndOfDigits(input: string, pos: nat, end: nat, dot: bool)
    requires pos <= end <= |input| && AllDigits(input[pos..end])
    requires end == |input| || !IsNumberChar(input[end])
    ensures NumberEnd(input, pos, dot) == Ok(end)
    decreases end - pos
  {
    if pos < end {
      assert IsDigit(input[pos..end][0]);
      assert input[pos + 1..end] == input[pos..end][1..];
      NumberEndOfDigits(input, pos + 1, end, dot);
    }
  }

  /** A run of digits, not followed by a digit or '.', is one number token
      whose value is the natural number the digits denote. */
  lemma LexDigits(input: string, pos: nat, end: nat)
    requires pos < end <= |input| && AllDigits(input[pos..end])
    requires end == |input| || !IsNumberChar(input[end])
    ensures Lex(input, pos) == Ok(Scan(Some(Number(DigitsValue(input[pos..end]) as real)), pos, end))
  {
    assert IsDigit(input[pos..end][0]);
    NumberEndOfDigits(input, pos, end, false);
  }

  /** The identifier scan stops exactly at the end of a run of letters. */
  lemma {:induction false} IdentifierEndOfLetters(input: string, pos: nat, end: nat)
    requires pos <= end <= |input| && AllLetters(input[pos..end])
    requires end == |input| || !IsLetter(input[end])
    ensures IdentifierEnd(input, pos) == end
    decreases end - pos
  {
    if pos < end {
      assert IsLetter(input[pos..end][0]);
      assert input[pos + 1..end] == input[pos..end][1..];
      IdentifierEndOfLetters(input, pos + 1, end);
    }
  }

  /** A run of letters, not followed by a letter, is one identifier token. */
  lemma LexLetters(input: string, pos: nat, end: nat)
    requires pos < end <= |input| && AllLetters(input[pos..end])
    requires end == |input| || !IsLetter(input[end])
    ensures Lex(input, pos) == Ok(Scan(Some(Identifier(input[pos..end])), pos, end))
  {
    assert IsLetter(input[pos..end][0]);
    IdentifierEndOfLetters(input, pos, end);
  }

  /** The lexer: the input text, the start of the token being read, and the scan
      position.  Each `Next` moves the scan position forward; there is no rewind. */
  class Tokenizer {
    var start: nat
    const input: string
    var position: nat

    ghost predicate Valid()
      reads this
    {
      start <= position <= |input|
    }

    constructor (input: string)
      ensures Valid()
      ensures this.input == input && start == 0 && position == 0
    {
      this.start := 0;
      this.input := input;
      this.position := 0;
    }

    /** Skips whitespace, then reads one token, or none at the end of input. */
    method Next() returns (r: Result<Option<Token>>)
      requires Valid()
      modifies this
      ensures Valid()
      ensures match Lex(input, old(position))
              case Ok(s) => r == Ok(s.token) && start == s.start && position == s.end
              case Err(e) => r == Err(e)
    {
      SkipWhitespace();
      start := position;
      if position == |input| {
        return Ok(None);
      }
      var c := input[position];
      var punctuation := Punctuation(c);
      if punctuation.Some? {
        var t := MakeToken(punctuation.value);
        r := Ok(t);
      } else if IsDigit(c) {
        r := MakeNumber();
      } else if IsLetter(c) {
        var t := MakeIdentifier();
        r := Ok(t);
      } else {
        r := Err(UnexpectedCharacter(c));
      }
    }

    /** Reads a number literal starting at `start`. */
    method MakeNumber() returns (r: Result<Option<Token>>)
      requires Valid() && start == position < |input| && IsDigit(input[position])
      modifies this`position
      ensures Valid()
      ensures match NumberEnd(input, old(position), false)
              case Ok(e) =>
                position == e && IsNumberLexeme(input[start..e])
                && r == Ok(Some(Number(LexemeValue(input[start..e]))))
              case Err(err) => r == Err(err)
    {
      var dot := false;
      while position < |input|
        invariant start <= position <= |input|
        invariant NumberEnd(input, position, dot) == NumberEnd(input, old(position), false)
        decreases |input| - position
      {
        var c := input[position];
        if IsDigit(c) {
          position := position + 1;
        } else if c == '.' {
          if dot {
            return Err(UnexpectedCharacter(c));
          }
          dot := true;
          position := position + 1;
        } else {
          break;
        }
      }
      var lexeme := input[start..position];
      NumberEndStops(input, start, false);
      assert lexeme[0] == input[start];
      return Ok(Some(Number(LexemeValue(lexeme))));
    }

    /** Consumes the one character of a punctuation token. */
    method MakeToken(token: Token) returns (r: Option<Token>)
      requires Valid() && position < |input|
      modifies this`position
      ensures Valid()
      ensures position == old(position) + 1 && r == Some(token)
    {
      position := position + 1;
      return Some(token);
    }

    /** Reads the run of letters starting at `start`. */
    method MakeIdentifier() returns (r: Option<Token>)
      requires Valid() && start == position
      modifies this`position
      ensures Valid()
      ensures position == IdentifierEnd(input, old(position))
      ensures r == Some(Identifier(input[start..position]))
    {
      while position < |input|
        invariant start <= position <= |input|
        invariant IdentifierEnd(input, position) == IdentifierEnd(input, old(position))
        decreases |input| - position
      {
        if IsLetter(input[position]) {
          position := position + 1;
        } else {
          break;
        }
      }
      return Some(Identifier(input[start..position]));
    }

    /** Moves the scan position past spaces, carriage returns and tabs. */
    method SkipWhitespace()
      requires Valid()
      modifies this`position
      ensures Valid() && old(position) <= position
      ensures position == WhitespaceEnd(input, old(position))
    {
      while position < |input|
        invariant start <= old(position) <= position <= |input|
        invariant WhitespaceEnd(input, position) == WhitespaceEnd(input, old(position))
        decreases |input| - position
      {
        if IsSkippable(input[position]) {
          position := position + 1;
        } else {
          break;
        }
      }
    }
  }
}
