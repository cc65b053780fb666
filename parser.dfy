/** The parser object: it owns the tokenizer and one token of lookahead, and each
    `Parse…` method consumes tokens by moving that lookahead forward.  Every
    method is proved to do exactly what the grammar function of the same rule in
    module `Grammar` says, on the state it starts from. */
module Parsing {
  import opened Common
  import opened Lexing
  import opened Grammar

  /** The method outcome `r` and the state `after` it leaves are the ones the
      grammar function's outcome `p` describes. */
  predicate Agrees(r: Result<Node>, after: Cursor, p: Result<Parsed>) {
    match p
    case Ok(parsed) => r == Ok(parsed.node) && after == parsed.after
    case Err(e) => r == Err(e)
  }

  class Parser {
    var tokenizer: Tokenizer
    var currentToken: Option<Token>

    ghost predicate Valid()
      reads this, tokenizer
    {
      tokenizer.Valid() && ValidCursor(State())
    }

    /** The parser's state as a value. */
    ghost function State(): Cursor
      reads this, tokenizer
    {
      Cursor(tokenizer.input, tokenizer.position, currentToken)
    }

    constructor (tokenizer: Tokenizer, currentToken: Option<Token>)
      ensures this.tokenizer == tokenizer && this.currentToken == currentToken
    {
      this.tokenizer := tokenizer;
      this.currentToken := currentToken;
    }

    /** A parser over `tokenizer` whose lookahead is the tokenizer's first token. */
    static method New(tokenizer: Tokenizer) returns (r: Result<Parser>)
      requires tokenizer.Valid()
      modifies tokenizer
      ensures match NextCursor(old(Cursor(tokenizer.input, tokenizer.position, None)))
              case Ok(c) =>
                r.Ok? && fresh(r.value) && r.value.tokenizer == tokenizer
                && r.value.Valid() && r.value.State() == c
              case Err(e) => r == Err(e)
    {
      var first :- tokenizer.Next();
      var parser := new Parser(tokenizer, first);
      return Ok(parser);
    }

    /** Pulls the next token into the lookahead. */
    method Advance() returns (r: Outcome)
      requires Valid()
      modifies this`currentToken, tokenizer
      ensures Valid()
      ensures match NextCursor(old(State()))
              case Ok(c) => r == Pass && State() == c
              case Err(e) => r == Fail(e)
    {
      var next := tokenizer.Next();
      if next.Err? {
        return Fail(next.error);
      }
      currentToken := next.value;
      return Pass;
    }

    /** Parses one expression; whatever follows it is left unread. */
    method ParseExpression() returns (r: Result<Node>)
      requires Valid()
      modifies this`currentToken, tokenizer
      ensures Valid()
      ensures Agrees(r, State(), ExpressionAt(old(State())))
      decreases Rank(State()), 6
    {
      r := ParseAssignment();
    }

    method ParseAssignment() returns (r: Result<Node>)
      requires Valid()
      modifies this`currentToken, tokenizer
      ensures Valid()
      ensures Agrees(r, State(), AssignmentAt(old(State())))
      decreases Rank(State()), 5
    {
      var expr :- ParseAddition();
      if currentToken == Some(Equal) {
        :- Advance();
        var value :- ParseAddition();
        if expr.Variable? {
          expr := Assignment(expr.name, value);
        } else {
          return Err(InvalidAssignment);
        }
      }
      return Ok(expr);
    }

    method ParseAddition() returns (r: Result<Node>)
      requires Valid()
      modifies this`currentToken, tokenizer
      ensures Valid()
      ensures Agrees(r, State(), AdditionAt(old(State())))
      decreases Rank(State()), 4
    {
      var expr :- ParseMultiplication();
      while currentToken == Some(Plus) || currentToken == Some(Minus)
        invariant Valid()
        invariant Rank(State()) < Rank(old(State()))
        invariant AdditionRest(expr, State()) == AdditionAt(old(State()))
        decreases Rank(State())
      {
        var op := currentToken.value;
        :- Advance();
        var operand :- ParseMultiplication();
        expr := Binary(right := expr, left := operand, operator := op);
      }
      return Ok(expr);
    }

    method ParseMultiplication() returns (r: Result<Node>)
      requires Valid()
      modifies this`currentToken, tokenizer
      ensures Valid()
      ensures Agrees(r, State(), MultiplicationAt(old(State())))
      decreases Rank(State()), 3
    {
      var expr :- ParseUnary();
      while currentToken == Some(Asterisk) || currentToken == Some(Slash)
        invariant Valid()
        invariant Rank(State()) < Rank(old(State()))
        invariant MultiplicationRest(expr, State()) == MultiplicationAt(old(State()))
        decreases Rank(State())
      {
        var op := currentToken.value;
        :- Advance();
        var operand :- ParseUnary();
        expr := Binary(right := expr, left := operand, operator := op);
      }
      return Ok(expr);
    }

    method ParseUnary() returns (r: Result<Node>)
      requires Valid()
      modifies this`currentToken, tokenizer
      ensures Valid()
      ensures Agrees(r, State(), UnaryAt(old(State())))
      decreases Rank(State()), 2
    {
      if currentToken == Some(Minus) {
        var op := currentToken.value;
        :- Advance();
        var operand :- ParseUnary();
        return Ok(Unary(right := operand, operator := op));
      } else {
        r := ParseExponentiation();
      }
    }

    method ParseExponentiation() returns (r: Result<Node>)
      requires Valid()
      modifies this`currentToken, tokenizer
      ensures Valid()
      ensures Agrees(r, State(), ExponentiationAt(old(State())))
      decreases Rank(State()), 1
    {
      var expr :- ParsePrimary();
      if currentToken == Some(Caret) {
        var op := currentToken.value;
        :- Advance();
        var exponent :- ParseExponentiation();
        expr := Binary(right := exponent, left := expr, operator := op);
      }
      return Ok(expr);
    }

    method ParsePrimary() returns (r: Result<Node>)
      requires Valid()
      modifies this`currentToken, tokenizer
      ensures Valid()
      ensures Agrees(r, State(), PrimaryAt(old(State())))
      decreases Rank(State()), 0
    {
      match currentToken
      case Some(Number(n)) =>
        :- Advance();
        return Ok(Node.Number(n));
      case Some(Identifier(name)) =>
        :- Advance();
        if currentToken == Some(OpenParen) {
          :- Advance();
          var args :- ParseArguments();
          return Ok(FunctionCall(name, args));
        } else {
          return Ok(Variable(name));
        }
      case Some(OpenParen) =>
        :- Advance();
        var expr :- ParseExpression();
        if currentToken != Some(CloseParen) {
          return Err(ExpectedClosingParenthesis);
        }
        :- Advance();
        return Ok(expr);
      case Some(Pipe) =>
        :- Advance();
        var expr :- ParseExpression();
        if currentToken != Some(Pipe) {
          return Err(ExpectedClosingPipe);
        }
        :- Advance();
        return Ok(FunctionCall("abs", [expr]));
      case _ =>
        return Err(ExpectedPrimary);
    }

    /** The argument list of a call, after its `(`: one expression, then
        `, expression` until a `)`, which is consumed too. */
    method ParseArguments() returns (r: Result<seq<Node>>)
      requires Valid()
      modifies this`currentToken, tokenizer
      ensures Valid()
      ensures match FirstArgumentAt(old(State()))
              case Ok(a) => r == Ok(a.args) && State() == a.after
              case Err(e) => r == Err(e)
      decreases Rank(State()), 7
    {
      var args: seq<Node> := [];
      var first :- ParseExpression();
      args := args + [first];
      assert args == [first];
      while currentToken != Some(CloseParen)
        invariant Valid()
        invariant ArgumentsRest(args, State()) == FirstArgumentAt(old(State()))
        decreases Rank(State())
      {
        if currentToken != Some(Comma) {
          return Err(ExpectedComma);
        }
        :- Advance();
        var arg :- ParseExpression();
        args := args + [arg];
      }
      :- Advance();
      return Ok(args);
    }
  }
}
