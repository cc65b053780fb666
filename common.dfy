/** Failure kinds and the result wrappers shared by the tokenizer, the parser and
    the evaluator.  Every panic of the calculator becomes one `Error` value;
    a pass that fails returns that value and no partial result. */
module Common {

  /** One constructor per panic site of the calculator, except that the
      tokenizer's two "unexpected character" panics share `UnexpectedCharacter`,
      and `ArgumentIndexOutOfBounds` stands for the out-of-bounds panic of
      indexing the argument list of a call. */
  datatype Error =
    /** the tokenizer met a character it cannot start a token with, or a second
        decimal point inside a number */
    | UnexpectedCharacter(c: char)
    /** `=` whose left-hand side did not parse to a bare variable */
    | InvalidAssignment
    /** an argument list continued with something other than `,` or `)` */
    | ExpectedComma
    /** `(` expression not followed by `)` */
    | ExpectedClosingParenthesis
    /** `|` expression not followed by `|` */
    | ExpectedClosingPipe
    /** a token (or the end of input) where a primary expression must start */
    | ExpectedPrimary
    /** the evaluator reached a node it has no rule for (a bare variable) */
    | InvalidNode
    /** a binary node whose operator is not `+ - * / ^` */
    | InvalidBinaryOperator
    /** a binary node whose operands did not evaluate to numbers */
    | InvalidBinaryOperands
    /** a unary node whose operator is not `-` */
    | InvalidUnaryOperator
    /** a unary node whose operand did not evaluate to a number */
    | InvalidUnaryOperand
    /** a function argument that did not evaluate to a number */
    | InvalidArgument
    /** a call of a name outside the function table */
    | InvalidFunctionName
    /** a function read an argument position past the end of its argument list */
    | ArgumentIndexOutOfBounds
    /** an assignment whose value did not evaluate to a number */
    | InvalidAssignmentValue
    /** the whole evaluation did not end in a number */
    | InvalidResult

  datatype Option<+T> = None | Some(value: T)

  /** A value or the error that aborted the pass; usable with `:-`. */
  datatype Result<+T> = Ok(value: T) | Err(error: Error) {
    predicate IsFailure() { Err? }

    function PropagateFailure<U>(): Result<U>
      requires Err?
    {
      Err(error)
    }

    function Extract(): T
      requires Ok?
    {
      value
    }
  }

  /** The outcome of a step that produces no value; usable with `:-`. */
  datatype Outcome = Pass | Fail(error: Error) {
    predicate IsFailure() { Fail? }

    function PropagateFailure<U>(): Result<U>
      requires Fail?
    {
      Err(error)
    }
  }
}
