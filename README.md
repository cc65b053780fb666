# maths-lang calculator, modelled in Dafny

maths-lang evaluates an arithmetic expression string in three passes:

- a lazy **tokenizer** (`src/tokenizer.rs`) hands out one token per call of `next`;
- a recursive-descent **parser** (`src/parser.rs`) keeps one token of lookahead and builds a `Node` tree;
- a recursive **evaluator** (`src/evaluator.rs`) folds the tree into a `Number` node.

`calculate` in `src/main.rs` chains the three passes.

The model keeps each pass in the form of its source. Every `panic!` becomes a value of `Common.Error`, one constructor per panic site, except that the tokenizer's two "unexpected character" panics (`src/tokenizer.rs` lines 50 and 64) share `UnexpectedCharacter`, and `ArgumentIndexOutOfBounds` stands for the out-of-bounds panic of indexing the argument list of a call. A failing pass returns its error in a `Result`.

- **Tokenizer.** `Lexing.Tokenizer` is a class with the fields `start`, `input` and `position`. Its methods `Next`, `MakeNumber`, `MakeToken`, `MakeIdentifier` and `SkipWhitespace` are proved against the pure functions `Lex`, `NumberEnd`, `IdentifierEnd` and `WhitespaceEnd`. The lemmas about those functions state what one call reads.
- **Grammar.** `Grammar` holds one function per grammar rule (`ExpressionAt` … `PrimaryAt`). Each works on the parser's state as a value, `Cursor(input, pos, current)`. Because the parser reads the next token only when it moves on, text after the point where parsing stops is never lexed. The lemmas state what each rule builds.
- **Parser.** `Parsing.Parser` is a class that owns a `Tokenizer` and the lookahead `currentToken`. Each `Parse…` method is proved to return and leave exactly what the grammar function of its rule says. The loops of `ParseAddition`, `ParseMultiplication` and the argument loop carry that as an invariant.
- **Evaluator.** `Evaluation.Evaluate` is the recursive fold. `EvalFunctionCall` is the argument loop of `eval_function_call`, proved equal to it. Numbers are `real`s:
  - `+`, `-`, `*`, negation and `abs` are exact;
  - division, `powf` and the library functions come from a `MathLibrary` value that the caller passes in.
- **Printer.** `Printing` is a printer for trees that is not part of the program. It exists so that the parser can be stated as an inverse: `Calculator.ParsePrinted` proves that parsing the printed text of a tree gives the tree back, for every tree of the shapes the parser builds with whole-number literals. `Printing.Printable` spells out those shapes: binary operators among `+ - * / ^`, only `-` as a unary operator, names that are runs of ASCII letters, and calls with at least one argument.
- **Calculator.** `Calculator.Calculate` is `calculate`, and `Calculator.Run` runs the classes themselves. `Scenarios` proves examples of the intended arithmetic on concrete text, such as `5-3` meaning 2.

Where the intended arithmetic and the code differ, the model follows the code:

- For `+ - * /` the parser stores the first operand in the node's `right` field and the second in `left`. The evaluator computes `left op right`, so `5-3` is `-2` (`Scenarios.FiveMinusThree`) and `8/2` is `2/8` (`Scenarios.EightOverTwo`).
- `^` keeps the base in `left`, so `2^3` is 2 to the power 3.
- The unary minus is outside the power: `-2^2` is `-(2^2)`.
- Nothing checks that the text ends after the expression: `1,2` and `1)@` calculate to 1 (`Scenarios.TrailingTextIgnored`).
- An assignment binds nothing. Its value is the value of its right-hand side.

## Model

| member | source | states |
|---|---|---|
| Lexing.LexemeValue | src/tokenizer.rs:72 | the value of a literal is never negative, and a literal without `.` has the value of its digits as a natural number |
| Lexing.WhitespaceEnd | src/tokenizer.rs:92-98 | skipping whitespace stays inside the text and never moves back |
| Lexing.WhitespaceEndStops | src/tokenizer.rs:92-98 | only space, carriage return and tab are skipped, and skipping stops at the first other character |
| Lexing.IdentifierEnd | src/tokenizer.rs:81-87 | the identifier scan stays inside the text and never moves back |
| Lexing.IdentifierEndStops | src/tokenizer.rs:81-87 | an identifier is the maximal run of ASCII letters from its start |
| Lexing.IdentifierEndOfLetters | src/tokenizer.rs:81-87 | a run of letters not followed by a letter is scanned exactly to its end |
| Lexing.NumberEnd | src/tokenizer.rs:57-71 | the number scan stays inside the text, and its only failure is "unexpected character" on a `.` |
| Lexing.NumberEndStops | src/tokenizer.rs:57-71 | a scanned number is digits with at most one `.`, and is maximal: the next character is neither a digit nor `.` |
| Lexing.NumberEndFailsOnSecondDot | src/tokenizer.rs:62-65 | the number scan fails only on reaching a second `.` through number characters |
| Lexing.NumberEndOfDigits | src/tokenizer.rs:57-71 | a run of digits not followed by a digit or `.` is scanned exactly to its end |
| Lexing.Lex | src/tokenizer.rs:32-55 | one call of `next`: no token only when nothing but whitespace is left (the converse is `NoTokenIffWhitespace`); a token has non-empty text inside the input; an identifier is a non-empty run of letters; every failure is an unexpected character |
| Lexing.LexReadsOneToken | src/tokenizer.rs:32-90 | one call consumes skippable whitespace, then exactly the token's text, which spells the token and could not have been longer; a failure is a character that starts no token, or a second `.` in a number |
| Lexing.NoTokenIffWhitespace | src/tokenizer.rs:32-54 | a call yields no token if and only if nothing but skippable whitespace is left, and it then leaves the scan position at the end |
| Lexing.ExhaustedStaysExhausted | src/tokenizer.rs:32-54 | once a call yields no token, every later call yields none and leaves the position at the end |
| Lexing.LexAfterWhitespace | src/tokenizer.rs:32-34 | whitespace before a token makes no difference to the token read |
| Lexing.UnrecognisedCharacter | src/tokenizer.rs:50 | a character that is not skippable, not punctuation, not a digit and not a letter (newline, `.`, `_`) is an "unexpected character" error |
| Lexing.LexPunctuation | src/tokenizer.rs:38-47 | each of the ten punctuation characters is read as its own token and advances one character |
| Lexing.LexDigits | src/tokenizer.rs:57-74 | a maximal run of digits is one number token whose value is the natural number it denotes |
| Lexing.LexLetters | src/tokenizer.rs:81-90 | a maximal run of letters is one identifier token spelled by that run |
| Lexing.Tokenizer.constructor | src/tokenizer.rs:24-30 | a new tokenizer is over the given text, with `start` and `position` at 0 |
| Lexing.Tokenizer.Next | src/tokenizer.rs:32-55 | the token or failure and the new `start` and `position` are those of `Lex` from the old position |
| Lexing.Tokenizer.MakeNumber | src/tokenizer.rs:57-74 | reads to where `NumberEnd` stops; the lexeme is a valid number and the token carries its value; a second `.` fails |
| Lexing.Tokenizer.MakeToken | src/tokenizer.rs:76-79 | advances the position by exactly one and returns the token |
| Lexing.Tokenizer.MakeIdentifier | src/tokenizer.rs:81-90 | reads to where `IdentifierEnd` stops and returns the identifier spelled by `input[start..position]` |
| Lexing.Tokenizer.SkipWhitespace | src/tokenizer.rs:92-98 | moves the position forward to where `WhitespaceEnd` stops |
| Grammar.NextCursor | src/parser.rs:169-171 | advancing moves to a later state over the same text, strictly later when there was a lookahead; a failure is the lexer's |
| Grammar.StartCursor | src/parser.rs:31-37 | a new parser's state is over the given text, with the first token of the text as lookahead and the scan position after it; it fails exactly when lexing that token fails, with the lexer's error |
| Grammar.ExpressionAt | src/parser.rs:43-45 | an expression consumes at least one token and yields a tree the parser can build; every failure is a syntax error |
| Grammar.AssignmentAt | src/parser.rs:47-62 | the same for `assignment` |
| Grammar.AdditionAt | src/parser.rs:64-77 | the same for `addition` |
| Grammar.AdditionRest | src/parser.rs:66-75 | the loop of `addition` never moves back and keeps trees well formed |
| Grammar.MultiplicationAt | src/parser.rs:79-92 | the same for `multiplication` |
| Grammar.MultiplicationRest | src/parser.rs:81-90 | the loop of `multiplication` never moves back and keeps trees well formed |
| Grammar.UnaryAt | src/parser.rs:94-106 | the same for `unary` |
| Grammar.ExponentiationAt | src/parser.rs:108-121 | the same for `exponentiation` |
| Grammar.PrimaryAt | src/parser.rs:123-166 | the same for `primary` |
| Grammar.NamedAt | src/parser.rs:127-144 | after a name: a well-formed call or variable; failures are syntax errors |
| Grammar.EnclosedAt | src/parser.rs:145-159 | the expression inside `( )` or `\| \|` and its closing token; failures are syntax errors |
| Grammar.FirstArgumentAt | src/parser.rs:129-140 | a call has at least one argument, and every argument is well formed |
| Grammar.ArgumentsRest | src/parser.rs:133-139 | the argument loop never drops an argument; failures are syntax errors |
| Grammar.ArgumentsKept | src/parser.rs:131-138 | the argument loop keeps the arguments read before it, in order, in front of the ones it adds |
| Grammar.NextIgnoresLookahead | src/parser.rs:169-171 | the next token depends only on the scan position, not on the lookahead it replaces |
| Grammar.UnaryOfPrimary | src/parser.rs:94-121 | a primary not starting with `-` and not followed by `^` is a whole unary expression |
| Grammar.ExpressionOfUnary | src/parser.rs:43-92 | a unary expression followed by no operator is a whole expression |
| Grammar.MultiplicationOfPrimary | src/parser.rs:79-92 | a primary followed by no `^`, `*` or `/` is a whole multiplication |
| Grammar.AdditionOfPrimary | src/parser.rs:64-77 | a primary followed by no `^`, `*`, `/`, `+` or `-` is a whole addition |
| Grammar.ExpressionOfMultiplication | src/parser.rs:43-77 | a multiplication followed by no `+`, `-` or `=` is a whole expression |
| Grammar.ExpressionOfAddition | src/parser.rs:43-62 | an addition followed by no `=` is a whole expression |
| Grammar.SumOfTwo | src/parser.rs:64-77 | `a + b` and `a - b` build a node with the first operand as `right` and the second as `left` |
| Grammar.ProductOfTwo | src/parser.rs:79-92 | `a * b` and `a / b` build a node with the first operand as `right` and the second as `left` |
| Grammar.SumOfThree | src/parser.rs:64-77 | three operands fold from the left, and at each step the expression so far becomes `right` and the new operand `left` |
| Grammar.PowerOfTwo | src/parser.rs:108-121 | `a ^ b` keeps the base `a` as `left` and the exponent `b` as `right` |
| Grammar.PowerOfThree | src/parser.rs:108-121 | `^` groups to the right: in `a ^ b ^ d`, `b ^ d` is the exponent of `a` |
| Grammar.NegativeExponent | src/parser.rs:108-113 | an exponent cannot start with `-`, so `2^-1` fails with "expected primary" |
| Grammar.NegationOfPrimary | src/parser.rs:94-102 | `- a` wraps the operand in a unary minus node |
| Grammar.NegationOfUnary | src/parser.rs:94-102 | `-` before any unary expression, itself possibly negated, wraps it in one more negation node, so the minus signs nest |
| Grammar.AssignmentOfTwo | src/parser.rs:47-56 | `x = v` with a variable `x` builds an assignment to the name `x` |
| Grammar.AssignmentToNonVariable | src/parser.rs:52-59 | `=` after anything but a bare variable is an "invalid assignment" error |
| Grammar.NoPrimary | src/parser.rs:164-166 | a lookahead that starts no primary, including the end of the text, is an "expected primary" error |
| Grammar.AbsoluteValue | src/parser.rs:153-163 | `\| e \|` is a call of `abs` with the one argument `e` |
| Grammar.Unclosed | src/parser.rs:145-159 | `( e` without `)` and `\| e` without `\|` fail with the matching "expected closing" error |
| Grammar.MissingCommaLater | src/parser.rs:133-136 | a later argument, after a `,`, followed by anything but `,` or `)`, including the end of the text, is an "expected comma" error, whatever the arguments before it |
| Grammar.MissingComma | src/parser.rs:132-136 | the first argument followed by anything but `,` or `)`, including the end of the text, is an "expected comma" error |
| Parsing.Parser.constructor | src/parser.rs:33-36 | the parser holds the given tokenizer and lookahead |
| Parsing.Parser.New | src/parser.rs:31-37 | a new parser's state is the tokenizer's first token as lookahead, or the lexer's failure |
| Parsing.Parser.Advance | src/parser.rs:169-171 | the new state is `NextCursor` of the old one |
| Parsing.Parser.ParseExpression | src/parser.rs:43-45 | the result and the state left behind are those of `ExpressionAt` on the old state |
| Parsing.Parser.ParseAssignment | src/parser.rs:47-62 | the result and the state left behind are those of `AssignmentAt` |
| Parsing.Parser.ParseAddition | src/parser.rs:64-77 | the result and the state left behind are those of `AdditionAt`; the loop keeps that invariant |
| Parsing.Parser.ParseMultiplication | src/parser.rs:79-92 | the result and the state left behind are those of `MultiplicationAt`; the loop keeps that invariant |
| Parsing.Parser.ParseUnary | src/parser.rs:94-106 | the result and the state left behind are those of `UnaryAt` |
| Parsing.Parser.ParseExponentiation | src/parser.rs:108-121 | the result and the state left behind are those of `ExponentiationAt` |
| Parsing.Parser.ParsePrimary | src/parser.rs:123-166 | the result and the state left behind are those of `PrimaryAt` |
| Parsing.Parser.ParseArguments | src/parser.rs:129-140 | the arguments and the state after `)` are those of `FirstArgumentAt`; the loop keeps that invariant |
| Evaluation.Abs | src/evaluator.rs:97-99 | the absolute value is not negative and is the number or its negation |
| Evaluation.ApplyToFirst | src/evaluator.rs:66-89 | a one-argument function succeeds exactly when there is an argument, with its function of the first argument, and otherwise fails out of bounds |
| Evaluation.Apply | src/evaluator.rs:62-103 | dispatch succeeds exactly on a table name with enough arguments (`root` two, the others one); otherwise it fails out of bounds for a table name and "invalid function name" for any other name |
| Evaluation.TwoArgumentValues | src/evaluator.rs:63-96 | `root(x, y, …)` is `x` to the power `1/y`; `root(x)` fails out of bounds; `log(x)` is the common logarithm of `x`; `log(x, y, …)` is the logarithm of `x` to base `y` |
| Evaluation.OneArgumentValues | src/evaluator.rs:66-99 | each of `sin cos tan asin acos atan sqrt ln abs` applies its function to the first argument, whatever follows |
| Evaluation.Evaluate | src/evaluator.rs:10-21 | whenever evaluation succeeds, the result is a `Number` node |
| Evaluation.EvalBinary | src/evaluator.rs:23-38 | a binary node evaluates to a `Number`; its value is stated by `BinaryValue` and `BinaryFailure` |
| Evaluation.EvalUnary | src/evaluator.rs:40-50 | a unary node evaluates to a `Number`; its value is stated by `UnaryValue` |
| Evaluation.EvalAssignment | src/evaluator.rs:106-113 | an assignment evaluates to a `Number` |
| Evaluation.EvalCall | src/evaluator.rs:52-104 | a call fails with the arguments' error when an argument fails; otherwise its value is the table dispatch on the argument values, or the dispatch's error |
| Evaluation.EvalArgs | src/evaluator.rs:53-60 | on success, one value per argument, each the value of its argument; on failure, the first failing argument's error, all arguments before it evaluating |
| Evaluation.EvalFunctionCall | src/evaluator.rs:52-104 | the loop over the arguments computes exactly the evaluation of the call |
| Evaluation.OperandChecksNeverFail | src/evaluator.rs:26-111 | the checks that an operand evaluated to a number never fail, because evaluation only ever returns numbers |
| Evaluation.EvaluatesExactly | src/evaluator.rs:10-104 | on a tree the parser builds, evaluation succeeds exactly when the tree has no free variable and every call names a table function with enough arguments; it can fail only with "invalid node", "invalid function name" or out of bounds |
| Evaluation.AssignmentIsValue | src/evaluator.rs:106-113 | an assignment evaluates to its value; the name plays no part |
| Evaluation.ExtraArgumentsIgnored | src/evaluator.rs:62-99 | arguments after the ones a function reads do not change its result |
| Evaluation.UnaryValue | src/evaluator.rs:40-50 | for any operand, a negation has the negated value of the operand; any other unary operator fails; an operand's failure is the node's failure |
| Evaluation.BinaryValue | src/evaluator.rs:23-34 | for any operands of values `x` (the `left` child) and `y` (the `right` child), the node computes `x + y`, `x - y`, `x * y`, divide(x, y) or power(x, y) by its operator, and any other operator fails |
| Evaluation.BinaryFailure | src/evaluator.rs:24-25 | the `left` child is evaluated first: its failure is the node's, and the `right` child's failure counts only when the `left` child succeeds |
| Evaluation.ArgumentErrorFirst | src/evaluator.rs:53-62 | the first failing argument's error is the call's error whatever the name, since every argument is evaluated before the name is looked up |
| Evaluation.ChainedDifference | src/evaluator.rs:23-29 | two subtractions as the parser builds them for `a - b - d` evaluate to `d - (b - a)` |
| Printing.LexSpelling | src/tokenizer.rs:32-90 | the printed text of a token, followed by a delimiter when it is a word, is read back as that token |
| Printing.LexText | src/tokenizer.rs:32-90 | the parser's states while reading printed tokens have those tokens as their lookaheads, in order |
| Printing.PrimaryOfTokens | src/parser.rs:123-166 | walking the parser through the printed tokens of a tree parses a primary that is the tree |
| Printing.ExpressionOfTokens | src/parser.rs:43-166 | the same for a whole expression followed by the end, `)`, `,` or `\|` |
| Printing.ParsedOperation | src/parser.rs:64-92 | `( r op l )` for `+ - * /` parses to the node with `right` `r` and `left` `l` |
| Printing.ParsedPower | src/parser.rs:108-121 | `( l ^ r )` parses to the node with `left` `l` and `right` `r` |
| Printing.ParsedNegation | src/parser.rs:94-106 | `( - e )` parses to the negation of `e` |
| Printing.ParsedAssignment | src/parser.rs:47-62 | `( x = v )` parses to the assignment of `v` to `x` |
| Printing.ParsedCall | src/parser.rs:127-141 | `f ( a, … )` parses to the call of `f` with those arguments |
| Printing.ArgumentsOfTokens | src/parser.rs:131-140 | the argument loop reads printed arguments back in order, up to and past the `)` |
| Printing.VariableAt | src/parser.rs:142-144 | a name not followed by `(` is a variable |
| Printing.Grouped | src/parser.rs:145-152 | `( e )` is the primary `e` with no wrapper node |
| Printing.CallOfArguments | src/parser.rs:127-141 | a name, `(`, and a successful argument loop make a call of that name with those arguments |
| Printing.NamedPrimary | src/parser.rs:127-128 | a primary that starts with a name is what follows the name |
| Printing.NamedCall | src/parser.rs:129-141 | after a name, `(` and a successful argument loop make a call |
| Printing.SumOfPrimaries | src/parser.rs:64-77 | `a + b` and `a - b` of two primaries keep the first operand as `right` |
| Printing.ProductOfPrimaries | src/parser.rs:79-92 | `a * b` and `a / b` of two primaries keep the first operand as `right` |
| Printing.PowerOfPrimaries | src/parser.rs:108-121 | `a ^ b` of two primaries keeps the base as `left` |
| Printing.NegationOfPrimaries | src/parser.rs:94-106 | `- a` of a primary is its negation |
| Printing.AssignmentOfPrimaries | src/parser.rs:47-62 | `x = v` of a variable and a primary is an assignment |
| Calculator.Calculate | src/main.rs:16-28 | a text that does not parse fails with the parser's error, and a result is the value of the parsed tree (when it succeeds exactly is `CalculatesExactly`) |
| Calculator.Parse | src/main.rs:18-21 | a parsed tree is one the parser can build, and every failure is a syntax error |
| Calculator.Run | src/main.rs:16-28 | running the tokenizer, parser and evaluator objects computes exactly `Calculate` |
| Calculator.CalculatesExactly | src/main.rs:16-28 | a calculation succeeds exactly when the text parses to an evaluable tree; it fails with a syntax or evaluation error, never with "invalid result" |
| Calculator.CalculateParsed | src/main.rs:21-27 | a calculation of text that parses to a tree is the evaluation of that tree |
| Calculator.CalculateIs | src/main.rs:21-27 | text that parses to a tree of value `v` calculates to `v` |
| Calculator.ParseFails | src/main.rs:18-21 | an expression that fails to parse makes the whole parse fail with the same error |
| Calculator.ParsePrinted | src/parser.rs:43-166 | parsing the printed text of a tree gives the tree back |
| Calculator.ParsePrintedPrefix | src/parser.rs:43-45 | text after a parsed expression that starts with `)`, `,` or `\|` is never examined: the tree is the same whatever follows |
| Calculator.InfixOperandsSwapped | src/parser.rs:64-92 | `a op b` for `+ - * /` parses to the node whose `right` is `a` and whose `left` is `b` |
| Calculator.PowerOperandsInOrder | src/parser.rs:108-121 | `a ^ b` parses to the node whose `left` is `a` and whose `right` is `b` |
| Calculator.CalculateInfix | src/evaluator.rs:23-31 | the calculation of `a op b` for `+ - * /` is the evaluation of the node with `right` `a` and `left` `b` |
| Calculator.DifferenceReversed | src/evaluator.rs:23-29 | `a - b` calculates to the value of `b` minus the value of `a` |
| Calculator.Subtraction | src/evaluator.rs:29 | the text of `a - b` calculates to the value of the node with `right` `a` and `left` `b` |
| Calculator.QuotientReversed | src/evaluator.rs:23-31 | `a / b` calculates to the value of `b` divided by the value of `a` |
| Calculator.PowerInOrder | src/evaluator.rs:23-32 | `a ^ b` calculates to the value of `a` raised to the value of `b` |
| Scenarios.FiveMinusThree | src/parser.rs:64-77 | `5-3` calculates to -2 |
| Scenarios.EightOverTwo | src/parser.rs:79-92 | `8/2` calculates to 2 divided by 8 |
| Scenarios.TwoToTheThree | src/parser.rs:108-121 | `2^3` calculates to 2 raised to 3 |
| Scenarios.TrailingTextIgnored | src/parser.rs:43-45 | `1,2` and `1)@` both calculate to 1 |
| Scenarios.EmptyText | src/parser.rs:164-166 | empty text fails with "expected primary" |
| Scenarios.AssignmentToNumber | src/parser.rs:52-59 | `2=4` fails with "invalid assignment" |
| Scenarios.NumberAssigned | src/parser.rs:47-62 | `2=4` does not parse, because its left side is a number |
| Scenarios.MinusOutsidePower | src/parser.rs:94-106 | `-2^2` calculates to the negation of 2 raised to 2 |
| Scenarios.NegatedPowerTree | src/parser.rs:94-121 | `-2^2` parses to the negation of the power node |
| Scenarios.DoubleNegation | src/parser.rs:94-102 | `--2` calculates to 2 |
| Scenarios.DoubleNegationTree | src/parser.rs:94-102 | `--2` parses to the negation of the negation of 2 |
| Scenarios.RootOfOneArgument | src/evaluator.rs:63-65 | `root(8)` fails out of bounds |
| Scenarios.ArgumentBeforeName | src/evaluator.rs:53-62 | `foo(x)` fails with "invalid node" for the bare variable, not with "invalid function name" |
| Scenarios.StrayCharacter | src/tokenizer.rs:50 | `1@` fails with "unexpected character `@`" once `@` becomes the lookahead |

## Left out

- Floating point: numbers are exact `real`s. The model does not capture f64 rounding of literals, overflow to infinity, NaN, or the rounding of `+ - *`.
- `powf`, division and the library functions (`sin`, `cos`, `tan`, `asin`, `acos`, `atan`, `sqrt`, `ln`, `log10`, `log`) are fields of a `MathLibrary` value passed in by the caller, so nothing is stated about their values. `abs` is exact.
- Lexing.LexemeValue: the value of a literal is its exact decimal value, not the nearest f64 that `parse::<f64>()` returns.
- Byte versus character indexing: the text is a `seq<char>` indexed by character. The source indexes by `chars().nth` and slices by byte. The two agree on ASCII text, and a non-ASCII character always ends in an error before any token after it.
- Panic messages: each panic is one `Error` constructor. The text of the message and the process abort are not modelled.
- `main` and its printing, the `mod functions` declaration, and the derived `Debug`, `Clone` and `PartialEq` implementations: none of them is part of the calculation. `src/functions.rs` is not part of this model.
- Printing.Print: the printer covers only whole-number literals and writes every operator node inside its own parentheses. It has no `| e |` form, so `ParsePrinted` says nothing about literals with a fraction, about precedence without parentheses, or about `|`. Those are covered by the grammar lemmas instead.
- Lexing.DigitValue is total and gives 0 for a non-digit. `LexemeValue` is total over any string, but `Lex` applies it only to a lexeme of digits with at most one `.`.
- `Box`/ownership details: the tree's children are boxed, `evaluate` takes its node by value and `eval_function_call` clones its arguments. Trees are values here, so neither matters.
