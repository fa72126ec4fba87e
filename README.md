# zelkel-vm, early snapshot: lexer, parser and stack evaluator

zelkel-vm is a small toolchain for a stack language. This model covers the
three components the early snapshot implements:

- **Lexer** (`src/lexer.rs`). It scans a line into typed tokens: identifiers,
  i32 integers, floats, quoted strings, and the punctuation `.`, `:` and `,`.
  It skips whitespace and fails on any other character. Each token carries a
  `kind` string and a `TokenValue`.
- **Parser** (`src/parser.rs`). It is a cursor over the token vector with the
  primitives `current` and `next`. `parse_identifier` recognises
  `push <literal>`, and the driver `parse` loops over the tokens.
- **Evaluator** (`src/evaluator.rs`). `evaluate` runs a node list on one
  operand stack of tagged values. It supports Push, Pop and the integer
  operations Add, Sub, Mul, Div and Mod with Rust's i32 semantics. A nested
  Block runs on a stack of its own.

The project's design describes a much richer machine than this code has. That
machine has line and column positions on tokens, labels, jumps, variables,
buffers, syscalls, a stack-underflow error and type errors that name both
tags. This model follows the code of the snapshot:

- stack underflow is a panic;
- the type error is the fixed text "Invalid types for <op>";
- tokens carry no positions.

Modules:

- `Wrappers` has `Option` and `Result`.
- `Int32` has the i32 range and Rust's truncating `/` and `%`, defined from
  magnitudes because Dafny's operators are Euclidean.
- `Lexer`, `Parser` and `Evaluator` follow the three source files.

Each imperative routine of the source is a Dafny method proved against a
specification function:

- `Until` against `Span`;
- `Lex` against `LexFrom`, whose loop pass `LexStep` is proved against `Scan`;
- `Parse` against `ParseLoop`;
- `Evaluate` against `Exec`, with `Perform` and `Operate` for one node and one
  arithmetic instruction.

Lemmas state the properties of those functions.

Source panics are handled in two ways:

- **Preconditions.** An index past the end in `next`, an `unwrap` of `None` in
  `parse_identifier`, and in `evaluate` stack underflow, i32 overflow, a zero
  divisor or `i32::MIN` by -1.
- **A modelled outcome in `parse`.** There the panic is the behaviour worth
  stating. `Parse` also takes a budget of loop passes, because on non-empty
  input its loop never ends unless it panics.

## Model

| member | source | states |
|---|---|---|
| Int32.TruncDivision | src/evaluator.rs:45-64 | i32 `/` and `%` satisfy `b == q*a + r`, with `abs(r) < abs(a)` and `r` zero or of the dividend's sign |
| Int32.TruncDivRoundsTowardZero | src/evaluator.rs:50 | the quotient's magnitude is the floor of `abs(b)/abs(a)`, and it is zero, or positive exactly when the operands' signs agree |
| Int32.TruncDivOverflowsOnlyAtMinByMinusOne | src/evaluator.rs:50 | for i32 operands and a non-zero divisor, the quotient leaves the i32 range exactly for `i32::MIN / -1` |
| Int32.TruncRemInRange | src/evaluator.rs:60 | the remainder of i32 operands with a non-zero divisor is an i32 |
| Lexer.CouldBe | src/lexer.rs:30-32 | `could_be(c, s)` holds exactly when `c` occurs in `s` |
| Lexer.Span | src/lexer.rs:16-28 | the run's end is at least `start`, within the input whenever `start` is (and `start` itself otherwise), and is past `start` when the first character passes |
| Lexer.SpanIsMaximal | src/lexer.rs:22 | every character of the run passes the test and the character after the run fails it: the run is the longest one |
| Lexer.Until | src/lexer.rs:16-28 | `until` returns the longest passing run from `start`, and its end index |
| Lexer.ParseInteger | src/lexer.rs:54 | a digit run parses exactly when its decimal value is at most `i32::MAX`, and then to that value |
| Lexer.AsciiByteLength | src/lexer.rs:60 | on ASCII text the UTF-8 byte length equals the character count |
| Lexer.QuoteMissingIffNoClosingQuote | src/lexer.rs:58-61 | the corrected closing-quote check fails exactly when no `"` follows the opening quote |
| Lexer.QuoteMissingAgreesOnAscii | src/lexer.rs:59-60 | on ASCII input the byte-offset check as written gives the same verdict as the corrected check |
| Lexer.QuoteMissingAsWrittenRejectsNonAscii | src/lexer.rs:60 | on `"é"` the check as written reports an unclosed string although the closing quote is there |
| Lexer.Scan | src/lexer.rs:39-72 | each pass of the `lex` loop either fails or moves the cursor strictly forward and stays within the input, so `lex` terminates |
| Lexer.ScanWellFormed | src/lexer.rs:41-69 | every token a pass emits is well formed: its kind names its variant, identifiers are a letter then letters or digits, integers are non-negative, floats are valid lexemes, strings hold no `"`, punctuation is `.`, `:` or `,` |
| Lexer.LexStep | src/lexer.rs:40-72 | the imperative pass, which uses `until` and the source's byte-offset quote check, does what `Scan` specifies |
| Lexer.Lex | src/lexer.rs:34-76 | `lex` returns the tokens of the passes in order, or the first error, and every token it returns is well formed |
| Lexer.LexFromWellFormed | src/lexer.rs:39-75 | every token of a successful run of the lexer is well formed |
| Lexer.LexPushInteger | src/tests.rs:4-10 | `push 5` lexes to the identifier `push` and the integer 5 |
| Lexer.LexUnknownCharacter | src/tests.rs:13-16 | `push ?;` fails with "Unexpected character: '?'" |
| Lexer.LexPushString | src/tests.rs:19-25 | `push "hello"` lexes to the identifier `push` and the string `hello` |
| Lexer.LexPushFloat | src/tests.rs:28-34 | `push 3.14` lexes to the identifier `push` and the float with lexeme `3.14` |
| Lexer.LexIntegerOverflow | src/lexer.rs:54 | `2147483648`, one past `i32::MAX`, fails as an invalid integer |
| Parser.Current | src/parser.rs:38-44 | `current` gives the token at `i` exactly when `i` is inside the vector, and nothing otherwise |
| Parser.Next | src/parser.rs:46-54 | `next` moves the cursor by exactly one and returns the token at the new position with that position, or leaves an outside cursor alone; it needs `i + 1 != len` |
| Parser.Literal | src/parser.rs:64-71 | exactly the Integer, Float and String tokens have a value to push |
| Parser.IdentifierResult | src/parser.rs:56-90 | `push <literal>` yields a Push of one parameter mirroring the literal at index `i + 1`; `push` before another token, another identifier, and a non-identifier each give their own error |
| Parser.ParseIdentifier | src/parser.rs:56-90 | the imperative `parse_identifier` returns what `IdentifierResult` says and leaves the cursor on the operand after `push` |
| Parser.Parse | src/parser.rs:92-118 | `parse` finishes exactly on the empty token vector, then with no nodes, and every node it emits is a Push of one value |
| Parser.ParseSpinsOnNonIdentifier | src/parser.rs:104-112 | on a token whose kind is not "identifier", the loop neither moves nor emits, whatever the budget |
| Parser.ParseNeverFinishes | src/parser.rs:96-115 | from any cursor inside the vector the loop never returns |
| Parser.ParseEmitsSinglePushes | src/parser.rs:106-107 | every node the loop emits is an instruction of kind Push with one parameter |
| Parser.ParseStopsAtFirstOperand | src/parser.rs:96-115 | on non-empty input `parse` panics or stalls at cursor 0 with no node, or at cursor 1 with the Push node; which case happens is decided by the first two tokens, their kinds and values: a non-identifier first token stalls at 0, `push` before a literal stalls at 1 or panics, and every other first identifier panics |
| Evaluator.Arith | src/evaluator.rs:15-64 | an i32 operation gives `second OP top` exactly when Rust computes it. Add, Sub and Mul panic exactly when the value leaves i32; Div and Mod panic exactly on a zero divisor or `i32::MIN` by -1 |
| Evaluator.Operate | src/evaluator.rs:15-64 | popping the top, then the next, and pushing the result or reporting the type error does what `Apply` specifies |
| Evaluator.Perform | src/evaluator.rs:7-73 | one pass of the loop of `evaluate` does what `Run` specifies for that node, including the recursive run of a Block and its error |
| Evaluator.Evaluate | src/evaluator.rs:3-77 | `evaluate` returns the final stack or the first type error, as `Exec` gives them; an empty node list gives `Ok` of an empty stack |
| Evaluator.ExecConcat | src/evaluator.rs:6-74 | running two node lists one after the other is running their concatenation; an error or panic stops the run |
| Evaluator.ExecSnoc | src/evaluator.rs:6-74 | one node appended to a finishing program runs on the stack the program leaves |
| Evaluator.PushAppendsInOrder | src/evaluator.rs:10-14 | Push puts its parameters on top in order and leaves the entries below unchanged |
| Evaluator.ArithmeticReplacesTopTwo | src/evaluator.rs:15-64 | on two integers an arithmetic instruction replaces the top two entries by `second OP top`: the length drops by one and the rest is unchanged; it panics where `Arith` has no value |
| Evaluator.DivModTruncate | src/evaluator.rs:45-64 | Div and Mod on the same operands push a quotient and remainder with `b == q*a + r`, `abs(r) < abs(a)`, the remainder having the dividend's sign, and the quotient truncated toward zero |
| Evaluator.ArithmeticTypeError | src/evaluator.rs:18-23 | a non-integer among the top two entries fails with "Invalid types for <op>", e.g. "Invalid types for add" |
| Evaluator.ArithmeticUnderflowPanics | src/evaluator.rs:16-17 | an arithmetic instruction on fewer than two entries panics |
| Evaluator.PopDropsTop | src/evaluator.rs:65-67 | Pop removes the top entry, and on an empty stack does nothing and reports nothing |
| Evaluator.BlockIsIsolated | src/evaluator.rs:70-72 | a Block runs on a fresh stack; when it finishes the enclosing stack is unchanged, and when it fails its error ends the run |
| Evaluator.OperandOrder | src/evaluator.rs:25-34 | pushing `b`, then `a`, then an operation leaves `b OP a` on the stack the pushes started from, or panics |
| Evaluator.SubtractionExample | src/evaluator.rs:25-34 | 5, then 3, then Sub leaves 2 |
| Evaluator.TruncationExamples | src/evaluator.rs:45-64 | -7 by 2 gives -3 and remainder -1, rounded toward zero; `i32::MIN` by -1 panics |

## Left out

- Lexer.Lex: requires ASCII input. Rust's `is_alphabetic`, `is_alphanumeric` and `is_whitespace` are Unicode predicates; they are modelled as their ASCII cases, on which they agree. The lexer's byte-length offset misbehaves only beyond ASCII; see Findings.
- Lexer.LexStep: requires ASCII input for the same reason.
- Lexer.Scan: a float token keeps its lexeme instead of an `f32`. Floating point is not modelled. Which digit-and-dot runs `str::parse::<f32>` accepts is stated as "exactly one dot and at least one digit". Overflow to infinity is not an error in Rust and is not visible here.
- Parser.IdentifierResult: errors are typed values. The texts "Unexpected value type: …" and "Expected identifier: …" use Rust's `Debug` formatting of tokens, which is not modelled.
- Parser.Next: requires `i + 1 != len`, because the source indexes past the end and panics there.
- Parser.ParseIdentifier: requires a token at the cursor, and after `push` one more, because the source unwraps `current` and `next`.
- Parser.Parse: runs for a budget of loop passes. Running out of budget stands for the loop not terminating. The two panics are outcomes, not preconditions.
- The `println!` and `eprintln!` calls in `parse` are output only, and are left out.
- Evaluator.Evaluate: requires that the run does not panic. That rules out:
  - stack underflow in an arithmetic instruction;
  - i32 overflow in Add, Sub, Mul or Div;
  - a zero divisor;
  - `i32::MIN` by -1 in Div or Mod.

  `Exec` still describes those runs, as `Aborted`.
- Evaluator.Arith: i32 overflow is a panic, as in a debug build. The wrap-around of a release build is not modelled.
- Ownership: `evaluate` consumes its node vector and the stack is a `Vec` updated in place. The model passes both as values.
- src/main.rs is not part of this model. It is a demo driver whose calls do not match these signatures.

## Findings

| source | as written | input that shows it | evidently intended | confidence | as-written member | corrected member |
|---|---|---|---|---|---|---|
| src/lexer.rs:60 | the closing quote is looked for at `cur + value.0.len() + 1`, where `len()` counts UTF-8 bytes but `cur` indexes characters | the three characters `"é"` are reported as "Unclosed string literal", because `é` is two bytes | look for the closing quote just past the run `until` returned, at character index `value.1` | not executed | Lexer.QuoteMissingAsWrittenRejectsNonAscii | Lexer.QuoteMissingIffNoClosingQuote |
