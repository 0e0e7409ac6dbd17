# toy-compiler front end, modelled in Dafny

This models the only logic in the toy compiler's source, the draft front end
in `src/main.rs`. It has two parts.

- **Scanner** (`tokenize`). It turns the file contents into a vector of
  `Token`s and always ends the vector with `Eof`.
  - Each of `( ) + - * / =` is a token of its own.
  - A space is skipped.
  - A digit starts a greedy run that becomes a `Number`.
  - A lower-case letter starts a greedy run of letters and digits that
    becomes an `Identifier`.
  - Every other character becomes `InvalidToken`.
  - Both runs are read with `take_while`, which also consumes the first
    character that ends the run, and no token is ever made for that
    character. So `12+3` scans to `Number(12) Number(3) Eof`.
  - A digit run beyond `i32::MAX` panics at `unwrap`.
- **Recogniser** (`parse_stmt`, `parse_expr`, `parse_term`, `parse_factor`).
  These four recursive-descent functions share one token vector and consume it
  from its *end* with `pop()`. So they read the text right to left, and
  `1 = x` is the statement they accept, not `x = 1`.
  - They build no tree. The only values returned are the placeholders
    `Term([])`, `Factor(123)` and, for a number, `Factor(value)`.
  - `parse_term` panics (`expect`) when a factor is missing.

Files:

- `syntax.dfy`: `Token`, `Ast`, `i32` and `Outcome`. `Outcome` is a parse
  function's return value with the vector it leaves, or a panic.
- `lexer.dfy`: `Lex` is the scan's specification, recursive over the unread
  suffix. `Tokenize` is the scan loop over a cursor. `TakeWhile` is the
  iterator's `take_while`, which drops the rejected character.
- `lexer_props.dfy`: what every scan guarantees.
- `parser.dfy`: `*Outcome` functions give each parse function's result and
  the stack it leaves. The `Parse*` methods are the source's functions,
  including their loops, and are proved equal to those functions.
- `grammar.dfy`: derivation trees for the accepted language and their
  token text. Soundness and completeness lemmas show each parse function
  accepts exactly those texts.
- `examples.dfy`: worked inputs.

## Where the code differs from the compiler's intended design

The design this draft was written towards is a full compiler: a
forward-reading parser building a real syntax tree, then code generation. The
code does much less, and differently. This model follows the code:

- The parser reads tokens from the end of the vector. It does not use a forward
  cursor.
- There is no `Semicolon` token: `;` is `InvalidToken`.
- Only a space is skipped. A newline or tab becomes `InvalidToken`.
- An unknown character is not fatal. It becomes `InvalidToken`, and scanning
  goes on.
- Identifiers start with `a`-`z` only. `_` is neither a start nor a
  continuation, and it ends a run.
- The character ending a number or identifier is swallowed. So `ab12_c`
  scans to `Identifier("ab12") Identifier("c") Eof`, not one identifier.
- `Eof` is always appended; `main` pops it before parsing.
- `parse_expr` continues on `Sub` as well as `Add`.
- `parse_term` continues only on `Mul`. `Div` ends a term and is left on the
  stack.
- `parse_factor` does not accept an identifier.
- No syntax tree, symbol table, register allocator, code generator or
  assembly emitter exists in the source, so none is modelled.

## Model

| member | source | states |
|---|---|---|
| `Lexer.Tokenize` | src/main.rs:140-201 | the scan loop returns exactly `Lex(contents)`: the token vector, or the overflow panic |
| `Lexer.TakeWhile` | src/main.rs:157-160 | returns the maximal run of matching characters after the cursor; the cursor ends past the first non-matching character, or at the end of the input |
| `Lexer.RunLength` | src/main.rs:157-178 | the run length is maximal: every character in it matches, and the one after it (if any) does not |
| `Lexer.CharToken` | src/main.rs:148-155 | a character becomes `InvalidToken` exactly when it is not one of `( ) + - * / =`; never `Eof`, a number or an identifier |
| `LexerProperties.LexEofTerminated` | src/main.rs:191-195 | every scan that does not panic ends with `Eof`, and `Eof` occurs nowhere else |
| `LexerProperties.LexLength` | src/main.rs:143-199 | a scan yields between 1 and one-more-than-the-input-length tokens |
| `LexerProperties.LexOverflowWitness` | src/main.rs:166-168 | the scan fails only if the input holds a digit run whose value exceeds `i32::MAX` |
| `LexerProperties.LexWithoutDigits` | src/main.rs:143-199 | input without digits never makes the scan fail |
| `LexerProperties.LexOperatorsOnly` | src/main.rs:147-189 | on input with no digit and no lower-case letter, the result is the per-character token map with spaces dropped, then `Eof` |
| `LexerProperties.LexSingle` | src/main.rs:154 | a space adds no token; any other non-digit, non-lower-case character adds its own token and scanning continues |
| `LexerProperties.CharTokenInjective` | src/main.rs:148-155 | the seven operator characters map to seven different tokens |
| `LexerProperties.LexNumber` | src/main.rs:156-170 | a maximal digit run followed by any non-digit gives one `Number` of the run's decimal value, or the panic; the non-digit is dropped |
| `LexerProperties.LexNumberAtEnd` | src/main.rs:156-170 | a digit run at the end of the input gives `Number(value) Eof`, or the panic |
| `LexerProperties.LexIdentifier` | src/main.rs:173-184 | a lower-case letter, then letters and digits, gives one `Identifier` of those characters; the character ending it is dropped |
| `LexerProperties.LexIdentifierAtEnd` | src/main.rs:173-184 | an identifier at the end of the input gives `Identifier(name) Eof` |
| `LexerProperties.ExampleSwallowedOperator` | src/main.rs:156-170 | `12+3` scans to `Number(12) Number(3) Eof` |
| `LexerProperties.ExampleUnderscore` | src/main.rs:173-184 | `ab12_c` scans to `Identifier("ab12") Identifier("c") Eof` |
| `LexerProperties.ExampleLargestNumber` | src/main.rs:166-168 | `2147483647` scans to a number |
| `LexerProperties.ExampleOverflow` | src/main.rs:166-168 | `2147483648` panics |
| `Parser.FactorOutcome` | src/main.rs:109-129 | `parse_factor` leaves a prefix of its stack, and a factor it returns removed at least one token |
| `Parser.MulLoopOutcome` | src/main.rs:92-103 | the term loop leaves a prefix of its stack |
| `Parser.TermOutcome` | src/main.rs:87-106 | `parse_term`, when it returns, has removed at least one token and left a prefix |
| `Parser.AddLoopOutcome` | src/main.rs:60-82 | the expression loop leaves a prefix of its stack |
| `Parser.ExprOutcome` | src/main.rs:54-85 | `parse_expr`, when it returns, has removed at least one token and left a prefix |
| `Parser.StmtOutcome` | src/main.rs:23-52 | `parse_stmt` leaves a prefix of its stack, and on a non-empty stack always removes at least one token |
| `Parser.ParseFactor` | src/main.rs:109-129 | the method's result and remaining stack are those of `FactorOutcome` |
| `Parser.ParseTerm` | src/main.rs:87-106 | the method, with its loop, gives exactly `TermOutcome` |
| `Parser.ParseExpr` | src/main.rs:54-85 | the method, with its loop, gives exactly `ExprOutcome` |
| `Parser.ParseStmt` | src/main.rs:23-52 | the method gives exactly `StmtOutcome` |
| `Grammar.FactorComplete` | src/main.rs:109-129 | a factor's text on any stack is accepted: a number gives `Factor(value)`, a parenthesised expression `Factor(123)`, and exactly the text is removed |
| `Grammar.MulChainComplete` | src/main.rs:92-103 | the term loop consumes the text of any chain of `Mul factor` and stops on anything but a `Mul` top |
| `Grammar.TermComplete` | src/main.rs:87-106 | a term's text over a stack whose top is not `Mul` is accepted as `Term([])`, removing exactly that text |
| `Grammar.AddChainComplete` | src/main.rs:60-82 | the expression loop consumes any chain of `Add`/`Sub term` and stops on any other top |
| `Grammar.ExprComplete` | src/main.rs:54-85 | an expression's text over a stack whose top is not `Mul`, `Add` or `Sub` is accepted as `Factor(123)`, removing exactly that text |
| `Grammar.FactorSound` | src/main.rs:109-129 | whenever `parse_factor` returns `Some`, it removed exactly a factor's text and returned that factor's value |
| `Grammar.MulChainSound` | src/main.rs:92-103 | whenever the term loop ends without panicking, it removed a `Mul` chain's text and the new top is not `Mul` |
| `Grammar.TermSound` | src/main.rs:87-106 | whenever `parse_term` returns, it removed a term's text and the new top is not `Mul` |
| `Grammar.AddChainSound` | src/main.rs:60-82 | whenever the expression loop ends without panicking, it removed an `Add`/`Sub` chain's text and the new top is none of `Mul`, `Add`, `Sub` |
| `Grammar.ExprSound` | src/main.rs:54-85 | whenever `parse_expr` returns, it removed an expression's text and the new top stops both loops |
| `Grammar.ExprAccepts` | src/main.rs:54-106 | `parse_expr` returns instead of panicking if and only if the stack is an expression's text above a stack that stops both loops |
| `Grammar.FactorAccepts` | src/main.rs:109-129 | `parse_factor` returns `Some` if and only if the stack ends with a factor's text |
| `Grammar.StmtComplete` | src/main.rs:23-52 | `expr = name` in vector order is accepted as `Some(Term([]))` and leaves what lay below the expression |
| `Grammar.StmtSound` | src/main.rs:23-52 | whenever `parse_stmt` returns `Some`, the stack was an expression's text followed by `Assignment` and an identifier |
| `Grammar.StmtRejects` | src/main.rs:26-48 | `parse_stmt` returns `None` exactly when the top is not an identifier or the token under it is not `Assignment`; it then removed just the top |
| `Examples.DivisionStopsTerm` | src/main.rs:92-103 | `Div` ends a term and stays on the stack |
| `Examples.SubtractionAccepted` | src/main.rs:72-75 | `Sub` continues an expression just like `Add` |
| `Examples.MissingFactorPanics` | src/main.rs:97 | a `Mul` with no factor below it panics |
| `Examples.UnclosedParenthesis` | src/main.rs:115-123 | a parenthesis closed by another token gives `None`, and that token is consumed too |
| `Examples.ScanMirroredAssignment` | src/main.rs:140-201 | `1 = x` scans to `Number(1) Assignment Identifier("x") Eof` |
| `Examples.MirroredAssignmentAccepted` | src/main.rs:23-52 | those tokens without `Eof` are accepted by `parse_stmt` |
| `Examples.ScanForwardAssignment` | src/main.rs:140-201 | `x = 1` scans to `Identifier("x") Assignment Number(1) Eof` |
| `Examples.ForwardAssignmentRejected` | src/main.rs:23-52 | those tokens without `Eof` are rejected after one pop |

## Left out

- File reading in `tokenize` (src/main.rs:131-138) is I/O. The model takes the
  contents as a `seq<char>`, so the `std::io::Error` result is not modelled.
- `main` (src/main.rs:204-219) is argument handling, debug printing and the
  `pop()` of the trailing `Eof`. The examples apply that pop by hand.
- The `println!` traces at the start of each parse function are output only.
- The commented-out test vector in `main` is dead code.
- Lexer.IsAlphabetic: Rust's `char::is_alphabetic` accepts all Unicode
  letters. The model accepts only ASCII `A`-`Z` and `a`-`z`.
- The token vector is shared through `&mut Vec<Token>`. The model passes it
  by value and returns the remaining stack in `Outcome`. It does not model
  aliasing.
- A panic (`expect`, `unwrap`) prints a message and ends the process. Here it
  is the `Panicked` or `NumberOverflow` outcome, which carries no state.
