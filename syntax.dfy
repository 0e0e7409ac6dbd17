/** The values the draft front end passes around: the `Token` and `Ast`
    enums of src/main.rs, Rust's `i32`, and the outcome of a parse step. */
module Syntax {

  /** Rust's `i32`. */
  newtype i32 = x: int | -0x8000_0000 <= x < 0x8000_0000

  const I32Max: int := 0x7fff_ffff

  datatype Token =
    | Add
    | Sub
    | Mul
    | Div
    | Number(value: i32)
    | LeftParenthesis
    | RightParenthesis
    | InvalidToken
    | Identifier(name: string)
    | Eof
    | Assignment

  /** Placeholder syntax tree: the parser only ever builds `Term([])`,
      `Factor(123)` and, for a number, `Factor(value)`. */
  datatype Ast = Term(factors: seq<i32>) | Factor(value: i32)

  datatype Option<T> = None | Some(value: T)

  /** What a parse function leaves behind: its return value together with
      the token vector it was handed, as it stands afterwards; or a panic
      (`expect` on a missing factor), which ends the whole program. */
  datatype Outcome<T> = Done(value: T, rest: seq<Token>) | Panicked

  /** The top of a token stack (`tokens[tokens.len()-1]`, `last()`). */
  function Last(s: seq<Token>): Token
    requires s != []
  {
    s[|s| - 1]
  }

  /** The stack after a `pop()` of a non-empty vector. */
  function Init(s: seq<Token>): (r: seq<Token>)
    requires s != []
    ensures r <= s && |r| == |s| - 1
    ensures r + [Last(s)] == s
  {
    s[..|s| - 1]
  }
}
