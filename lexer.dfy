/** The character scanner `tokenize` (src/main.rs:140-201), given the file
    contents directly. `Lex` is its specification, recursive over the
    unread suffix of the input; the method `Tokenize` is the scan loop
    itself, a cursor over the characters that pushes into a growing vector. */
module Lexer {
  import opened Syntax

  /** The outcome of a scan: the token vector, or the panic of `unwrap`
      when a digit run does not fit in an `i32`. */
  datatype LexResult = Lexed(tokens: seq<Token>) | NumberOverflow

  /** The two predicates handed to `take_while`. */
  datatype CharClass = Digits | Alphanumerics

  predicate IsDigit(c: char) { '0' <= c <= '9' }

  predicate IsLower(c: char) { 'a' <= c <= 'z' }

  /** `char::is_alphabetic`, restricted to ASCII letters. */
  predicate IsAlphabetic(c: char) { 'a' <= c <= 'z' || 'A' <= c <= 'Z' }

  predicate Matches(cls: CharClass, c: char)
  {
    match cls
    case Digits => IsDigit(c)
    case Alphanumerics => IsDigit(c) || IsAlphabetic(c)
  }

  /** The characters that are a token on their own. */
  predicate IsOperatorChar(c: char)
  {
    c == '(' || c == ')' || c == '+' || c == '-' || c == '*' || c == '/' || c == '='
  }

  /** The token of a character that is neither a space, a digit nor a
      lower-case letter. */
  function CharToken(c: char): (t: Token)
    ensures t == InvalidToken <==> !IsOperatorChar(c)
    ensures t != Eof && !t.Number? && !t.Identifier?
  {
    match c
    case '(' => LeftParenthesis
    case ')' => RightParenthesis
    case '+' => Add
    case '-' => Sub
    case '*' => Mul
    case '/' => Div
    case '=' => Assignment
    case _ => InvalidToken
  }

  /** Length of the longest prefix of `s` whose characters all match `cls`. */
  function RunLength(s: seq<char>, cls: CharClass): (n: nat)
    ensures n <= |s|
    ensures forall k :: 0 <= k < n ==> Matches(cls, s[k])
    ensures n < |s| ==> !Matches(cls, s[n])
  {
    if s == [] || !Matches(cls, s[0]) then 0 else 1 + RunLength(s[1..], cls)
  }

  /** The input left after `take_while` has read the run of `cls` at the
      front of `s`: the run and also the first character that failed the
      predicate are gone. */
  function AfterRun(s: seq<char>, cls: CharClass): (t: seq<char>)
  {
    var n := RunLength(s, cls);
    if n < |s| then s[n + 1..] else []
  }

  function DigitValue(c: char): nat
    requires IsDigit(c)
  {
    c as nat - '0' as nat
  }

  /** The value `str::parse` gives a string of decimal digits. */
  function DecimalValue(s: seq<char>): nat
    requires forall k :: 0 <= k < |s| ==> IsDigit(s[k])
  {
    if s == [] then 0 else 10 * DecimalValue(s[..|s| - 1]) + DigitValue(s[|s| - 1])
  }

  /** `tokens` pushed in front of what the rest of the scan produces. */
  function Prepend(tokens: seq<Token>, r: LexResult): LexResult
  {
    match r
    case NumberOverflow => NumberOverflow
    case Lexed(more) => Lexed(tokens + more)
  }

  /** What `tokenize` produces for the characters `s`. */
  function Lex(s: seq<char>): LexResult
    decreases |s|
  {
    if s == [] then Lexed([Eof])
    else
      var c, t := s[0], s[1..];
      if c == ' ' then Lex(t)
      else if IsDigit(c) then
        var n := RunLength(t, Digits);
        var v := DecimalValue([c] + t[..n]);
        if v > I32Max then NumberOverflow
        else Prepend([Number(v as i32)], Lex(AfterRun(t, Digits)))
      else if IsLower(c) then
        var n := RunLength(t, Alphanumerics);
        Prepend([Identifier([c] + t[..n])], Lex(AfterRun(t, Alphanumerics)))
      else Prepend([CharToken(c)], Lex(t))
  }

  /** `iter.by_ref().take_while(p).collect()` from position `start`:
      returns the collected run and the position after it. Like the
      iterator, it also consumes the first character that fails `p`. */
  method TakeWhile(s: seq<char>, start: nat, cls: CharClass) returns (run: seq<char>, next: nat)
    requires start <= |s|
    ensures run == s[start..][..RunLength(s[start..], cls)]
    ensures start <= next <= |s| && s[next..] == AfterRun(s[start..], cls)
  {
    run, next := [], start;
    while next < |s|
      invariant start <= next <= |s|
      invariant run == s[start..next]
      invariant forall k :: start <= k < next ==> Matches(cls, s[k])
    {
      var d := s[next];
      next := next + 1;
      if !Matches(cls, d) {
        Run(s[start..], cls, next - 1 - start);
        return;
      }
      run := run + [d];
    }
    Run(s[start..], cls, next - start);
  }

  /** The run length is fixed by where the first non-matching character is. */
  lemma Run(s: seq<char>, cls: CharClass, n: nat)
    requires n <= |s|
    requires forall k :: 0 <= k < n ==> Matches(cls, s[k])
    requires n < |s| ==> !Matches(cls, s[n])
    ensures RunLength(s, cls) == n
  {
  }

  /** The scan loop of `tokenize`. */
  method Tokenize(contents: seq<char>) returns (r: LexResult)
    ensures r == Lex(contents)
  {
    var i := 0;
    var tokens: seq<Token> := [];
    while i < |contents|
      invariant i <= |contents|
      invariant Lex(contents) == Prepend(tokens, Lex(contents[i..]))
    {
      var c := contents[i];
      ghost var t := contents[i + 1..];
      assert contents[i..] == [c] + t;
      i := i + 1;
      var token: Option<Token>;
      if c == ' ' {
        token := None;
      } else if IsDigit(c) {
        var run, next := TakeWhile(contents, i, Digits);
        assert [c] + run == [c] + t[..RunLength(t, Digits)];
        var number := DecimalValue([c] + run);
        if number > I32Max {
          return NumberOverflow;
        }
        i := next;
        token := Some(Number(number as i32));
      } else if IsLower(c) {
        var run, next := TakeWhile(contents, i, Alphanumerics);
        i := next;
        token := Some(Identifier([c] + run));
      } else {
        token := Some(CharToken(c));
      }
      if token.Some? {
        PrependTwice(tokens, token.value, Lex(contents[i..]));
        tokens := tokens + [token.value];
      }
    }
    // the iterator is exhausted: push `Eof` and stop
    tokens := tokens + [Eof];
    r := Lexed(tokens);
  }

  lemma PrependTwice(tokens: seq<Token>, t: Token, r: LexResult)
    ensures Prepend(tokens, Prepend([t], r)) == Prepend(tokens + [t], r)
  {
    if r.Lexed? {
      assert tokens + ([t] + r.tokens) == tokens + [t] + r.tokens;
    }
  }
}
