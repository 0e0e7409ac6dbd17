/** What the scanner promises about the tokens it produces. */
module LexerProperties {
  import opened Syntax
  import opened Lexer

  /** `Eof` closes the vector and occurs nowhere else in it. */
  predicate EofTerminated(ts: seq<Token>)
  {
    ts != [] && ts[|ts| - 1] == Eof && forall k :: 0 <= k < |ts| - 1 ==> ts[k] != Eof
  }

  predicate AllDigits(s: seq<char>)
  {
    forall k :: 0 <= k < |s| ==> IsDigit(s[k])
  }

  /** `s[i..j]` is a digit string whose value does not fit in an `i32`. */
  predicate OverflowingRun(s: seq<char>, i: int, j: int)
  {
    0 <= i < j <= |s| && AllDigits(s[i..j]) && DecimalValue(s[i..j]) > I32Max
  }

  /** A reference scanner for text without digits or lower-case letters:
      one token per character, spaces dropped. */
  function CharTokens(s: seq<char>): seq<Token>
  {
    if s == [] then []
    else (if s[0] == ' ' then [] else [CharToken(s[0])]) + CharTokens(s[1..])
  }

  lemma PrependEofTerminated(t: Token, r: LexResult)
    requires t != Eof && r.Lexed? && EofTerminated(r.tokens)
    ensures Prepend([t], r).Lexed? && EofTerminated(Prepend([t], r).tokens)
  {
    var ts := [t] + r.tokens;
    forall k | 0 <= k < |ts| - 1 ensures ts[k] != Eof {
      if k > 0 {
        assert ts[k] == r.tokens[k - 1];
      }
    }
  }

  /** The scan always ends with exactly one `Eof`: it is pushed only when
      the characters run out, and the loop stops right after. */
  lemma {:induction false} LexEofTerminated(s: seq<char>)
    ensures Lex(s).Lexed? ==> EofTerminated(Lex(s).tokens)
    decreases |s|
  {
    if s != [] {
      var c, t := s[0], s[1..];
      if c == ' ' {
        LexEofTerminated(t);
      } else if IsDigit(c) {
        LexEofTerminated(AfterRun(t, Digits));
        var v := DecimalValue([c] + t[..RunLength(t, Digits)]);
        if v <= I32Max && Lex(AfterRun(t, Digits)).Lexed? {
          PrependEofTerminated(Number(v as i32), Lex(AfterRun(t, Digits)));
        }
      } else if IsLower(c) {
        LexEofTerminated(AfterRun(t, Alphanumerics));
        var w := [c] + t[..RunLength(t, Alphanumerics)];
        if Lex(AfterRun(t, Alphanumerics)).Lexed? {
          PrependEofTerminated(Identifier(w), Lex(AfterRun(t, Alphanumerics)));
        }
      } else {
        LexEofTerminated(t);
        if Lex(t).Lexed? {
          PrependEofTerminated(CharToken(c), Lex(t));
        }
      }
    }
  }

  /** Every token but `Eof` uses up at least one character. */
  lemma {:induction false} LexLength(s: seq<char>)
    ensures Lex(s).Lexed? ==> 1 <= |Lex(s).tokens| <= |s| + 1
    decreases |s|
  {
    if s != [] {
      var t := s[1..];
      if s[0] == ' ' {
        LexLength(t);
      } else if IsDigit(s[0]) {
        LexLength(AfterRun(t, Digits));
      } else if IsLower(s[0]) {
        LexLength(AfterRun(t, Alphanumerics));
      } else {
        LexLength(t);
      }
    }
  }

  lemma AfterRunSuffix(t: seq<char>, cls: CharClass) returns (m: nat)
    ensures m <= |t| && AfterRun(t, cls) == t[m..]
  {
    var n := RunLength(t, cls);
    m := if n < |t| then n + 1 else |t|;
  }

  /** The scan never fails, except by the panic of `unwrap` on a digit run
      of the input whose value is beyond `i32::MAX`. */
  lemma {:induction false} LexOverflowWitness(s: seq<char>)
    requires Lex(s).NumberOverflow?
    ensures exists i, j :: OverflowingRun(s, i, j)
    decreases |s|
  {
    assert s != [];
    var c, t := s[0], s[1..];
    if c == ' ' {
      LexOverflowWitness(t);
      ShiftWitness(s, 1);
    } else if IsDigit(c) {
      var n := RunLength(t, Digits);
      var v := DecimalValue([c] + t[..n]);
      if v > I32Max {
        assert s[0..n + 1] == [c] + t[..n];
        assert OverflowingRun(s, 0, n + 1);
      } else {
        var rest := AfterRun(t, Digits);
        LexOverflowWitness(rest);
        var m := AfterRunSuffix(t, Digits);
        assert rest == s[m + 1..];
        ShiftWitness(s, m + 1);
      }
    } else if IsLower(c) {
      var rest := AfterRun(t, Alphanumerics);
      LexOverflowWitness(rest);
      var m := AfterRunSuffix(t, Alphanumerics);
      assert rest == s[m + 1..];
      ShiftWitness(s, m + 1);
    } else {
      LexOverflowWitness(t);
      ShiftWitness(s, 1);
    }
  }

  /** An overflowing run of a suffix is one of the whole input. */
  lemma ShiftWitness(s: seq<char>, m: nat)
    requires m <= |s|
    requires exists i, j :: OverflowingRun(s[m..], i, j)
    ensures exists i, j :: OverflowingRun(s, i, j)
  {
    var i, j :| OverflowingRun(s[m..], i, j);
    assert s[m..][i..j] == s[m + i..m + j];
    assert OverflowingRun(s, m + i, m + j);
  }

  /** Text without digits never makes the scan fail. */
  lemma {:induction false} LexWithoutDigits(s: seq<char>)
    requires forall k :: 0 <= k < |s| ==> !IsDigit(s[k])
    ensures Lex(s).Lexed?
  {
    if Lex(s).NumberOverflow? {
      LexOverflowWitness(s);
      assert false;
    }
  }

  /** On text with neither digits nor lower-case letters, the scan maps each
      character to its own token (`InvalidToken` for everything that is not
      an operator, newline and upper case included) and drops spaces. */
  lemma {:induction false} LexOperatorsOnly(s: seq<char>)
    requires forall k :: 0 <= k < |s| ==> !IsDigit(s[k]) && !IsLower(s[k])
    ensures Lex(s) == Lexed(CharTokens(s) + [Eof])
    decreases |s|
  {
    if s != [] {
      var t := s[1..];
      LexOperatorsOnly(t);
      if s[0] != ' ' {
        assert [CharToken(s[0])] + (CharTokens(t) + [Eof]) == [CharToken(s[0])] + CharTokens(t) + [Eof];
      }
    }
  }

  /** A single character that is neither a digit nor a lower-case letter:
      a space adds nothing, anything else adds its own token. */
  lemma LexSingle(c: char, t: seq<char>)
    requires !IsDigit(c) && !IsLower(c)
    ensures Lex([c] + t) == if c == ' ' then Lex(t) else Prepend([CharToken(c)], Lex(t))
  {
    assert ([c] + t)[1..] == t;
  }

  /** The seven operator characters name seven different tokens. */
  lemma CharTokenInjective(c: char, d: char)
    requires IsOperatorChar(c) && IsOperatorChar(d)
    requires CharToken(c) == CharToken(d)
    ensures c == d
  {
  }

  lemma RunOver(d: seq<char>, rest: seq<char>, cls: CharClass)
    requires forall k :: 0 <= k < |d| ==> Matches(cls, d[k])
    requires rest != [] ==> !Matches(cls, rest[0])
    ensures RunLength(d + rest, cls) == |d|
    ensures AfterRun(d + rest, cls) == if rest == [] then [] else rest[1..]
  {
    var s := d + rest;
    assert forall k :: 0 <= k < |d| ==> s[k] == d[k];
    Run(s, cls, |d|);
    if rest != [] {
      assert s[|d| + 1..] == rest[1..];
    }
  }

  /** A number followed by a non-digit: the whole digit run is one `Number`
      (or the `unwrap` panic), and the non-digit after it is swallowed
      without a token, whatever it is. */
  lemma LexNumber(d: seq<char>, x: char, t: seq<char>)
    requires |d| > 0 && AllDigits(d) && !IsDigit(x)
    ensures Lex(d + [x] + t) ==
      if DecimalValue(d) > I32Max then NumberOverflow
      else Prepend([Number(DecimalValue(d) as i32)], Lex(t))
  {
    var s := d + [x] + t;
    assert s[1..] == d[1..] + ([x] + t);
    RunOver(d[1..], [x] + t, Digits);
    assert ([x] + t)[1..] == t;
    assert [s[0]] + s[1..][..|d| - 1] == d;
  }

  /** A number that ends the input is followed only by `Eof`. */
  lemma LexNumberAtEnd(d: seq<char>)
    requires |d| > 0 && AllDigits(d)
    ensures Lex(d) ==
      if DecimalValue(d) > I32Max then NumberOverflow
      else Lexed([Number(DecimalValue(d) as i32), Eof])
  {
    assert d == d[..1] + d[1..];
    RunOver(d[1..], [], Digits);
    assert d[1..] + [] == d[1..];
    assert [d[0]] + d[1..][..|d| - 1] == d;
  }

  /** An identifier: a lower-case letter, then letters and digits; the
      character that ends it is swallowed without a token. */
  lemma LexIdentifier(w: seq<char>, x: char, t: seq<char>)
    requires |w| > 0 && IsLower(w[0])
    requires forall k :: 1 <= k < |w| ==> Matches(Alphanumerics, w[k])
    requires !Matches(Alphanumerics, x)
    ensures Lex(w + [x] + t) == Prepend([Identifier(w)], Lex(t))
  {
    var s := w + [x] + t;
    assert s[1..] == w[1..] + ([x] + t);
    RunOver(w[1..], [x] + t, Alphanumerics);
    assert ([x] + t)[1..] == t;
    assert [s[0]] + s[1..][..|w| - 1] == w;
  }

  lemma LexIdentifierAtEnd(w: seq<char>)
    requires |w| > 0 && IsLower(w[0])
    requires forall k :: 1 <= k < |w| ==> Matches(Alphanumerics, w[k])
    ensures Lex(w) == Lexed([Identifier(w), Eof])
  {
    RunOver(w[1..], [], Alphanumerics);
    assert w[1..] + [] == w[1..];
    assert [w[0]] + w[1..][..|w| - 1] == w;
  }

  lemma DecimalSnoc(s: seq<char>, c: char)
    requires AllDigits(s) && IsDigit(c)
    ensures DecimalValue(s + [c]) == 10 * DecimalValue(s) + DigitValue(c)
  {
    assert (s + [c])[..|s|] == s;
  }

  /** `12+3`: the `+` ends the first number and is lost with it. */
  lemma ExampleSwallowedOperator()
    ensures Lex("12+3") == Lexed([Number(12), Number(3), Eof])
  {
    assert Lex("3") == Lexed([Number(3), Eof]) by {
      LexNumberAtEnd("3");
    }
    assert Lex("12+3") == Prepend([Number(12)], Lex("3")) by {
      assert "12+3" == "12" + ['+'] + "3";
      assert DecimalValue("12") == 12 by {
        assert "12"[..1] == "1";
      }
      LexNumber("12", '+', "3");
    }
  }

  /** `ab12_c`: `_` ends the identifier and is lost, `c` starts another. */
  lemma ExampleUnderscore()
    ensures Lex("ab12_c") == Lexed([Identifier("ab12"), Identifier("c"), Eof])
  {
    assert Lex("c") == Lexed([Identifier("c"), Eof]) by {
      LexIdentifierAtEnd("c");
    }
    assert Lex("ab12_c") == Prepend([Identifier("ab12")], Lex("c")) by {
      assert "ab12_c" == "ab12" + ['_'] + "c";
      LexIdentifier("ab12", '_', "c");
    }
  }

  lemma DecimalOf2147()
    ensures DecimalValue("2147") == 2147
  {
    assert "21" == "2" + ['1'];
    DecimalSnoc("2", '1');
    assert "214" == "21" + ['4'];
    DecimalSnoc("21", '4');
    assert "2147" == "214" + ['7'];
    DecimalSnoc("214", '7');
  }

  lemma DecimalOf214748()
    ensures DecimalValue("214748") == 214748
  {
    DecimalOf2147();
    assert "21474" == "2147" + ['4'];
    DecimalSnoc("2147", '4');
    assert "214748" == "21474" + ['8'];
    DecimalSnoc("21474", '8');
  }

  lemma DecimalOfI32Max()
    ensures DecimalValue("214748364") == 214748364
  {
    DecimalOf214748();
    assert "2147483" == "214748" + ['3'];
    DecimalSnoc("214748", '3');
    assert "21474836" == "2147483" + ['6'];
    DecimalSnoc("2147483", '6');
    assert "214748364" == "21474836" + ['4'];
    DecimalSnoc("21474836", '4');
  }

  /** `i32::MAX` scans to a number. */
  lemma ExampleLargestNumber()
    ensures Lex("2147483647") == Lexed([Number(0x7fff_ffff), Eof])
  {
    DecimalOfI32Max();
    assert "2147483647" == "214748364" + ['7'];
    DecimalSnoc("214748364", '7');
    LexNumberAtEnd("2147483647");
  }

  /** One more than `i32::MAX` panics. */
  lemma ExampleOverflow()
    ensures Lex("2147483648") == NumberOverflow
  {
    DecimalOfI32Max();
    assert "2147483648" == "214748364" + ['8'];
    DecimalSnoc("214748364", '8');
    LexNumberAtEnd("2147483648");
  }
}
