/** Worked inputs for the recogniser, and for the recogniser run on the
    scanner's output the way `main` does it: the vector `tokenize` returns,
    with its last element (`Eof`) popped, is what `parse_stmt` gets. */
module Examples {
  import opened Syntax
  import opened Lexer
  import opened LexerProperties
  import opened Parser
  import opened Grammar

  /** `Div` is only a token: it ends a term, and is left on the stack. */
  lemma DivisionStopsTerm()
    ensures ExprOutcome([Number(1), Div, Number(2)]) == Done(Factor(123), [Number(1), Div])
  {
    var t := TermTree(NumberLeaf(2), NoMul);
    var e := ExprTree(t, NoAdd);
    assert [Number(1), Div] + ExprText(e) == [Number(1), Div, Number(2)];
    ExprComplete([Number(1), Div], e);
  }

  /** `Sub` is read by the expression loop just like `Add`. */
  lemma SubtractionAccepted()
    ensures ExprOutcome([Number(1), Sub, Number(2)]) == Done(Factor(123), [])
  {
    var e := ExprTree(TermTree(NumberLeaf(2), NoMul), AddTo(Minus, TermTree(NumberLeaf(1), NoMul), NoAdd));
    assert [] + ExprText(e) == [Number(1), Sub, Number(2)];
    ExprComplete([], e);
  }

  /** A `Mul` with no factor under it makes `expect` panic. */
  lemma MissingFactorPanics()
    ensures ExprOutcome([Mul, Number(2)]) == Panicked
  {
    assert Init([Mul, Number(2)]) == [Mul];
    assert Init([Mul]) == [];
  }

  /** A parenthesis closed by something else is consumed with it, and the
      factor is `None`. */
  lemma UnclosedParenthesis()
    ensures FactorOutcome([Number(5), Number(1), LeftParenthesis]) == Done(None, [])
  {
    var e := ExprTree(TermTree(NumberLeaf(1), NoMul), NoAdd);
    assert [Number(5)] + ExprText(e) == [Number(5), Number(1)];
    ExprComplete([Number(5)], e);
    assert Init([Number(5), Number(1), LeftParenthesis]) == [Number(5), Number(1)];
    assert Init([Number(5)]) == [];
  }

  lemma DecimalOne()
    ensures DecimalValue("1") == 1
  {
    assert "1"[..0] == [];
  }

  /** `1 = x` scans to `Number(1) Assignment Identifier("x") Eof`. */
  lemma ScanMirroredAssignment()
    ensures Lex("1 = x") == Lexed([Number(1), Assignment, Identifier("x"), Eof])
  {
    assert Lex("x") == Lexed([Identifier("x"), Eof]) by {
      LexIdentifierAtEnd("x");
    }
    assert Lex(" x") == Lex("x") by {
      assert " x" == [' '] + "x";
      LexSingle(' ', "x");
    }
    assert Lex("= x") == Prepend([Assignment], Lex(" x")) by {
      assert "= x" == ['='] + " x";
      LexSingle('=', " x");
    }
    assert Lex("1 = x") == Prepend([Number(1)], Lex("= x")) by {
      assert "1 = x" == "1" + [' '] + "= x";
      DecimalOne();
      LexNumber("1", ' ', "= x");
    }
  }

  /** Without its `Eof`, `parse_stmt` accepts `1 = x`: it reads from the end. */
  lemma MirroredAssignmentAccepted()
    ensures StmtOutcome([Number(1), Assignment, Identifier("x")]) == Done(Some(Term([])), [])
  {
    var e := ExprTree(TermTree(NumberLeaf(1), NoMul), NoAdd);
    assert [] + ExprText(e) + [Assignment, Identifier("x")] == [Number(1), Assignment, Identifier("x")];
    StmtComplete([], e, "x");
  }

  /** `x = 1`, written the usual way round, scans in source order... */
  lemma ScanForwardAssignment()
    ensures Lex("x = 1") == Lexed([Identifier("x"), Assignment, Number(1), Eof])
  {
    assert Lex("1") == Lexed([Number(1), Eof]) by {
      DecimalOne();
      LexNumberAtEnd("1");
    }
    assert Lex(" 1") == Lex("1") by {
      assert " 1" == [' '] + "1";
      LexSingle(' ', "1");
    }
    assert Lex("= 1") == Prepend([Assignment], Lex(" 1")) by {
      assert "= 1" == ['='] + " 1";
      LexSingle('=', " 1");
    }
    assert Lex("x = 1") == Prepend([Identifier("x")], Lex("= 1")) by {
      assert "x = 1" == "x" + [' '] + "= 1";
      LexIdentifier("x", ' ', "= 1");
    }
  }

  /** ...and is rejected by `parse_stmt` after one pop. */
  lemma ForwardAssignmentRejected()
    ensures StmtOutcome([Identifier("x"), Assignment, Number(1)]) == Done(None, [Identifier("x"), Assignment])
  {
    assert Init([Identifier("x"), Assignment, Number(1)]) == [Identifier("x"), Assignment];
  }
}
