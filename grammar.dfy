/** The language the recogniser accepts, as derivation trees, and the proof
    that the parse functions accept exactly the token text of those trees.

    Because the parser pops from the end of the vector, it reads the token
    text from right to left: the text of a tree below is written in vector
    order (what the parser sees last comes first). In vector order a
    parenthesised factor is `) expr (`, an expression is
    `term op ... term op term` and a term `factor * ... * factor`. */
module Grammar {
  import opened Syntax
  import opened Parser

  datatype AddOp = Plus | Minus

  datatype FactorTree = NumberLeaf(n: i32) | Parenthesised(inner: ExprTree)

  /** The factor parsed first, then the ones each `Mul` introduces. */
  datatype TermTree = TermTree(head: FactorTree, products: MulChain)

  datatype MulChain = NoMul | MulBy(factor: FactorTree, more: MulChain)

  /** The term parsed first, then the ones each `Add` or `Sub` introduces. */
  datatype ExprTree = ExprTree(head: TermTree, sums: AddChain)

  datatype AddChain = NoAdd | AddTo(op: AddOp, term: TermTree, more: AddChain)

  function OpToken(op: AddOp): Token
  {
    match op
    case Plus => Add
    case Minus => Sub
  }

  function FactorText(f: FactorTree): seq<Token>
  {
    match f
    case NumberLeaf(n) => [Number(n)]
    case Parenthesised(e) => [RightParenthesis] + ExprText(e) + [LeftParenthesis]
  }

  function MulChainText(c: MulChain): seq<Token>
  {
    match c
    case NoMul => []
    case MulBy(f, more) => MulChainText(more) + FactorText(f) + [Mul]
  }

  function TermText(t: TermTree): seq<Token>
  {
    MulChainText(t.products) + FactorText(t.head)
  }

  function AddChainText(c: AddChain): seq<Token>
  {
    match c
    case NoAdd => []
    case AddTo(op, t, more) => AddChainText(more) + TermText(t) + [OpToken(op)]
  }

  function ExprText(e: ExprTree): seq<Token>
  {
    AddChainText(e.sums) + TermText(e.head)
  }

  /** The placeholder `parse_factor` returns for a factor. */
  function FactorValue(f: FactorTree): Ast
  {
    match f
    case NumberLeaf(n) => Factor(n)
    case Parenthesised(_) => Factor(123)
  }

  /** What may stay below a term: the term loop stops unless the top is `Mul`. */
  predicate EndsTerm(r: seq<Token>)
  {
    r == [] || Last(r) != Mul
  }

  /** What may stay below an expression: neither loop goes on. */
  predicate EndsExpr(r: seq<Token>)
  {
    r == [] || !(Last(r) == Mul || Last(r) == Add || Last(r) == Sub)
  }

  /** `ts` is an expression's text with `r` left below it. */
  predicate IsExprSplit(ts: seq<Token>, r: seq<Token>, e: ExprTree)
  {
    ts == r + ExprText(e) && EndsExpr(r)
  }

  lemma EndsTermBelowSums(r: seq<Token>, c: AddChain)
    requires EndsExpr(r)
    ensures EndsTerm(r + AddChainText(c))
  {
    if c.AddTo? {
      assert Last(r + AddChainText(c)) == OpToken(c.op);
    }
  }

  /** One trip round a loop: the stack is what the rest of the loop left,
      the chain text so far, the new operand and the operator on top. */
  lemma Regroup(ts: seq<Token>, below: seq<Token>, r: seq<Token>, left: seq<Token>,
                chain: seq<Token>, operand: seq<Token>, op: Token)
    requires ts == below + [op] && below == r + operand && r == left + chain
    ensures ts == left + (chain + operand + [op])
  {
  }

  /** A stack that is `chain` then `operand` above `left`. */
  lemma Join(ts: seq<Token>, r: seq<Token>, left: seq<Token>, chain: seq<Token>, operand: seq<Token>)
    requires ts == r + operand && r == left + chain
    ensures ts == left + (chain + operand)
  {
  }

  /** `chain`, then `operand`, then the operator `op` pushed onto `r`. */
  lemma PushOperand(r: seq<Token>, chain: seq<Token>, operand: seq<Token>, op: Token)
    ensures var ts := r + (chain + operand + [op]);
      ts != [] && Last(ts) == op && Init(ts) == r + chain + operand
  {
    var ts := r + (chain + operand + [op]);
    assert ts == r + chain + operand + [op];
  }

  // Completeness: every tree's text is accepted, leaving exactly what lay below.

  lemma {:induction false} FactorComplete(r: seq<Token>, f: FactorTree)
    ensures FactorOutcome(r + FactorText(f)) == Done(Some(FactorValue(f)), r)
    decreases f, 0
  {
    match f
    case NumberLeaf(n) =>
      assert Init(r + [Number(n)]) == r;
    case Parenthesised(e) =>
      var below := r + [RightParenthesis];
      var ts := below + ExprText(e) + [LeftParenthesis];
      assert r + FactorText(f) == ts;
      assert Init(ts) == below + ExprText(e);
      ExprComplete(below, e);
      assert Init(below) == r;
  }

  lemma {:induction false} MulChainComplete(r: seq<Token>, c: MulChain)
    requires EndsTerm(r)
    ensures MulLoopOutcome(r + MulChainText(c)) == Done(Term([]), r)
    decreases c, 0
  {
    match c
    case NoMul =>
      assert r + MulChainText(c) == r;
    case MulBy(f, more) =>
      var below := r + MulChainText(more);
      PushOperand(r, MulChainText(more), FactorText(f), Mul);
      FactorComplete(below, f);
      assert MulLoopOutcome(r + MulChainText(c)) == MulLoopOutcome(below);
      MulChainComplete(r, more);
  }

  lemma {:induction false} TermComplete(r: seq<Token>, t: TermTree)
    requires EndsTerm(r)
    ensures TermOutcome(r + TermText(t)) == Done(Term([]), r)
    decreases t, 1
  {
    var below := r + MulChainText(t.products);
    assert r + TermText(t) == below + FactorText(t.head);
    FactorComplete(below, t.head);
    MulChainComplete(r, t.products);
  }

  lemma {:induction false} AddChainComplete(r: seq<Token>, c: AddChain)
    requires EndsExpr(r)
    ensures AddLoopOutcome(r + AddChainText(c)) == Done(Factor(123), r)
    decreases c, 0
  {
    match c
    case NoAdd =>
      assert r + AddChainText(c) == r;
    case AddTo(op, t, more) =>
      var below := r + AddChainText(more);
      PushOperand(r, AddChainText(more), TermText(t), OpToken(op));
      EndsTermBelowSums(r, more);
      TermComplete(below, t);
      assert AddLoopOutcome(r + AddChainText(c)) == AddLoopOutcome(below);
      AddChainComplete(r, more);
  }

  lemma {:induction false} ExprComplete(r: seq<Token>, e: ExprTree)
    requires EndsExpr(r)
    ensures ExprOutcome(r + ExprText(e)) == Done(Factor(123), r)
    decreases e, 1
  {
    var below := r + AddChainText(e.sums);
    assert r + ExprText(e) == below + TermText(e.head);
    EndsTermBelowSums(r, e.sums);
    TermComplete(below, e.head);
    AddChainComplete(r, e.sums);
  }

  // Soundness: whatever is accepted is a tree's text, with the stop
  // condition holding for what is left.

  lemma {:induction false} FactorSound(ts: seq<Token>) returns (f: FactorTree)
    requires FactorOutcome(ts).Done? && FactorOutcome(ts).value.Some?
    ensures ts == FactorOutcome(ts).rest + FactorText(f)
    ensures FactorOutcome(ts).value == Some(FactorValue(f))
    decreases |ts|, 0
  {
    var rest := Init(ts);
    match Last(ts)
    case Number(n) =>
      f := NumberLeaf(n);
    case LeftParenthesis =>
      var e := ExprSound(rest);
      var inner := ExprOutcome(rest).rest;
      f := Parenthesised(e);
      assert inner == Init(inner) + [RightParenthesis];
      assert ts == Init(inner) + [RightParenthesis] + ExprText(e) + [LeftParenthesis];
  }

  lemma {:induction false} MulChainSound(ts: seq<Token>) returns (c: MulChain)
    requires MulLoopOutcome(ts).Done?
    ensures ts == MulLoopOutcome(ts).rest + MulChainText(c)
    ensures EndsTerm(MulLoopOutcome(ts).rest)
    decreases |ts|, 1
  {
    if ts != [] && Last(ts) == Mul {
      var below := Init(ts);
      var f := FactorSound(below);
      var r := FactorOutcome(below).rest;
      assert MulLoopOutcome(ts) == MulLoopOutcome(r);
      var more := MulChainSound(r);
      c := MulBy(f, more);
      Regroup(ts, below, r, MulLoopOutcome(r).rest, MulChainText(more), FactorText(f), Mul);
    } else {
      c := NoMul;
      assert ts + [] == ts;
    }
  }

  lemma {:induction false} TermSound(ts: seq<Token>) returns (t: TermTree)
    requires TermOutcome(ts).Done?
    ensures ts == TermOutcome(ts).rest + TermText(t)
    ensures EndsTerm(TermOutcome(ts).rest)
    decreases |ts|, 2
  {
    var f := FactorSound(ts);
    var r := FactorOutcome(ts).rest;
    assert TermOutcome(ts) == MulLoopOutcome(r);
    var c := MulChainSound(r);
    t := TermTree(f, c);
    Join(ts, r, MulLoopOutcome(r).rest, MulChainText(c), FactorText(f));
  }

  lemma {:induction false} AddChainSound(ts: seq<Token>) returns (c: AddChain)
    requires EndsTerm(ts)
    requires AddLoopOutcome(ts).Done?
    ensures ts == AddLoopOutcome(ts).rest + AddChainText(c)
    ensures EndsExpr(AddLoopOutcome(ts).rest)
    decreases |ts|, 3
  {
    if ts != [] && (Last(ts) == Add || Last(ts) == Sub) {
      var op := if Last(ts) == Add then Plus else Minus;
      var below := Init(ts);
      var t := TermSound(below);
      var r := TermOutcome(below).rest;
      assert AddLoopOutcome(ts) == AddLoopOutcome(r);
      var more := AddChainSound(r);
      c := AddTo(op, t, more);
      Regroup(ts, below, r, AddLoopOutcome(r).rest, AddChainText(more), TermText(t), OpToken(op));
    } else {
      c := NoAdd;
      assert ts + [] == ts;
    }
  }

  lemma {:induction false} ExprSound(ts: seq<Token>) returns (e: ExprTree)
    requires ExprOutcome(ts).Done?
    ensures IsExprSplit(ts, ExprOutcome(ts).rest, e)
    decreases |ts|, 4
  {
    var t := TermSound(ts);
    var r := TermOutcome(ts).rest;
    assert ExprOutcome(ts) == AddLoopOutcome(r);
    var c := AddChainSound(r);
    e := ExprTree(t, c);
    Join(ts, r, AddLoopOutcome(r).rest, AddChainText(c), TermText(t));
  }

  /** `parse_expr` returns (rather than panics) exactly when the stack is an
      expression's text on top of something that stops both loops. */
  lemma ExprAccepts(ts: seq<Token>)
    ensures ExprOutcome(ts).Done? <==> exists r, e :: IsExprSplit(ts, r, e)
  {
    if ExprOutcome(ts).Done? {
      var e := ExprSound(ts);
    }
    if exists r, e :: IsExprSplit(ts, r, e) {
      var r, e :| IsExprSplit(ts, r, e);
      ExprComplete(r, e);
    }
  }

  /** `parse_factor` returns `Some` exactly on a factor's text, whatever
      lies below it; otherwise it returns `None` or panics. */
  lemma FactorAccepts(ts: seq<Token>)
    ensures (FactorOutcome(ts).Done? && FactorOutcome(ts).value.Some?) <==>
            exists r, f :: ts == r + FactorText(f)
  {
    if FactorOutcome(ts).Done? && FactorOutcome(ts).value.Some? {
      var f := FactorSound(ts);
    }
    if exists r, f :: ts == r + FactorText(f) {
      var r, f :| ts == r + FactorText(f);
      FactorComplete(r, f);
    }
  }

  /** A statement, in vector order `expr = name`, is accepted and leaves
      whatever lay below the expression. */
  lemma StmtComplete(p: seq<Token>, e: ExprTree, name: string)
    requires EndsExpr(p)
    ensures StmtOutcome(p + ExprText(e) + [Assignment, Identifier(name)]) == Done(Some(Term([])), p)
  {
    var ts := p + ExprText(e) + [Assignment, Identifier(name)];
    assert Init(ts) == p + ExprText(e) + [Assignment];
    assert Init(Init(ts)) == p + ExprText(e);
    ExprComplete(p, e);
  }

  lemma StmtSound(ts: seq<Token>) returns (p: seq<Token>, e: ExprTree, name: string)
    requires StmtOutcome(ts).Done? && StmtOutcome(ts).value.Some?
    ensures ts == p + ExprText(e) + [Assignment, Identifier(name)] && EndsExpr(p)
    ensures StmtOutcome(ts) == Done(Some(Term([])), p)
  {
    var below := Init(Init(ts));
    e := ExprSound(below);
    p := ExprOutcome(below).rest;
    name := Last(ts).name;
    assert ts == Init(ts) + [Identifier(name)];
    assert Init(ts) == below + [Assignment];
  }

  /** `parse_stmt` returns `None` exactly when the stack does not end with
      `Assignment` and an identifier; that stops it after one pop. */
  lemma StmtRejects(ts: seq<Token>)
    ensures (StmtOutcome(ts).Done? && StmtOutcome(ts).value.None?) <==>
            !(|ts| >= 2 && ts[|ts| - 1].Identifier? && ts[|ts| - 2] == Assignment)
    ensures StmtOutcome(ts).Done? && StmtOutcome(ts).value.None? ==>
            StmtOutcome(ts).rest == if ts == [] then [] else Init(ts)
  {
  }
}
