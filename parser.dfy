/** The recursive-descent recogniser `parse_stmt`, `parse_expr`,
    `parse_term`, `parse_factor` (src/main.rs:23-129).

    All four share one token vector and consume it from its END with
    `pop()`, peeking at the last element; a stack here is a `seq<Token>`
    whose top is its last element. The functions `*Outcome` say what each
    parse function returns and what it leaves of the vector; the methods
    `Parse*` are the functions of the source, loops included, and are
    proved to agree with them. The `println!` traces are left out. */
module Parser {
  import opened Syntax

  /** `parse_factor`: pops one token; a number is a factor, a left
      parenthesis must be followed by an expression and a popped right
      parenthesis; anything else, or an empty stack, gives `None`. */
  function FactorOutcome(ts: seq<Token>): (o: Outcome<Option<Ast>>)
    ensures o.Done? ==> o.rest <= ts
    ensures o.Done? && o.value.Some? ==> |o.rest| < |ts|
    decreases |ts|, 0
  {
    if ts == [] then Done(None, [])
    else
      var rest := Init(ts);
      match Last(ts)
      case Number(v) => Done(Some(Factor(v)), rest)
      case LeftParenthesis =>
        (match ExprOutcome(rest)
         case Panicked => Panicked
         case Done(_, inner) =>
           if inner == [] then Done(None, [])
           else if Last(inner) == RightParenthesis then Done(Some(Factor(123)), Init(inner))
           else Done(None, Init(inner)))
      case _ => Done(None, rest)
  }

  /** The loop of `parse_term`: while the top is `Mul`, pop it and parse a
      factor, panicking if there is none. */
  function MulLoopOutcome(ts: seq<Token>): (o: Outcome<Ast>)
    ensures o.Done? ==> o.rest <= ts
    decreases |ts|, 1
  {
    if ts != [] && Last(ts) == Mul then
      match FactorOutcome(Init(ts))
      case Done(Some(_), r) => MulLoopOutcome(r)
      case _ => Panicked
    else Done(Term([]), ts)
  }

  /** `parse_term`: a factor (`expect` panics without one), then the loop. */
  function TermOutcome(ts: seq<Token>): (o: Outcome<Ast>)
    ensures o.Done? ==> o.rest <= ts && |o.rest| < |ts|
    decreases |ts|, 2
  {
    match FactorOutcome(ts)
    case Done(Some(_), r) => MulLoopOutcome(r)
    case _ => Panicked
  }

  /** The loop of `parse_expr`: while the top is `Add` or `Sub`, pop it and
      parse a term. */
  function AddLoopOutcome(ts: seq<Token>): (o: Outcome<Ast>)
    ensures o.Done? ==> o.rest <= ts
    decreases |ts|, 3
  {
    if ts != [] && (Last(ts) == Add || Last(ts) == Sub) then
      match TermOutcome(Init(ts))
      case Done(_, r) => AddLoopOutcome(r)
      case Panicked => Panicked
    else Done(Factor(123), ts)
  }

  /** `parse_expr`: a term, then the loop; the result is always `Factor(123)`. */
  function ExprOutcome(ts: seq<Token>): (o: Outcome<Ast>)
    ensures o.Done? ==> o.rest <= ts && |o.rest| < |ts|
    decreases |ts|, 4
  {
    match TermOutcome(ts)
    case Done(_, r) => AddLoopOutcome(r)
    case Panicked => Panicked
  }

  /** `parse_stmt`: on a non-empty stack pops the top; if it is an
      identifier and the new top is `Assignment`, pops that too, parses an
      expression, discards it and returns `Some(Term([]))`. */
  function StmtOutcome(ts: seq<Token>): (o: Outcome<Option<Ast>>)
    ensures o.Done? ==> o.rest <= ts
    ensures o.Done? && ts != [] ==> |o.rest| < |ts|
  {
    if ts == [] then Done(None, [])
    else
      var rest := Init(ts);
      if Last(ts).Identifier? && rest != [] && Last(rest) == Assignment then
        match ExprOutcome(Init(rest))
        case Done(_, r) => Done(Some(Term([])), r)
        case Panicked => Panicked
      else Done(None, rest)
  }

  method ParseFactor(tokens: seq<Token>) returns (o: Outcome<Option<Ast>>)
    ensures o == FactorOutcome(tokens)
    decreases |tokens|, 0
  {
    if tokens == [] {
      return Done(None, []);
    }
    var top, stack := Last(tokens), Init(tokens);
    match top
    case Number(v) =>
      o := Done(Some(Factor(v)), stack);
    case LeftParenthesis =>
      var e := ParseExpr(stack);
      if e.Panicked? {
        return Panicked;
      }
      stack := e.rest;
      if stack == [] {
        return Done(None, []);
      }
      var closing := Last(stack);
      stack := Init(stack);
      if closing == RightParenthesis {
        o := Done(Some(Factor(123)), stack);
      } else {
        o := Done(None, stack);
      }
    case _ =>
      o := Done(None, stack);
  }

  method ParseTerm(tokens: seq<Token>) returns (o: Outcome<Ast>)
    ensures o == TermOutcome(tokens)
    decreases |tokens|, 2
  {
    var f := ParseFactor(tokens);
    if f.Panicked? || f.value.None? {
      return Panicked;
    }
    var stack := f.rest;
    while stack != [] && Last(stack) == Mul
      invariant stack <= tokens
      invariant MulLoopOutcome(stack) == TermOutcome(tokens)
      decreases |stack|
    {
      stack := Init(stack);
      f := ParseFactor(stack);
      if f.Panicked? || f.value.None? {
        return Panicked;
      }
      stack := f.rest;
    }
    o := Done(Term([]), stack);
  }

  method ParseExpr(tokens: seq<Token>) returns (o: Outcome<Ast>)
    ensures o == ExprOutcome(tokens)
    decreases |tokens|, 4
  {
    var t := ParseTerm(tokens);
    if t.Panicked? {
      return Panicked;
    }
    var stack := t.rest;
    while stack != [] && (Last(stack) == Add || Last(stack) == Sub)
      invariant stack <= tokens
      invariant AddLoopOutcome(stack) == ExprOutcome(tokens)
      decreases |stack|
    {
      stack := Init(stack);
      t := ParseTerm(stack);
      if t.Panicked? {
        return Panicked;
      }
      stack := t.rest;
    }
    o := Done(Factor(123), stack);
  }

  method ParseStmt(tokens: seq<Token>) returns (o: Outcome<Option<Ast>>)
    ensures o == StmtOutcome(tokens)
  {
    if tokens == [] {
      return Done(None, []);
    }
    var top, stack := Last(tokens), Init(tokens);
    if !top.Identifier? || stack == [] || Last(stack) != Assignment {
      return Done(None, stack);
    }
    stack := Init(stack);
    var e := ParseExpr(stack);
    if e.Panicked? {
      return Panicked;
    }
    o := Done(Some(Term([])), e.rest);
  }
}
