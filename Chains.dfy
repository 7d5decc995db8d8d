/**
 * The expression chain of ExpressionParser.parseSubstring: the order in which
 * pending operators are applied (opsReorederedByPrecedence) and the reduction
 * that lets each of them take its neighbours out of the chain.
 */
module Chains {
  import opened Wrappers
  import opened Operators
  import opened Variables
  import opened Expressions
  import opened ParsingErrors

  /**
   * An element of the chain. The id tells instances apart the way object
   * identity does for LinkedList.indexOf: it is the position of the atom the
   * element was made from.
   */
  datatype Link = Link(id: nat, e: Expr)

  /** An operator instance that still lacks operands (instanceof OperatorInstance && incomplete()). */
  predicate Pending(e: Expr) {
    e.Instance? && !Complete(e)
  }

  predicate AtLevel(l: Link, p: Precedence) {
    Pending(l.e) && l.e.op.prec == p
  }

  /** The pending operators of level p in chain order, as iterator() visits them. */
  function Forward(s: seq<Link>, p: Precedence): seq<Link> {
    if s == [] then []
    else Forward(s[..|s| - 1], p) + (if AtLevel(s[|s| - 1], p) then [s[|s| - 1]] else [])
  }

  /** The pending operators of level p from the end of the chain, as descendingIterator() visits them. */
  function Backward(s: seq<Link>, p: Precedence): seq<Link> {
    if s == [] then []
    else Backward(s[1..], p) + (if AtLevel(s[0], p) then [s[0]] else [])
  }

  /** The pass of one level: right to left for FUNC, left to right for every other level. */
  function LevelPass(s: seq<Link>, q: Precedence): (r: seq<Link>)
    ensures forall i :: 0 <= i < |r| ==> AtLevel(r[i], q)
  {
    ForwardMembers(s, q);
    BackwardMembers(s, q);
    if q == FUNC then Backward(s, q) else Forward(s, q)
  }

  /** One pass per level, one after the other. */
  function Ordered(s: seq<Link>, levels: seq<Precedence>): (r: seq<Link>)
    ensures forall i :: 0 <= i < |r| ==> Pending(r[i].e)
  {
    if levels == [] then []
    else Ordered(s, levels[..|levels| - 1]) + LevelPass(s, levels[|levels| - 1])
  }

  function Reverse(s: seq<Link>): (r: seq<Link>)
    ensures |r| == |s|
  {
    if s == [] then [] else [s[|s| - 1]] + Reverse(s[..|s| - 1])
  }

  /**
   * opsReorederedByPrecedence: one pass per precedence from highest to
   * lowest, collecting the pending operators of that level. The chain is
   * only read.
   */
  method OpsReorderedByPrecedence(chain: seq<Link>) returns (reordered: seq<Link>)
    ensures reordered == Ordered(chain, HighToLow())
  {
    var levels := HighToLow();
    reordered := [];
    var i := 0;
    while i < |levels|
      invariant 0 <= i <= |levels|
      invariant reordered == Ordered(chain, levels[..i])
    {
      OrderedStep(chain, levels, i);
      reordered := CollectLevel(chain, levels[i], reordered);
      i := i + 1;
    }
    assert levels[..|levels|] == levels;
  }

  /**
   * One pass of opsReorederedByPrecedence: the chain is walked with the
   * descending iterator for FUNC and the ascending one otherwise, and each
   * pending instance of the level is added to the list.
   */
  method CollectLevel(chain: seq<Link>, current: Precedence, reordered0: seq<Link>) returns (reordered: seq<Link>)
    ensures reordered == reordered0 + LevelPass(chain, current)
  {
    reordered := reordered0;
    if current == FUNC {
      var j := |chain|;
      while j > 0
        invariant 0 <= j <= |chain|
        invariant reordered == reordered0 + Backward(chain[j..], current)
      {
        j := j - 1;
        BackwardStep(chain, j, current);
        if AtLevel(chain[j], current) {
          reordered := reordered + [chain[j]];
        }
      }
      assert chain[0..] == chain;
    } else {
      var j := 0;
      while j < |chain|
        invariant 0 <= j <= |chain|
        invariant reordered == reordered0 + Forward(chain[..j], current)
      {
        ForwardStep(chain, j, current);
        if AtLevel(chain[j], current) {
          reordered := reordered + [chain[j]];
        }
        j := j + 1;
      }
      assert chain[..|chain|] == chain;
    }
  }

  lemma {:induction false} OrderedStep(s: seq<Link>, levels: seq<Precedence>, i: nat)
    requires i < |levels|
    ensures Ordered(s, levels[..i + 1]) == Ordered(s, levels[..i]) + LevelPass(s, levels[i])
  {
    assert levels[..i + 1][..i] == levels[..i];
  }

  lemma {:induction false} ForwardStep(s: seq<Link>, j: nat, p: Precedence)
    requires j < |s|
    ensures Forward(s[..j + 1], p) == Forward(s[..j], p) + (if AtLevel(s[j], p) then [s[j]] else [])
  {
    assert s[..j + 1][..j] == s[..j];
  }

  lemma {:induction false} BackwardStep(s: seq<Link>, j: nat, p: Precedence)
    requires j < |s|
    ensures Backward(s[j..], p) == Backward(s[j + 1..], p) + (if AtLevel(s[j], p) then [s[j]] else [])
  {
    assert s[j..][1..] == s[j + 1..];
  }

  // ----- what the order contains -----
  // (Statements about links quantify over positions: a quantifier over Link
  // values would range over allocated values only.)

  lemma {:induction false} ForwardMembers(s: seq<Link>, p: Precedence)
    ensures forall i :: 0 <= i < |Forward(s, p)| ==> Forward(s, p)[i] in s && AtLevel(Forward(s, p)[i], p)
    ensures forall j :: 0 <= j < |s| && AtLevel(s[j], p) ==> s[j] in Forward(s, p)
  {
    if s != [] {
      ForwardMembers(s[..|s| - 1], p);
      assert s == s[..|s| - 1] + [s[|s| - 1]];
      assert forall j :: 0 <= j < |s| - 1 ==> s[j] == s[..|s| - 1][j];
    }
  }

  lemma {:induction false} BackwardMembers(s: seq<Link>, p: Precedence)
    ensures forall i :: 0 <= i < |Backward(s, p)| ==> Backward(s, p)[i] in s && AtLevel(Backward(s, p)[i], p)
    ensures forall j :: 0 <= j < |s| && AtLevel(s[j], p) ==> s[j] in Backward(s, p)
  {
    if s != [] {
      BackwardMembers(s[1..], p);
      assert s == [s[0]] + s[1..];
      assert forall j :: 1 <= j < |s| ==> s[j] == s[1..][j - 1];
    }
  }

  lemma {:induction false} OrderedMembers(s: seq<Link>, levels: seq<Precedence>)
    ensures forall i :: 0 <= i < |Ordered(s, levels)| ==>
      Ordered(s, levels)[i] in s && Pending(Ordered(s, levels)[i].e) && Ordered(s, levels)[i].e.op.prec in levels
    ensures forall j :: 0 <= j < |s| && Pending(s[j].e) && s[j].e.op.prec in levels ==> s[j] in Ordered(s, levels)
  {
    if levels != [] {
      var init, last := levels[..|levels| - 1], levels[|levels| - 1];
      OrderedMembers(s, init);
      ForwardMembers(s, last);
      BackwardMembers(s, last);
      assert levels == init + [last];
      var a := Ordered(s, init);
      var b := LevelPass(s, last);
      var all := Ordered(s, levels);
      assert all == a + b;
      forall i | 0 <= i < |all|
        ensures all[i] in s && Pending(all[i].e) && all[i].e.op.prec in levels
      {
        if i < |a| {
          assert all[i] == a[i];
        } else {
          assert all[i] == b[i - |a|];
        }
      }
      forall j | 0 <= j < |s| && Pending(s[j].e) && s[j].e.op.prec in levels
        ensures s[j] in all
      {
        if s[j].e.op.prec == last {
          assert s[j] in b;
        } else {
          assert s[j].e.op.prec in init;
          assert s[j] in a;
        }
      }
    }
  }

  /**
   * The order holds exactly the pending operator instances of the chain
   * (constants, variables and complete instances are left out).
   */
  lemma {:induction false} OrderIsPending(chain: seq<Link>)
    ensures forall i :: 0 <= i < |Ordered(chain, HighToLow())| ==>
      Ordered(chain, HighToLow())[i] in chain && Pending(Ordered(chain, HighToLow())[i].e)
    ensures forall j :: 0 <= j < |chain| && Pending(chain[j].e) ==> chain[j] in Ordered(chain, HighToLow())
  {
    OrderedMembers(chain, HighToLow());
  }

  // ----- how the order is arranged -----

  /** The numerical precedence of an operator instance (0 for anything else). */
  function Rank(l: Link): int {
    if l.e.Instance? then l.e.op.prec.AsInt() else 0
  }

  /** In a strictly descending list of levels, everything before the last is above it. */
  lemma {:induction false} AboveLast(levels: seq<Precedence>)
    requires StrictlyDescending(levels) && levels != []
    ensures forall q :: q in levels[..|levels| - 1] ==> q.AsInt() > levels[|levels| - 1].AsInt()
  {
    forall q | q in levels[..|levels| - 1] ensures q.AsInt() > levels[|levels| - 1].AsInt() {
      var k :| 0 <= k < |levels| - 1 && levels[..|levels| - 1][k] == q;
      assert levels[k] == q;
    }
  }

  /** Levels never go up along the order: highest precedence first. */
  lemma {:induction false} OrderedDescends(s: seq<Link>, levels: seq<Precedence>)
    requires StrictlyDescending(levels)
    ensures forall i, j :: 0 <= i < j < |Ordered(s, levels)| ==>
      Rank(Ordered(s, levels)[i]) >= Rank(Ordered(s, levels)[j])
  {
    if levels != [] {
      var init, last := levels[..|levels| - 1], levels[|levels| - 1];
      var a: seq<Link> := Ordered(s, init);
      var b: seq<Link> := LevelPass(s, last);
      assert Ordered(s, levels) == a + b;
      assert forall i, j :: 0 <= i < j < |a| ==> Rank(a[i]) >= Rank(a[j]) by {
        OrderedDescends(s, init);
      }
      assert forall k :: 0 <= k < |a| ==> Rank(a[k]) > last.AsInt() by {
        OrderedMembers(s, init);
        AboveLast(levels);
      }
      assert forall k :: 0 <= k < |b| ==> Rank(b[k]) == last.AsInt();
      RankedConcat(a, b, last.AsInt());
    }
  }

  /** A descending run above x followed by elements of rank x is descending. */
  lemma {:induction false} RankedConcat(a: seq<Link>, b: seq<Link>, x: int)
    requires forall i, j :: 0 <= i < j < |a| ==> Rank(a[i]) >= Rank(a[j])
    requires forall k :: 0 <= k < |a| ==> Rank(a[k]) > x
    requires forall k :: 0 <= k < |b| ==> Rank(b[k]) == x
    ensures forall i, j :: 0 <= i < j < |a + b| ==> Rank((a + b)[i]) >= Rank((a + b)[j])
  {
    var ab := a + b;
    forall i, j | 0 <= i < j < |ab|
      ensures Rank(ab[i]) >= Rank(ab[j])
    {
      if j >= |a| {
        assert ab[j] == b[j - |a|];
        if i >= |a| {
          assert ab[i] == b[i - |a|];
        } else {
          assert ab[i] == a[i];
        }
      } else {
        assert ab[i] == a[i] && ab[j] == a[j];
      }
    }
  }

  /**
   * The order groups the operators by precedence, from the highest level to
   * the lowest.
   */
  lemma {:induction false} OrderDescends(chain: seq<Link>)
    ensures forall i, j :: 0 <= i < j < |Ordered(chain, HighToLow())| ==>
      Rank(Ordered(chain, HighToLow())[i]) >= Rank(Ordered(chain, HighToLow())[j])
  {
    OrderedDescends(chain, HighToLow());
  }

  lemma {:induction false} ForwardConcat(a: seq<Link>, b: seq<Link>, p: Precedence)
    ensures Forward(a + b, p) == Forward(a, p) + Forward(b, p)
  {
    if b == [] {
      assert a + b == a;
    } else {
      var init := b[..|b| - 1];
      assert (a + b)[..|a + b| - 1] == a + init;
      assert (a + b)[|a + b| - 1] == b[|b| - 1];
      ForwardConcat(a, init, p);
    }
  }

  /** Selecting a level again keeps everything of that level and nothing else. */
  lemma {:induction false} ForwardOfLevel(s: seq<Link>, q: Precedence, p: Precedence)
    requires forall i :: 0 <= i < |s| ==> AtLevel(s[i], q)
    ensures Forward(s, p) == if p == q then s else []
  {
    if s != [] {
      ForwardOfLevel(s[..|s| - 1], q, p);
      assert s == s[..|s| - 1] + [s[|s| - 1]];
    }
  }

  /** Selecting level p from the pass of level q gives that pass when p == q and nothing otherwise. */
  lemma {:induction false} LevelPassAtLevel(s: seq<Link>, q: Precedence, p: Precedence)
    ensures Forward(LevelPass(s, q), p) == if p == q then LevelPass(s, q) else []
  {
    ForwardOfLevel(LevelPass(s, q), q, p);
  }

  lemma {:induction false} InLastSplit<T>(s: seq<T>, x: T)
    requires s != []
    ensures x in s <==> x in s[..|s| - 1] || x == s[|s| - 1]
  {
    assert s == s[..|s| - 1] + [s[|s| - 1]];
  }

  lemma {:induction false} OrderedAtLevel(s: seq<Link>, levels: seq<Precedence>, p: Precedence)
    requires StrictlyDescending(levels)
    ensures Forward(Ordered(s, levels), p) == if p in levels then LevelPass(s, p) else []
  {
    if levels != [] {
      var init, last := levels[..|levels| - 1], levels[|levels| - 1];
      var a, b := Ordered(s, init), LevelPass(s, last);
      assert Ordered(s, levels) == a + b;
      assert Forward(a + b, p) == Forward(a, p) + Forward(b, p) by {
        ForwardConcat(a, b, p);
      }
      assert Forward(a, p) == if p in init then LevelPass(s, p) else [] by {
        OrderedAtLevel(s, init, p);
      }
      assert Forward(b, p) == if p == last then b else [] by {
        LevelPassAtLevel(s, last, p);
      }
      InLastSplit(levels, p);
      if p == last {
        assert p !in init by {
          AboveLast(levels);
        }
        assert Forward(a, p) + Forward(b, p) == [] + b;
      } else if p in init {
        assert Forward(a, p) + Forward(b, p) == LevelPass(s, p) + [];
      } else {
        assert Forward(a, p) + Forward(b, p) == [] + [];
      }
    }
  }

  lemma {:induction false} BackwardSnoc(s: seq<Link>, p: Precedence)
    requires s != []
    ensures Backward(s, p)
      == (if AtLevel(s[|s| - 1], p) then [s[|s| - 1]] else []) + Backward(s[..|s| - 1], p)
  {
    if |s| > 1 {
      BackwardSnoc(s[1..], p);
      assert s[1..][..|s[1..]| - 1] == s[..|s| - 1][1..];
    } else {
      assert s[..|s| - 1] == [];
    }
  }

  lemma {:induction false} BackwardIsReversed(s: seq<Link>, p: Precedence)
    ensures Backward(s, p) == Reverse(Forward(s, p))
  {
    if s != [] {
      var init, last := s[..|s| - 1], s[|s| - 1];
      BackwardSnoc(s, p);
      BackwardIsReversed(init, p);
      var f := Forward(init, p);
      if AtLevel(last, p) {
        assert (f + [last])[..|f + [last]| - 1] == f;
      } else {
        assert f + [] == f;
      }
    }
  }

  /**
   * Within one level the order follows the chain: restricted to level p it
   * is the chain's pending level-p operators from left to right, reversed
   * for FUNC (unary operators and functions apply right to left).
   */
  lemma {:induction false} OrderWithinLevel(chain: seq<Link>, p: Precedence)
    ensures Forward(Ordered(chain, HighToLow()), p)
      == if p == FUNC then Reverse(Forward(chain, p)) else Forward(chain, p)
  {
    OrderedAtLevel(chain, HighToLow(), p);
    BackwardIsReversed(chain, p);
    assert p in HighToLow();
  }

  // ----- distinctness of the order -----

  /** No two positions hold the same element. */
  predicate Distinct(s: seq<Link>) {
    forall i, j :: 0 <= i < j < |s| ==> s[i] != s[j]
  }

  /** No two positions hold elements of the same identity. */
  predicate IdsDistinct(s: seq<Link>) {
    forall i, j :: 0 <= i < j < |s| ==> s[i].id != s[j].id
  }

  lemma {:induction false} DistinctConcat(a: seq<Link>, b: seq<Link>)
    requires Distinct(a) && Distinct(b)
    requires forall i, j :: 0 <= i < |a| && 0 <= j < |b| ==> a[i] != b[j]
    ensures Distinct(a + b)
  {
    forall i, j | 0 <= i < j < |a + b| ensures (a + b)[i] != (a + b)[j] {
      if j < |a| {
        assert (a + b)[i] == a[i] && (a + b)[j] == a[j];
      } else if i < |a| {
        assert (a + b)[i] == a[i] && (a + b)[j] == b[j - |a|];
      } else {
        assert (a + b)[i] == b[i - |a|] && (a + b)[j] == b[j - |a|];
      }
    }
  }

  lemma {:induction false} ForwardDistinct(s: seq<Link>, p: Precedence)
    requires Distinct(s)
    ensures Distinct(Forward(s, p))
  {
    if s != [] {
      var init := s[..|s| - 1];
      ForwardDistinct(init, p);
      ForwardMembers(init, p);
      assert forall k :: 0 <= k < |init| ==> init[k] == s[k];
      DistinctConcat(Forward(init, p), if AtLevel(s[|s| - 1], p) then [s[|s| - 1]] else []);
    }
  }

  lemma {:induction false} BackwardDistinct(s: seq<Link>, p: Precedence)
    requires Distinct(s)
    ensures Distinct(Backward(s, p))
  {
    if s != [] {
      var tail := s[1..];
      BackwardDistinct(tail, p);
      BackwardMembers(tail, p);
      assert forall k :: 0 <= k < |tail| ==> tail[k] == s[k + 1];
      DistinctConcat(Backward(tail, p), if AtLevel(s[0], p) then [s[0]] else []);
    }
  }

  lemma {:induction false} OrderedDistinct(s: seq<Link>, levels: seq<Precedence>)
    requires Distinct(s) && StrictlyDescending(levels)
    ensures Distinct(Ordered(s, levels))
  {
    if levels != [] {
      var init, last := levels[..|levels| - 1], levels[|levels| - 1];
      OrderedDistinct(s, init);
      OrderedMembers(s, init);
      ForwardDistinct(s, last);
      BackwardDistinct(s, last);
      AboveLast(levels);
      var a, b := Ordered(s, init), LevelPass(s, last);
      forall i, j | 0 <= i < |a| && 0 <= j < |b| ensures a[i] != b[j] {
        assert a[i].e.op.prec in init;
        assert b[j].e.op.prec == last;
      }
      DistinctConcat(a, b);
    }
  }

  // ----- applying the order -----

  /** LinkedList.indexOf: the first position holding the element of this identity. */
  function IndexOf(chain: seq<Link>, id: nat): (r: Option<nat>)
    ensures r.Some? ==> r.value < |chain| && chain[r.value].id == id
    ensures r.Some? ==> forall k :: 0 <= k < r.value ==> chain[k].id != id
    ensures r.None? <==> forall k :: 0 <= k < |chain| ==> chain[k].id != id
  {
    if chain == [] then None
    else if chain[0].id == id then Some(0)
    else
      match IndexOf(chain[1..], id)
      case None => None
      case Some(k) => Some(k + 1)
  }

  /** The instance op once its operands are filled in. */
  function Applied(op: Link, left: Option<Expr>, right: Expr): Link
    requires op.e.Instance?
  {
    Link(op.id, Instance(op.e.op, left, Some(right)))
  }

  /**
   * One iteration of the reduction loop: op takes its right neighbour and,
   * when binary, its left neighbour out of the chain; both must exist and be
   * complete. The missing operands are reported in the source's order (right,
   * then left) before the completeness of either is looked at.
   */
  function Step(chain: seq<Link>, op: Link): Result<seq<Link>, ParseError>
    requires op.e.Instance?
  {
    var tok := op.e.op.token;
    match IndexOf(chain, op.id)
    case None => Failure(RuntimeFailure("indexOf"))
    case Some(p) =>
      if p == |chain| - 1 then Failure(MissingRightOperand(tok))
      else if op.e.op.kind == BINARY && p == 0 then Failure(MissingLeftOperand(tok))
      else if Pending(chain[p + 1].e) then Failure(IncompleteOperand(tok))
      else if op.e.op.kind == UNARY then
        Success(chain[..p] + [Applied(op, None, chain[p + 1].e)] + chain[p + 2..])
      else if Pending(chain[p - 1].e) then Failure(IncompleteOperand(tok))
      else Success(chain[..p - 1] + [Applied(op, Some(chain[p - 1].e), chain[p + 1].e)] + chain[p + 2..])
  }

  /**
   * The outcomes of one iteration: an operator in the last position has no
   * right operand, a binary one in the first position (and not also the
   * last) has no left operand, and a successful step shortens the chain by
   * the number of operands taken.
   */
  lemma {:induction false} StepOutcome(chain: seq<Link>, op: Link, p: nat)
    requires op.e.Instance? && IndexOf(chain, op.id) == Some(p)
    ensures p == |chain| - 1 ==> Step(chain, op) == Failure(MissingRightOperand(op.e.op.token))
    ensures p == 0 && 1 < |chain| && op.e.op.kind == BINARY ==>
      Step(chain, op) == Failure(MissingLeftOperand(op.e.op.token))
    ensures Step(chain, op).Success? ==>
      |Step(chain, op).value| == |chain| - (if op.e.op.kind == UNARY then 1 else 2)
  {
    if Step(chain, op).Success? && p + 1 < |chain| {
      if op.e.op.kind == UNARY {
        assert |chain[..p] + [Applied(op, None, chain[p + 1].e)] + chain[p + 2..]| == |chain| - 1;
      } else if 0 < p {
        assert |chain[..p - 1] + [Applied(op, Some(chain[p - 1].e), chain[p + 1].e)] + chain[p + 2..]| == |chain| - 2;
      }
    }
  }

  predicate Instances(order: seq<Link>) {
    forall i :: 0 <= i < |order| ==> order[i].e.Instance?
  }

  /** The loop over the whole order; the first error ends the parse. */
  function ReduceAll(chain: seq<Link>, order: seq<Link>): Result<seq<Link>, ParseError>
    requires Instances(order)
    decreases |order|
  {
    if order == [] then Success(chain)
    else
      var next :- Step(chain, order[0]);
      ReduceAll(next, order[1..])
  }

  /** What is left must be a single expression: the root of the tree. */
  function Collapse(chain: seq<Link>): Result<Expr, ParseError> {
    if |chain| > 1 then Failure(UncollapsedExpression(|chain|))
    else if chain == [] then Failure(RuntimeFailure("getFirst"))
    else Success(chain[0].e)
  }

  function Reduced(chain: seq<Link>, order: seq<Link>): Result<Expr, ParseError>
    requires Instances(order)
  {
    var rest :- ReduceAll(chain, order);
    Collapse(rest)
  }

  /**
   * The reduction loop of parseSubstring, on the chain it has built: the
   * order is computed once, then each operator in turn takes its operands
   * out of the chain; one expression must be left.
   */
  method ReduceChain(chain0: seq<Link>) returns (r: Result<Expr, ParseError>)
    ensures r == Reduced(chain0, Ordered(chain0, HighToLow()))
  {
    var order := OpsReorderedByPrecedence(chain0);
    r := ReduceInOrder(chain0, order);
  }

  /** The loop itself: each operator of order in turn takes its operands. */
  method ReduceInOrder(chain0: seq<Link>, order: seq<Link>) returns (r: Result<Expr, ParseError>)
    requires Instances(order)
    ensures r == Reduced(chain0, order)
  {
    ghost var total := ReduceAll(chain0, order);
    assert order[0..] == order;
    var chain := chain0;
    var i := 0;
    while i < |order|
      invariant 0 <= i <= |order|
      invariant ReduceAll(chain, order[i..]) == total
    {
      ReduceAllAt(chain, order, i);
      var next := Step(chain, order[i]);
      if next.Failure? {
        return Failure(next.error);
      }
      chain := next.value;
      i := i + 1;
    }
    assert total == Success(chain) by {
      assert order[i..] == [];
    }
    if |chain| > 1 {
      return Failure(UncollapsedExpression(|chain|));
    }
    if chain == [] {
      return Failure(RuntimeFailure("getFirst"));
    }
    return Success(chain[0].e);
  }

  /** One round of the reduction loop, seen from the rest of the order. */
  lemma {:induction false} ReduceAllAt(chain: seq<Link>, order: seq<Link>, i: nat)
    requires Instances(order) && i < |order|
    ensures Step(chain, order[i]).Failure? ==> ReduceAll(chain, order[i..]) == Failure(Step(chain, order[i]).error)
    ensures Step(chain, order[i]).Success? ==>
      ReduceAll(chain, order[i..]) == ReduceAll(Step(chain, order[i]).value, order[i + 1..])
  {
    assert order[i..][0] == order[i] && order[i..][1..] == order[i + 1..];
  }

  // ----- what the reduction guarantees -----

  /** A new OperatorInstance, as the recognizer adds it: no operands yet. */
  predicate Fresh(e: Expr) {
    e.Instance? && e.left.None? && e.right.None?
  }

  /**
   * The nodes of e from left to right, each operator instance in its fresh
   * form: the atoms e is made of, in the order they were written.
   */
  function Inorder(e: Expr): (r: seq<Expr>)
    ensures r != []
  {
    match e
    case Instance(op, l, r) =>
      (if l.Some? then Inorder(l.value) else []) + [Instance(op, None, None)]
      + (if r.Some? then Inorder(r.value) else [])
    case _ => [e]
  }

  /** The atoms of all the chain's elements, left to right. */
  function Flat(chain: seq<Link>): (r: seq<Expr>)
    ensures r == [] <==> chain == []
  {
    if chain == [] then [] else Flat(chain[..|chain| - 1]) + Inorder(chain[|chain| - 1].e)
  }

  lemma {:induction false} FlatConcat(a: seq<Link>, b: seq<Link>)
    ensures Flat(a + b) == Flat(a) + Flat(b)
  {
    if b != [] {
      var init := b[..|b| - 1];
      assert (a + b)[..|a + b| - 1] == a + init;
      assert (a + b)[|a + b| - 1] == b[|b| - 1];
      FlatConcat(a, init);
    } else {
      assert a + b == a;
    }
  }

  /**
   * The state between iterations of the reduction loop: identities are
   * distinct, the operators still to run are distinct fresh members of the
   * chain, and every other element of the chain is complete.
   */
  predicate Awaiting(chain: seq<Link>, order: seq<Link>) {
    IdsDistinct(chain) && Distinct(order)
    && (forall j :: 0 <= j < |order| ==> order[j] in chain && Fresh(order[j].e))
    && (forall k :: 0 <= k < |chain| ==> Complete(chain[k].e) || chain[k] in order)
  }

  /**
   * Replacing chain[lo..hi], which holds the next operator to run and
   * otherwise complete elements, by one complete element of that operator's
   * identity keeps the loop's invariant for the rest of the order.
   */
  lemma {:induction false} SpliceKeeps(chain: seq<Link>, order: seq<Link>, lo: nat, p: nat, hi: nat, n: Link)
    requires Awaiting(chain, order) && order != []
    requires lo <= p < hi <= |chain| && chain[p] == order[0]
    requires n.id == chain[p].id && Complete(n.e)
    requires forall k :: lo <= k < hi && k != p ==> Complete(chain[k].e)
    ensures Awaiting(chain[..lo] + [n] + chain[hi..], order[1..])
  {
    var next := chain[..lo] + [n] + chain[hi..];
    var d := hi - lo - 1;
    assert |next| == |chain| - d;
    assert forall i :: 0 <= i < lo ==> next[i] == chain[i];
    assert next[lo] == n;
    assert forall i :: lo < i < |next| ==> next[i] == chain[i + d];
    forall i, j | 0 <= i < j < |next| ensures next[i].id != next[j].id {
      var a := if i < lo then i else if i == lo then p else i + d;
      var b := if j < lo then j else if j == lo then p else j + d;
      assert a < b && next[i].id == chain[a].id && next[j].id == chain[b].id;
    }
    var rest := order[1..];
    forall j | 0 <= j < |rest| ensures rest[j] in next && Fresh(rest[j].e) {
      assert rest[j] == order[j + 1];
      var m :| 0 <= m < |chain| && chain[m] == rest[j];
      assert m != p;
      if m < lo {
        assert next[m] == rest[j];
      } else {
        assert m >= hi;
        assert next[m - d] == rest[j];
      }
    }
    forall k | 0 <= k < |next| ensures Complete(next[k].e) || next[k] in rest {
      if k != lo {
        var m := if k < lo then k else k + d;
        assert next[k] == chain[m] && m != p;
        if !Complete(chain[m].e) {
          var j :| 0 <= j < |order| && order[j] == chain[m];
          assert j != 0;
          assert rest[j - 1] == chain[m];
        }
      }
    }
  }

  /** The same replacement keeps the chain's atoms when n is made of exactly the replaced elements. */
  lemma {:induction false} FlatSplice(chain: seq<Link>, lo: nat, hi: nat, n: Link)
    requires lo <= hi <= |chain| && Inorder(n.e) == Flat(chain[lo..hi])
    ensures Flat(chain[..lo] + [n] + chain[hi..]) == Flat(chain)
  {
    var pre, mid, post := chain[..lo], chain[lo..hi], chain[hi..];
    calc {
      Flat(pre + [n] + post);
      { FlatConcat(pre + [n], post); }
      Flat(pre + [n]) + Flat(post);
      { FlatConcat(pre, [n]); assert [n][..0] == []; }
      Flat(pre) + Inorder(n.e) + Flat(post);
      Flat(pre) + Flat(mid) + Flat(post);
      { FlatConcat(pre, mid); }
      Flat(pre + mid) + Flat(post);
      { FlatConcat(pre + mid, post); }
      Flat(pre + mid + post);
      { assert pre + mid + post == chain; }
      Flat(chain);
    }
  }

  lemma {:induction false} FlatPair(a: Link, b: Link)
    ensures Flat([a, b]) == Inorder(a.e) + Inorder(b.e)
  {
    assert [a, b][..1] == [a] && [a][..0] == [];
  }

  lemma {:induction false} FlatTriple(a: Link, b: Link, c: Link)
    ensures Flat([a, b, c]) == Inorder(a.e) + Inorder(b.e) + Inorder(c.e)
  {
    assert [a, b, c][..2] == [a, b];
    FlatPair(a, b);
  }

  /** The unary case of one iteration: op takes its right neighbour. */
  lemma {:induction false} UnaryStepKeeps(chain: seq<Link>, order: seq<Link>, p: nat)
    requires Awaiting(chain, order) && order != []
    requires p + 1 < |chain| && chain[p] == order[0] && Complete(chain[p + 1].e)
    requires order[0].e.Instance? && order[0].e.op.kind == UNARY
    ensures var next := chain[..p] + [Applied(order[0], None, chain[p + 1].e)] + chain[p + 2..];
      Awaiting(next, order[1..]) && Flat(next) == Flat(chain)
  {
    var op, right := order[0], chain[p + 1];
    assert Fresh(op.e);
    assert Inorder(op.e) == [Instance(op.e.op, None, None)];
    var n := Applied(op, None, right.e);
    SpliceKeeps(chain, order, p, p, p + 2, n);
    assert chain[p..p + 2] == [op, right];
    FlatPair(op, right);
    FlatSplice(chain, p, p + 2, n);
  }

  /** The binary case of one iteration: op takes both neighbours. */
  lemma {:induction false} BinaryStepKeeps(chain: seq<Link>, order: seq<Link>, p: nat)
    requires Awaiting(chain, order) && order != []
    requires 0 < p && p + 1 < |chain| && chain[p] == order[0]
    requires Complete(chain[p - 1].e) && Complete(chain[p + 1].e)
    ensures var next := chain[..p - 1] + [Applied(order[0], Some(chain[p - 1].e), chain[p + 1].e)] + chain[p + 2..];
      Awaiting(next, order[1..]) && Flat(next) == Flat(chain)
  {
    var op, left, right := order[0], chain[p - 1], chain[p + 1];
    assert Fresh(op.e);
    assert Inorder(op.e) == [Instance(op.e.op, None, None)];
    var n := Applied(op, Some(left.e), right.e);
    SpliceKeeps(chain, order, p - 1, p, p + 2, n);
    assert chain[p - 1..p + 2] == [left, op, right];
    FlatTriple(left, op, right);
    FlatSplice(chain, p - 1, p + 2, n);
  }

  /** The next operator of the order is in the chain, and indexOf finds it there. */
  lemma {:induction false} NextFound(chain: seq<Link>, order: seq<Link>)
    requires Awaiting(chain, order) && order != []
    ensures IndexOf(chain, order[0].id).Some? && chain[IndexOf(chain, order[0].id).value] == order[0]
    ensures order[0].e.Instance?
  {
    var op := order[0];
    assert op in chain && Fresh(op.e);
    var m :| 0 <= m < |chain| && chain[m] == op;
    var found := IndexOf(chain, op.id);
    assert found.Some?;
    assert found.value <= m;
    assert found.value == m;
  }

  /**
   * One iteration keeps the invariant and the chain's atoms, and never ends
   * in a runtime exception.
   */
  lemma {:induction false} StepKeeps(chain: seq<Link>, order: seq<Link>)
    requires Awaiting(chain, order) && order != []
    ensures Step(chain, order[0]).Failure? ==> !Step(chain, order[0]).error.RuntimeFailure?
    ensures Step(chain, order[0]).Success? ==>
      Awaiting(Step(chain, order[0]).value, order[1..]) && Flat(Step(chain, order[0]).value) == Flat(chain)
  {
    var op := order[0];
    NextFound(chain, order);
    var m := IndexOf(chain, op.id).value;
    if m + 1 < |chain| && !Pending(chain[m + 1].e) {
      assert Complete(chain[m + 1].e);
      if op.e.op.kind == UNARY {
        UnaryStepKeeps(chain, order, m);
      } else if 0 < m && !Pending(chain[m - 1].e) {
        assert Complete(chain[m - 1].e);
        BinaryStepKeeps(chain, order, m);
      }
    }
  }

  lemma {:induction false} ReduceAllSound(chain: seq<Link>, order: seq<Link>)
    requires Awaiting(chain, order)
    ensures Instances(order)
    ensures ReduceAll(chain, order).Failure? ==> !ReduceAll(chain, order).error.RuntimeFailure?
    ensures ReduceAll(chain, order).Success? ==>
      Flat(ReduceAll(chain, order).value) == Flat(chain)
      && forall k :: 0 <= k < |ReduceAll(chain, order).value| ==> Complete(ReduceAll(chain, order).value[k].e)
    decreases |order|
  {
    if order != [] {
      StepKeeps(chain, order);
      var step := Step(chain, order[0]);
      if step.Success? {
        ReduceAllSound(step.value, order[1..]);
      }
    }
  }

  /**
   * The reduction is sound. Starting from a non-empty chain of complete
   * expressions and fresh operator instances of distinct identities, it
   * never ends in a runtime exception; and when it succeeds, the tree is
   * complete and holds exactly the chain's atoms in their written order
   * (nothing is lost, duplicated or moved).
   */
  lemma {:induction false} ReducedSound(chain: seq<Link>)
    requires chain != [] && IdsDistinct(chain)
    requires forall k :: 0 <= k < |chain| ==> Complete(chain[k].e) || Fresh(chain[k].e)
    ensures Reduced(chain, Ordered(chain, HighToLow())).Failure? ==>
      !Reduced(chain, Ordered(chain, HighToLow())).error.RuntimeFailure?
    ensures Reduced(chain, Ordered(chain, HighToLow())).Success? ==>
      Complete(Reduced(chain, Ordered(chain, HighToLow())).value)
      && Inorder(Reduced(chain, Ordered(chain, HighToLow())).value) == Flat(chain)
  {
    var order := Ordered(chain, HighToLow());
    OrderIsPending(chain);
    OrderedDistinct(chain, HighToLow());
    assert Awaiting(chain, order);
    ReduceAllSound(chain, order);
  }

  // ----- no variable comes from nowhere -----

  /** Every link reaches only cells among S. */
  predicate CellsWithin(chain: seq<Link>, S: set<Variable>) {
    forall k :: 0 <= k < |chain| ==> Cells(chain[k].e) <= S
  }

  /** A completed instance reaches only the cells of the operands it took. */
  lemma {:induction false} StepCells(chain: seq<Link>, op: Link, S: set<Variable>)
    requires op.e.Instance? && CellsWithin(chain, S)
    ensures Step(chain, op).Success? ==> CellsWithin(Step(chain, op).value, S)
  {
    if Step(chain, op).Success? {
      var p := IndexOf(chain, op.id).value;
      var lo := if op.e.op.kind == UNARY then p else p - 1;
      var left := if op.e.op.kind == UNARY then None else Some(chain[p - 1].e);
      var n := Applied(op, left, chain[p + 1].e);
      var next := Step(chain, op).value;
      assert next == chain[..lo] + [n] + chain[p + 2..];
      assert Cells(n.e) <= Cells(chain[p + 1].e) + Cells(chain[lo].e);
      forall k | 0 <= k < |next| ensures Cells(next[k].e) <= S {
        if k > lo {
          assert next[k] == chain[k + p + 1 - lo];
        }
      }
    }
  }

  lemma {:induction false} ReduceAllCells(chain: seq<Link>, order: seq<Link>, S: set<Variable>)
    requires Instances(order) && CellsWithin(chain, S)
    ensures ReduceAll(chain, order).Success? ==> CellsWithin(ReduceAll(chain, order).value, S)
    decreases |order|
  {
    if order != [] {
      StepCells(chain, order[0], S);
      var next := Step(chain, order[0]);
      if next.Success? {
        ReduceAllCells(next.value, order[1..], S);
      }
    }
  }

  /**
   * The reduction introduces no variable: the tree it builds reaches only
   * cells the chain's links already reached.
   */
  lemma {:induction false} ReducedCells(chain: seq<Link>, S: set<Variable>)
    requires CellsWithin(chain, S)
    ensures Reduced(chain, Ordered(chain, HighToLow())).Success? ==>
      Cells(Reduced(chain, Ordered(chain, HighToLow())).value) <= S
  {
    ReduceAllCells(chain, Ordered(chain, HighToLow()), S);
  }

  /** Each round of the loop either goes on or ends in one of the reduction's own errors. */
  lemma {:induction false} ReduceAllErrors(chain: seq<Link>, order: seq<Link>)
    requires Instances(order)
    ensures ReduceAll(chain, order).Failure? ==> ReductionError(ReduceAll(chain, order).error)
    decreases |order|
  {
    if order != [] {
      var next := Step(chain, order[0]);
      if next.Success? {
        ReduceAllErrors(next.value, order[1..]);
      }
    }
  }

  /** The reduction fails only with a missing or incomplete operand, leftover pieces or a Java runtime exception. */
  lemma {:induction false} ReducedErrors(chain: seq<Link>)
    ensures Reduced(chain, Ordered(chain, HighToLow())).Failure? ==>
      ReductionError(Reduced(chain, Ordered(chain, HighToLow())).error)
  {
    ReduceAllErrors(chain, Ordered(chain, HighToLow()));
  }

  // ----- small chains -----

  /** A binary operator between two complete expressions is applied to them. */
  lemma {:induction false} BinaryBetweenOperands(x: Expr, op: Operator, y: Expr)
    requires Complete(x) && Complete(y) && op.kind == BINARY
    ensures var chain := [Link(0, x), Link(1, NewInstance(op)), Link(2, y)];
      Reduced(chain, Ordered(chain, HighToLow())) == Success(Instance(op, Some(x), Some(y)))
  {
    var chain := [Link(0, x), Link(1, NewInstance(op)), Link(2, y)];
    HighToLowOrder();
    assert Ordered(chain, HighToLow()) == [chain[1]] by {
      OrderedOfOne(chain, HighToLow(), 1);
    }
    assert IndexOf(chain, 1) == Some(1) by {
      assert chain[1..][0].id == 1;
      assert IndexOf(chain[1..], 1) == Some(0);
    }
    assert !Pending(chain[0].e) && !Pending(chain[2].e) && chain[1].e.op.kind != UNARY;
    assert chain[..0] + [Applied(chain[1], Some(x), y)] + chain[3..] == [Link(1, Instance(op, Some(x), Some(y)))];
    assert Step(chain, chain[1]) == Success([Link(1, Instance(op, Some(x), Some(y)))]);
    assert [chain[1]][1..] == [];
    assert ReduceAll(chain, [chain[1]]) == Success([Link(1, Instance(op, Some(x), Some(y)))]);
  }

  /** A unary operator before a complete expression is applied to it. */
  lemma {:induction false} UnaryBeforeOperand(op: Operator, y: Expr)
    requires Complete(y) && op.kind == UNARY
    ensures var chain := [Link(0, NewInstance(op)), Link(1, y)];
      Reduced(chain, Ordered(chain, HighToLow())) == Success(Instance(op, None, Some(y)))
  {
    var chain := [Link(0, NewInstance(op)), Link(1, y)];
    HighToLowOrder();
    assert Ordered(chain, HighToLow()) == [chain[0]] by {
      OrderedOfOne(chain, HighToLow(), 0);
    }
    assert IndexOf(chain, 0) == Some(0);
    assert !Pending(chain[1].e) && chain[0].e.op.kind == UNARY;
    assert chain[..0] + [Applied(chain[0], None, y)] + chain[2..] == [Link(0, Instance(op, None, Some(y)))];
    assert Step(chain, chain[0]) == Success([Link(0, Instance(op, None, Some(y)))]);
    assert [chain[0]][1..] == [];
    assert ReduceAll(chain, [chain[0]]) == Success([Link(0, Instance(op, None, Some(y)))]);
  }

  lemma {:induction false} ForwardNone(s: seq<Link>, q: Precedence)
    requires forall j :: 0 <= j < |s| ==> !AtLevel(s[j], q)
    ensures Forward(s, q) == []
  {
    if s != [] {
      ForwardNone(s[..|s| - 1], q);
    }
  }

  /** With a single pending element, every pass finds that element or nothing. */
  lemma {:induction false} LevelPassOfOne(s: seq<Link>, k: nat, q: Precedence)
    requires k < |s| && forall j :: 0 <= j < |s| && j != k ==> !Pending(s[j].e)
    ensures LevelPass(s, q) == if AtLevel(s[k], q) then [s[k]] else []
  {
    var pre, post := s[..k], s[k + 1..];
    assert s == pre + [s[k]] + post;
    ForwardNone(pre, q);
    ForwardNone(post, q);
    ForwardConcat(pre + [s[k]], post, q);
    ForwardConcat(pre, [s[k]], q);
    assert [s[k]][..0] == [];
    BackwardIsReversed(s, q);
    if AtLevel(s[k], q) {
      assert [s[k]][..0] == [];
    }
  }

  /** With a single pending element, the order is that element alone. */
  lemma {:induction false} OrderedOfOne(s: seq<Link>, levels: seq<Precedence>, k: nat)
    requires StrictlyDescending(levels)
    requires k < |s| && Pending(s[k].e) && forall j :: 0 <= j < |s| && j != k ==> !Pending(s[j].e)
    ensures Ordered(s, levels) == if s[k].e.op.prec in levels then [s[k]] else []
  {
    if levels != [] {
      var init, last := levels[..|levels| - 1], levels[|levels| - 1];
      OrderedOfOne(s, init, k);
      LevelPassOfOne(s, k, last);
      assert s[k].e.op.prec in levels <==> s[k].e.op.prec in init || s[k].e.op.prec == last by {
        assert levels == init + [last];
      }
      if s[k].e.op.prec == last {
        AboveLast(levels);
      }
    }
  }

  // ----- the reduction loop as written -----

  /**
   * One iteration as the source writes it: no operand is checked for
   * completeness, and an operator that is no longer in the chain (indexOf
   * gives -1) still takes "its" right operand, which is then the chain's
   * first element. Trees are values here: the instance that element belongs
   * to is not changed, so the in-place update of a shared instance (and the
   * cycle it can create) is not captured.
   */
  function StepAsWritten(chain: seq<Link>, op: Link): Result<seq<Link>, ParseError>
    requires op.e.Instance?
  {
    var tok := op.e.op.token;
    var p: int := match IndexOf(chain, op.id) case None => -1 case Some(k) => k;
    if p == |chain| - 1 then Failure(MissingRightOperand(tok))
    else if op.e.op.kind == UNARY then
      if p < 0 then Success(chain[1..])
      else Success(chain[..p] + [Applied(op, None, chain[p + 1].e)] + chain[p + 2..])
    else if p == 0 then Failure(MissingLeftOperand(tok))
    else if p < 0 then Failure(RuntimeFailure("remove(-2)"))
    else Success(chain[..p - 1] + [Applied(op, Some(chain[p - 1].e), chain[p + 1].e)] + chain[p + 2..])
  }

  function ReduceAllAsWritten(chain: seq<Link>, order: seq<Link>): Result<seq<Link>, ParseError>
    requires Instances(order)
    decreases |order|
  {
    if order == [] then Success(chain)
    else
      var next :- StepAsWritten(chain, order[0]);
      ReduceAllAsWritten(next, order[1..])
  }

  function ReducedAsWritten(chain: seq<Link>, order: seq<Link>): Result<Expr, ParseError>
    requires Instances(order)
  {
    var rest :- ReduceAllAsWritten(chain, order);
    Collapse(rest)
  }

  /**
   * "2 ^ sin 3": exponentiation runs first and takes the still incomplete
   * sin as its right operand; sin is then no longer in the chain, so it
   * takes the chain's first element, the exponentiation, and the parse
   * returns the constant 3, which holds one of the four atoms. Checking
   * completeness reports the incomplete operand instead.
   */
  lemma {:induction false} PowerOfFunctionAsWritten(pow: Operator, sin: Operator, two: real, three: real)
    requires pow.kind == BINARY && pow.prec == POW
    requires sin.kind == UNARY && sin.prec == FUNC
    ensures var chain := [Link(0, Constant(two)), Link(1, NewInstance(pow)), Link(2, NewInstance(sin)), Link(3, Constant(three))];
      && ReducedAsWritten(chain, Ordered(chain, HighToLow())) == Success(Constant(three))
      && Inorder(Constant(three)) != Flat(chain)
      && Reduced(chain, Ordered(chain, HighToLow())) == Failure(IncompleteOperand(pow.token))
  {
    var chain := [Link(0, Constant(two)), Link(1, NewInstance(pow)), Link(2, NewInstance(sin)), Link(3, Constant(three))];
    var order := [chain[1], chain[2]];
    assert Ordered(chain, HighToLow()) == order by {
      HighToLowOrder();
      PowerOfFunctionOrder(chain);
    }
    assert IndexOf(chain, 1) == Some(1) by {
      assert IndexOf(chain[1..], 1) == Some(0);
    }
    var powered := Link(1, Instance(pow, Some(Constant(two)), Some(NewInstance(sin))));
    assert StepAsWritten(chain, chain[1]) == Success([powered, chain[3]]) by {
      assert chain[..0] + [Applied(chain[1], Some(chain[0].e), chain[2].e)] + chain[3..] == [powered, chain[3]];
    }
    assert IndexOf([powered, chain[3]], 2) == None;
    assert StepAsWritten([powered, chain[3]], chain[2]) == Success([chain[3]]);
    assert order[0] == chain[1] && order[1..] == [chain[2]] && order[1..][1..] == [];
    assert ReduceAllAsWritten([chain[3]], []) == Success([chain[3]]);
    assert ReduceAllAsWritten([powered, chain[3]], [chain[2]]) == Success([chain[3]]);
    assert ReduceAllAsWritten(chain, order) == Success([chain[3]]);
    assert Step(chain, chain[1]) == Failure(IncompleteOperand(pow.token));
    assert |Flat(chain)| > 1 by {
      assert Flat(chain) == Flat(chain[..3]) + Inorder(chain[3].e);
    }
  }

  /** The order for "2 ^ sin 3": exponentiation, then sin. */
  lemma {:induction false} PowerOfFunctionOrder(chain: seq<Link>)
    requires |chain| == 4 && !Pending(chain[0].e) && !Pending(chain[3].e)
    requires AtLevel(chain[1], POW) && AtLevel(chain[2], FUNC)
    ensures Ordered(chain, [POW, FUNC, MUL, ADD]) == [chain[1], chain[2]]
  {
    assert Forward(chain, POW) == [chain[1]] by {
      assert chain[..2][..1] == chain[..1] && chain[..3][..2] == chain[..2] && chain[..3] == chain[..|chain| - 1];
      assert Forward(chain[..1], POW) == [];
      assert Forward(chain[..2], POW) == [chain[1]];
      assert Forward(chain[..3], POW) == [chain[1]];
    }
    assert Backward(chain, FUNC) == [chain[2]] by {
      assert Backward(chain[3..], FUNC) == [];
      assert Backward(chain[2..], FUNC) == [chain[2]];
      assert Backward(chain[1..], FUNC) == [chain[2]];
    }
    ForwardNone(chain, MUL);
    ForwardNone(chain, ADD);
    assert Ordered(chain, [POW]) == [chain[1]] by {
      assert [POW][..0] == [];
    }
    assert Ordered(chain, [POW, FUNC]) == [chain[1], chain[2]] by {
      assert [POW, FUNC][..1] == [POW];
    }
    assert Ordered(chain, [POW, FUNC, MUL]) == [chain[1], chain[2]] by {
      assert [POW, FUNC, MUL][..2] == [POW, FUNC];
    }
    assert [POW, FUNC, MUL, ADD][..3] == [POW, FUNC, MUL];
  }
}
