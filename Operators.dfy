/**
 * Operator descriptors (Operator.java): kind, precedence with its ordering,
 * and the immutable Operator prototype with its numeric transform.
 */
module Operators {

  /** Operator.Kind */
  datatype Kind = UNARY | BINARY

  /** Operator.Precedence; AsInt is the numerical value that fixes the order. */
  datatype Precedence = ADD | MUL | FUNC | POW {
    function AsInt(): int {
      match this
      case ADD => 1
      case MUL => 10
      case FUNC => 20
      case POW => 30
    }
  }

  /** Precedence.values(): the constants in declaration order. */
  function Values(): seq<Precedence> {
    [ADD, MUL, FUNC, POW]
  }

  /** Every constant appears in values(). */
  lemma {:induction false} ValuesComplete()
    ensures forall p: Precedence :: p in Values()
  {
    forall p: Precedence ensures p in Values() {
      match p
      case ADD => assert Values()[0] == p;
      case MUL => assert Values()[1] == p;
      case FUNC => assert Values()[2] == p;
      case POW => assert Values()[3] == p;
    }
  }

  predicate StrictlyDescending(s: seq<Precedence>) {
    forall i, j :: 0 <= i < j < |s| ==> s[i].AsInt() > s[j].AsInt()
  }

  /**
   * TreeSet.add under the comparator (v1, v2) -> v2.val - v1.val: insert p into
   * a sequence kept in descending order of value, or leave it as it is when an
   * element of the same value is already there.
   */
  function InsertDescending(p: Precedence, s: seq<Precedence>): seq<Precedence> {
    if s == [] then [p]
    else if p.AsInt() > s[0].AsInt() then [p] + s
    else if p.AsInt() == s[0].AsInt() then s
    else [s[0]] + InsertDescending(p, s[1..])
  }

  /** TreeSet.addAll: insert the elements one after the other. */
  function SortDescending(ps: seq<Precedence>): seq<Precedence> {
    if ps == [] then [] else InsertDescending(ps[|ps| - 1], SortDescending(ps[..|ps| - 1]))
  }

  lemma {:induction false} InsertDescendingSpec(p: Precedence, s: seq<Precedence>)
    requires StrictlyDescending(s)
    ensures StrictlyDescending(InsertDescending(p, s))
    ensures forall q :: q in InsertDescending(p, s) <==> q == p || q in s
    decreases |s|, 1
  {
    if s == [] {
      assert InsertDescending(p, s) == [p];
    } else if p.AsInt() > s[0].AsInt() {
      assert InsertDescending(p, s) == [p] + s;
      HeadLargest(s);
      ConsDescending(p, s);
    } else if p.AsInt() == s[0].AsInt() {
      assert InsertDescending(p, s) == s;
      assert p == s[0];
    } else {
      var r := InsertDescending(p, s[1..]);
      assert InsertDescending(p, s) == [s[0]] + r;
      InsertBelowHead(p, s);
    }
  }

  /** The recursive case of InsertDescendingSpec: p goes below the head. */
  lemma {:induction false} InsertBelowHead(p: Precedence, s: seq<Precedence>)
    requires StrictlyDescending(s) && s != [] && p.AsInt() < s[0].AsInt()
    ensures StrictlyDescending([s[0]] + InsertDescending(p, s[1..]))
    ensures forall q :: q in [s[0]] + InsertDescending(p, s[1..]) <==> q == p || q in s
    decreases |s|, 0
  {
    var tail := s[1..];
    assert StrictlyDescending(tail);
    InsertDescendingSpec(p, tail);
    var r := InsertDescending(p, tail);
    assert forall q :: q in tail ==> q.AsInt() < s[0].AsInt();
    ConsDescending(s[0], r);
    assert s == [s[0]] + tail;
  }

  /** The head of a strictly descending sequence is its largest element. */
  lemma {:induction false} HeadLargest(s: seq<Precedence>)
    requires StrictlyDescending(s) && s != []
    ensures forall q :: q in s ==> q.AsInt() <= s[0].AsInt()
  {
    forall q | q in s ensures q.AsInt() <= s[0].AsInt() {
      var j :| 0 <= j < |s| && s[j] == q;
      if j > 0 { assert s[0].AsInt() > s[j].AsInt(); }
    }
  }

  /** A value above every element may head a strictly descending sequence. */
  lemma {:induction false} ConsDescending(x: Precedence, r: seq<Precedence>)
    requires StrictlyDescending(r)
    requires forall q :: q in r ==> q.AsInt() < x.AsInt()
    ensures StrictlyDescending([x] + r)
    ensures forall q :: q in [x] + r <==> q == x || q in r
  {
    var t := [x] + r;
    forall i, j | 0 <= i < j < |t| ensures t[i].AsInt() > t[j].AsInt() {
      assert t[j] == r[j - 1];
      if i > 0 { assert t[i] == r[i - 1]; } else { assert r[j - 1] in r; }
    }
  }

  /** The sorted set is strictly descending and holds exactly the elements added. */
  lemma {:induction false} SortDescendingSpec(ps: seq<Precedence>)
    ensures StrictlyDescending(SortDescending(ps))
    ensures forall q :: q in SortDescending(ps) <==> q in ps
  {
    if ps != [] {
      var init := ps[..|ps| - 1];
      SortDescendingSpec(init);
      InsertDescendingSpec(ps[|ps| - 1], SortDescending(init));
      assert forall q :: q in ps <==> q in init || q == ps[|ps| - 1] by {
        assert ps == init + [ps[|ps| - 1]];
      }
    }
  }

  /**
   * Precedence.highToLow: every precedence, from the tightest-binding (largest
   * value) to the loosest.
   */
  function HighToLow(): (r: seq<Precedence>)
    ensures StrictlyDescending(r)
    ensures forall p: Precedence :: p in r
  {
    SortDescendingSpec(Values());
    ValuesComplete();
    SortDescending(Values())
  }

  /** The descending order spelled out: POW, FUNC, MUL, ADD. */
  lemma {:induction false} HighToLowOrder()
    ensures HighToLow() == [POW, FUNC, MUL, ADD]
  {
    assert SortDescending([ADD]) == [ADD];
    assert SortDescending([ADD, MUL]) == [MUL, ADD] by {
      assert [ADD, MUL][..1] == [ADD];
    }
    assert SortDescending([ADD, MUL, FUNC]) == [FUNC, MUL, ADD] by {
      assert [ADD, MUL, FUNC][..2] == [ADD, MUL];
    }
    assert SortDescending(Values()) == [POW, FUNC, MUL, ADD] by {
      assert Values()[..3] == [ADD, MUL, FUNC];
    }
  }

  /** The transform an operator applies: Function<Double, Double> or BiFunction<Double, Double, Double>. */
  datatype Effect =
    | UnaryEffect(apply: real -> real)
    | BinaryEffect(combine: (real, real) -> real)

  /**
   * An operator prototype: its token, precedence and transform. Its kind is
   * the kind of its transform, as both constructors pair them.
   */
  class Operator {
    const token: string
    const prec: Precedence
    const effect: Effect
    const kind: Kind := if effect.UnaryEffect? then UNARY else BINARY

    /** Operator(String, Precedence, BiFunction): a binary operator. */
    constructor Binary(token: string, prec: Precedence, effect: (real, real) -> real)
      ensures this.token == token && this.prec == prec
      ensures kind == BINARY && this.effect == BinaryEffect(effect)
    {
      this.token := token;
      this.prec := prec;
      this.effect := BinaryEffect(effect);
    }

    /** Operator(String, Precedence, Function): a unary operator or function. */
    constructor Unary(token: string, prec: Precedence, effect: real -> real)
      ensures this.token == token && this.prec == prec
      ensures kind == UNARY && this.effect == UnaryEffect(effect)
    {
      this.token := token;
      this.prec := prec;
      this.effect := UnaryEffect(effect);
    }
  }
}
