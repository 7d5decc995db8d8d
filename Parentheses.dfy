/**
 * Parenthesis structure (ExpressionParser.checkParenthesesAreCorrect and
 * ExpressionParser.substringInParentheses): nesting depth, balanced strings,
 * the checking scan and the extraction of a parenthesised block.
 */
module Parentheses {

  /** How one character changes the nesting depth. */
  function Delta(c: char): int {
    if c == '(' then 1 else if c == ')' then -1 else 0
  }

  /** The depth reached after scanning s from depth zero: its '(' count minus its ')' count. */
  function Depth(s: string): int {
    if s == [] then 0 else Delta(s[0]) + Depth(s[1..])
  }

  /** Scanning s from depth d, the depth never goes negative. */
  predicate NeverBelow(s: string, d: int) {
    s == [] || (d + Delta(s[0]) >= 0 && NeverBelow(s[1..], d + Delta(s[0])))
  }

  /** Every ')' closes an earlier '(' and every '(' is closed. */
  predicate Balanced(s: string) {
    NeverBelow(s, 0) && Depth(s) == 0
  }

  predicate ParenFree(s: string) {
    '(' !in s && ')' !in s
  }

  /** The number of '(' in s. */
  function OpenCount(s: string): nat {
    if s == [] then 0 else (if s[0] == '(' then 1 else 0) + OpenCount(s[1..])
  }

  lemma {:induction false} DepthConcat(a: string, b: string)
    ensures Depth(a + b) == Depth(a) + Depth(b)
  {
    if a == [] {
      assert a + b == b;
    } else {
      assert (a + b)[0] == a[0] && (a + b)[1..] == a[1..] + b;
      DepthConcat(a[1..], b);
    }
  }

  lemma {:induction false} OpenCountConcat(a: string, b: string)
    ensures OpenCount(a + b) == OpenCount(a) + OpenCount(b)
  {
    if a == [] {
      assert a + b == b;
    } else {
      assert (a + b)[0] == a[0] && (a + b)[1..] == a[1..] + b;
      OpenCountConcat(a[1..], b);
    }
  }

  lemma {:induction false} NeverBelowConcat(a: string, b: string, d: int)
    ensures NeverBelow(a + b, d) <==> NeverBelow(a, d) && NeverBelow(b, d + Depth(a))
  {
    if a != [] {
      assert (a + b)[1..] == a[1..] + b;
      NeverBelowConcat(a[1..], b, d + Delta(a[0]));
    } else {
      assert a + b == b;
    }
  }

  /** A scan that never goes negative ends at a non-negative depth. */
  lemma {:induction false} NeverBelowEnd(s: string, d: int)
    requires d >= 0 && NeverBelow(s, d)
    ensures d + Depth(s) >= 0
  {
    if s != [] {
      NeverBelowEnd(s[1..], d + Delta(s[0]));
    }
  }

  /** In particular every prefix of a balanced string has a non-negative depth. */
  lemma {:induction false} PrefixDepth(s: string, k: nat)
    requires k <= |s| && NeverBelow(s, 0)
    ensures Depth(s[..k]) >= 0
  {
    assert s == s[..k] + s[k..];
    NeverBelowConcat(s[..k], s[k..], 0);
    NeverBelowEnd(s[..k], 0);
  }

  lemma {:induction false} ParenFreeDepth(s: string, d: int)
    requires ParenFree(s) && d >= 0
    ensures Depth(s) == 0 && NeverBelow(s, d) && OpenCount(s) == 0
  {
    if s != [] {
      assert s[0] in s;
      assert forall c :: c in s[1..] ==> c in s;
      ParenFreeDepth(s[1..], d);
    }
  }

  /** Text without parentheses on either side changes nothing about balance. */
  lemma {:induction false} BalancedFramed(u: string, v: string, w: string)
    requires ParenFree(u) && ParenFree(w)
    ensures Balanced(u + v + w) <==> Balanced(v)
    ensures OpenCount(u + v + w) == OpenCount(v)
  {
    ParenFreeDepth(u, 0);
    ParenFreeDepth(w, 0);
    DepthConcat(u + v, w);
    DepthConcat(u, v);
    NeverBelowConcat(u + v, w, 0);
    NeverBelowConcat(u, v, 0);
    OpenCountConcat(u + v, w);
    OpenCountConcat(u, v);
    if Balanced(v) {
      ParenFreeDepth(w, Depth(v));
    } else if NeverBelow(v, 0) {
      NeverBelowEnd(v, 0);
      ParenFreeDepth(w, Depth(v));
    }
  }

  lemma {:induction false} BalancedConcat(a: string, b: string)
    requires Balanced(a) && Balanced(b)
    ensures Balanced(a + b)
  {
    DepthConcat(a, b);
    NeverBelowConcat(a, b, 0);
  }

  lemma {:induction false} BalancedWrap(a: string)
    requires Balanced(a)
    ensures Balanced("(" + a + ")")
  {
    var open, close := "(", ")";
    DepthConcat(open, a);
    DepthConcat(open + a, close);
    NeverBelowConcat(open, a, 0);
    NeverBelowConcat(open + a, close, 0);
    assert NeverBelow(a, 1) by {
      NeverBelowShift(a, 0, 1);
    }
  }

  /** Starting deeper never hurts. */
  lemma {:induction false} NeverBelowShift(s: string, d: int, e: int)
    requires NeverBelow(s, d) && d <= e
    ensures NeverBelow(s, e)
  {
    if s != [] {
      NeverBelowShift(s[1..], d + Delta(s[0]), e + Delta(s[0]));
    }
  }

  /**
   * checkParenthesesAreCorrect: -1 when s is balanced; otherwise the first index
   * at which the depth goes negative, or |s| when only openers are left unclosed.
   */
  method CheckParenthesesAreCorrect(s: string) returns (errpos: int)
    ensures -1 <= errpos <= |s|
    ensures errpos == -1 <==> Balanced(s)
    ensures 0 <= errpos < |s| ==> NeverBelow(s[..errpos], 0) && Depth(s[..errpos + 1]) < 0
    ensures errpos == |s| ==> NeverBelow(s, 0) && Depth(s) > 0
  {
    errpos := -1;
    var b := 0;
    var i := 0;
    while i < |s|
      invariant 0 <= i <= |s|
      invariant b == Depth(s[..i]) && NeverBelow(s[..i], 0)
      invariant errpos == -1
    {
      var c := s[i];
      if c == '(' {
        b := b + 1;
      } else if c == ')' {
        b := b - 1;
      }
      assert s[..i + 1] == s[..i] + [c];
      DepthConcat(s[..i], [c]);
      NeverBelowConcat(s[..i], [c], 0);
      if b < 0 {
        errpos := i;
        assert s == s[..i + 1] + s[i + 1..];
        NeverBelowConcat(s[..i + 1], s[i + 1..], 0);
        break;
      }
      i := i + 1;
    }
    if errpos == -1 {
      assert s[..i] == s;
      NeverBelowEnd(s, 0);
    }
    if b > 0 {
      errpos := |s|;
    }
  }

  /** The depth of s[from..] scanned up to and including position k. */
  function DepthThrough(s: string, from: nat, k: nat): int
    requires from <= k < |s|
  {
    Depth(s[from..k + 1])
  }

  /** Scanning one more character. */
  lemma {:induction false} AppendChar(t: string, c: char)
    ensures Depth(t + [c]) == Depth(t) + Delta(c)
    ensures NeverBelow(t + [c], 0) <==> NeverBelow(t, 0) && Depth(t) + Delta(c) >= 0
  {
    DepthConcat(t, [c]);
    NeverBelowConcat(t, [c], 0);
  }

  /** Inside the block opened at pos (depth still positive at p) a balanced string goes on. */
  lemma {:induction false} BlockContinues(s: string, pos: nat, p: nat)
    requires pos <= p < |s| && s[pos] == '(' && Balanced(s)
    requires 1 + Depth(s[pos + 1..p + 1]) >= 1
    ensures p + 1 < |s|
  {
    PrefixDepth(s, pos);
    assert s[..p + 1] == s[..pos] + ([s[pos]] + s[pos + 1..p + 1]);
    DepthConcat(s[..pos], [s[pos]] + s[pos + 1..p + 1]);
    DepthConcat([s[pos]], s[pos + 1..p + 1]);
    assert s == s[..p + 1] + s[p + 1..];
    DepthConcat(s[..p + 1], s[p + 1..]);
  }

  /**
   * The position of the ')' that closes the '(' at pos, scanning on from
   * p + 1 while the text after pos, read up to p, is still open.
   */
  function CloseFrom(s: string, pos: nat, p: nat): (q: nat)
    requires pos <= p && p + 1 < |s| && s[pos] == '(' && Balanced(s)
    requires Depth(s[pos + 1..p + 1]) >= 0 && NeverBelow(s[pos + 1..p + 1], 0)
    ensures p < q < |s| && s[q] == ')' && Balanced(s[pos + 1..q])
    decreases |s| - p
  {
    var c := s[p + 1];
    assert s[pos + 1..p + 2] == s[pos + 1..p + 1] + [c];
    AppendChar(s[pos + 1..p + 1], c);
    if Depth(s[pos + 1..p + 1]) + Delta(c) < 0 then p + 1
    else
      BlockContinues(s, pos, p + 1);
      CloseFrom(s, pos, p + 1)
  }

  /** The text strictly inside the parentheses opened at pos. */
  function BlockAt(s: string, pos: nat): (inner: string)
    requires pos < |s| && s[pos] == '(' && Balanced(s)
    ensures pos + 1 + |inner| < |s|
    ensures inner == s[pos + 1..pos + 1 + |inner|] && s[pos + 1 + |inner|] == ')'
    ensures Balanced(inner)
  {
    BlockContinues(s, pos, pos);
    s[pos + 1..CloseFrom(s, pos, pos)]
  }

  /**
   * Only one balanced text, followed by ')', follows the '(' at pos: the
   * block ends at the first point where the depth scanned from pos is back
   * to zero.
   */
  lemma {:induction false} BlockUnique(s: string, pos: nat, a: string, b: string)
    requires pos + 1 + |a| < |s| && s[pos] == '('
    requires a == s[pos + 1..pos + 1 + |a|] && s[pos + 1 + |a|] == ')' && Balanced(a)
    requires pos + 1 + |b| < |s|
    requires b == s[pos + 1..pos + 1 + |b|] && s[pos + 1 + |b|] == ')' && Balanced(b)
    ensures a == b
  {
    BalancedInnerIsMatching(s, pos, a);
    BalancedInnerIsMatching(s, pos, b);
    assert DepthThrough(s, pos, pos + 1 + |a|) == 0 == DepthThrough(s, pos, pos + 1 + |b|);
  }

  /**
   * substringInParentheses: given a balanced string and the position of a '(',
   * the text strictly between it and the ')' that closes it (BalancedInnerIsMatching).
   * That text is itself balanced.
   */
  method SubstringInParentheses(s: string, pos: nat) returns (inner: string)
    requires pos < |s| && s[pos] == '(' && Balanced(s)
    ensures pos + 1 + |inner| < |s|
    ensures inner == s[pos + 1..pos + 1 + |inner|] && s[pos + 1 + |inner|] == ')'
    ensures Balanced(inner)
    ensures inner == BlockAt(s, pos)
  {
    var b := 1;
    var p := pos;
    BlockContinues(s, pos, p);
    while true
      invariant pos <= p && p + 1 < |s|
      invariant b >= 1 && b == 1 + Depth(s[pos + 1..p + 1])
      invariant NeverBelow(s[pos + 1..p + 1], 0)
      decreases |s| - p
    {
      p := p + 1;
      var c := s[p];
      if c == '(' {
        b := b + 1;
      } else if c == ')' {
        b := b - 1;
      }
      assert s[pos + 1..p + 1] == s[pos + 1..p] + [c];
      AppendChar(s[pos + 1..p], c);
      if b <= 0 {
        break;
      }
      BlockContinues(s, pos, p);
    }
    inner := s[pos + 1..p];
    BlockUnique(s, pos, inner, BlockAt(s, pos));
  }

  /**
   * What substringInParentheses returns ends at the ')' matching the '(' at pos:
   * scanning from pos, the depth stays positive inside and is back to zero there.
   */
  lemma {:induction false} BalancedInnerIsMatching(s: string, pos: nat, inner: string)
    requires pos + 1 + |inner| < |s| && s[pos] == '('
    requires inner == s[pos + 1..pos + 1 + |inner|] && s[pos + 1 + |inner|] == ')'
    requires Balanced(inner)
    ensures forall k :: pos <= k < pos + 1 + |inner| ==> DepthThrough(s, pos, k) > 0
    ensures DepthThrough(s, pos, pos + 1 + |inner|) == 0
  {
    forall k | pos <= k < pos + 1 + |inner|
      ensures DepthThrough(s, pos, k) > 0
    {
      assert s[pos..k + 1] == [s[pos]] + inner[..k - pos];
      DepthConcat([s[pos]], inner[..k - pos]);
      PrefixDepth(inner, k - pos);
    }
    assert s[pos..pos + 2 + |inner|] == [s[pos]] + inner + [')'];
    DepthConcat([s[pos]] + inner, [')']);
    DepthConcat([s[pos]], inner);
  }
}
