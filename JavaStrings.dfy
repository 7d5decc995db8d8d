/**
 * The java.lang.String and java.lang.Integer operations the parser relies on,
 * with the JDK's semantics: trim, split(" "), contains, indexOf,
 * Integer.toString and Integer.valueOf.
 */
module JavaStrings {
  import opened Wrappers

  predicate IsDigit(c: char) {
    '0' <= c <= '9'
  }

  predicate AllDigits(s: string) {
    forall i :: 0 <= i < |s| ==> IsDigit(s[i])
  }

  /** A character that String.trim removes: any code point up to and including the space. */
  predicate IsBlank(c: char) {
    c <= ' '
  }

  predicate AllBlank(s: string) {
    forall i :: 0 <= i < |s| ==> IsBlank(s[i])
  }

  // ---------------------------------------------------------------- decimal numbers

  function DigitChar(d: nat): (c: char)
    requires d < 10
    ensures IsDigit(c)
  {
    ('0' as int + d) as char
  }

  function DigitValue(c: char): (d: nat)
    requires IsDigit(c)
    ensures d < 10
  {
    c as int - '0' as int
  }

  /** The value of a run of decimal digits, most significant first. */
  function DigitsValue(s: string): nat
    requires AllDigits(s)
  {
    if s == [] then 0 else DigitsValue(s[..|s| - 1]) * 10 + DigitValue(s[|s| - 1])
  }

  /** Integer.toString(n) for n >= 0: the shortest decimal rendering. */
  function Decimal(n: nat): (s: string)
    ensures |s| > 0 && AllDigits(s)
    ensures |s| > 1 ==> s[0] != '0'
  {
    if n < 10 then [DigitChar(n)] else Decimal(n / 10) + [DigitChar(n % 10)]
  }

  lemma {:induction false} DecimalRoundTrip(n: nat)
    ensures DigitsValue(Decimal(n)) == n
  {
    if n >= 10 {
      DecimalRoundTrip(n / 10);
      var s := Decimal(n);
      assert s[..|s| - 1] == Decimal(n / 10);
    }
  }

  const INT_MIN: int := -0x8000_0000
  const INT_MAX: int := 0x7fff_ffff

  /**
   * Integer.valueOf(s) with radix 10: an optional sign, then at least one digit,
   * and a value that fits in 32 bits; None stands for NumberFormatException.
   */
  function ParseInt(s: string): (r: Option<int>)
    ensures r.Some? ==> INT_MIN <= r.value <= INT_MAX
    ensures r.Some? ==> |s| > 0
  {
    if s == [] then None
    else
      var signed := s[0] == '-' || s[0] == '+';
      var body := if signed then s[1..] else s;
      if body == [] || !AllDigits(body) then None
      else
        var magnitude: int := DigitsValue(body);
        var v: int := if s[0] == '-' then -magnitude else magnitude;
        if INT_MIN <= v <= INT_MAX then Some(v) else None
  }

  /** Rendering a non-negative int and reading it back gives it back. */
  lemma {:induction false} DecimalParseRoundTrip(n: nat)
    requires n <= INT_MAX
    ensures ParseInt(Decimal(n)) == Some(n)
  {
    DecimalRoundTrip(n);
  }

  // ---------------------------------------------------------------- trim

  /** The number of leading characters String.trim drops. */
  function LeadingBlanks(s: string): (k: nat)
    ensures k <= |s| && AllBlank(s[..k])
    ensures k < |s| ==> !IsBlank(s[k])
  {
    if s != [] && IsBlank(s[0]) then
      var k := 1 + LeadingBlanks(s[1..]);
      assert s[..k] == [s[0]] + s[1..][..k - 1];
      k
    else 0
  }

  /** The number of trailing characters String.trim drops. */
  function TrailingBlanks(s: string): (k: nat)
    ensures k <= |s| && AllBlank(s[|s| - k..])
    ensures k < |s| ==> !IsBlank(s[|s| - k - 1])
  {
    if s != [] && IsBlank(s[|s| - 1]) then
      var k := 1 + TrailingBlanks(s[..|s| - 1]);
      assert s[|s| - k..] == s[..|s| - 1][|s| - k..] + [s[|s| - 1]];
      k
    else 0
  }

  /**
   * String.trim: the slice of s left after dropping every leading and trailing
   * character up to the space; the result starts and ends with a visible character.
   */
  function Trim(s: string): (r: string)
    ensures r == s[LeadingBlanks(s)..|s| - TrailingBlanks(s[LeadingBlanks(s)..])]
    ensures r != [] ==> !IsBlank(r[0]) && !IsBlank(r[|r| - 1])
  {
    var st := LeadingBlanks(s);
    var rest := s[st..];
    rest[..|rest| - TrailingBlanks(rest)]
  }

  /** What trim removes are blanks: s is the trimmed text with blanks on either side. */
  lemma {:induction false} TrimFrame(s: string) returns (front: string, back: string)
    ensures s == front + Trim(s) + back
    ensures AllBlank(front) && AllBlank(back)
  {
    var st := LeadingBlanks(s);
    var rest := s[st..];
    var en := |rest| - TrailingBlanks(rest);
    front, back := s[..st], rest[en..];
    assert AllBlank(front) && AllBlank(back);
    assert s == front + rest[..en] + back by {
      SliceThree(s, st, en);
    }
  }

  lemma {:induction false} SliceThree(s: string, st: nat, en: nat)
    requires st <= |s| && en <= |s| - st
    ensures s == s[..st] + s[st..][..en] + s[st..][en..]
  {
    assert s == s[..st] + s[st..];
    assert s[st..] == s[st..][..en] + s[st..][en..];
  }

  // ---------------------------------------------------------------- split(" ")

  /** The texts between single spaces; there is always one more than there are spaces. */
  function Pieces(s: string): (r: seq<string>)
    ensures |r| >= 1
    ensures forall i :: 0 <= i < |r| ==> ' ' !in r[i]
  {
    if s == [] then [[]]
    else
      var rest := Pieces(s[1..]);
      if s[0] == ' ' then [[]] + rest else [[s[0]] + rest[0]] + rest[1..]
  }

  /** Joins pieces with single spaces: the inverse of Pieces. */
  function Join(pieces: seq<string>): string
    requires |pieces| >= 1
  {
    if |pieces| == 1 then pieces[0] else pieces[0] + " " + Join(pieces[1..])
  }

  lemma {:induction false} JoinPieces(s: string)
    ensures Join(Pieces(s)) == s
  {
    if s != [] {
      JoinPieces(s[1..]);
      var rest := Pieces(s[1..]);
      if s[0] == ' ' {
        assert Pieces(s)[1..] == rest;
      } else {
        var p := Pieces(s);
        if |rest| == 1 {
          assert p == [[s[0]] + rest[0]];
        } else {
          assert p[1..] == rest[1..];
          assert Join(rest) == rest[0] + " " + Join(rest[1..]);
        }
      }
    }
  }

  function DropTrailingEmpty(pieces: seq<string>): (r: seq<string>)
    ensures |r| <= |pieces| && r == pieces[..|r|]
    ensures r != [] ==> r[|r| - 1] != []
    ensures forall i :: |r| <= i < |pieces| ==> pieces[i] == []
  {
    if pieces != [] && pieces[|pieces| - 1] == [] then DropTrailingEmpty(pieces[..|pieces| - 1]) else pieces
  }

  /**
   * String.split(" "): the whole string when it holds no space, otherwise its
   * pieces with the trailing empty ones removed.
   */
  function Split(s: string): (r: seq<string>)
    ensures forall i :: 0 <= i < |r| ==> ' ' !in r[i]
    ensures ' ' !in s ==> r == [s]
    ensures ' ' in s ==> |r| <= |Pieces(s)| && r == Pieces(s)[..|r|]
  {
    if ' ' !in s then [s] else DropTrailingEmpty(Pieces(s))
  }

  // ---------------------------------------------------------------- searching

  /** needle occurs in hay starting at position i. */
  predicate OccursAt(hay: string, needle: string, i: nat) {
    i + |needle| <= |hay| && hay[i..i + |needle|] == needle
  }

  lemma {:induction false} OccursShift(hay: string, needle: string, i: nat)
    requires hay != []
    ensures OccursAt(hay, needle, i + 1) <==> OccursAt(hay[1..], needle, i)
  {
    if i + 1 + |needle| <= |hay| {
      assert hay[i + 1..i + 1 + |needle|] == hay[1..][i..i + |needle|];
    }
  }

  /** String.indexOf(String), or Matcher.find for a literal pattern: the first position where needle occurs. */
  function Find(hay: string, needle: string): (r: Option<nat>)
    ensures r.Some? ==> OccursAt(hay, needle, r.value)
    ensures r.Some? ==> forall i: nat :: i < r.value ==> !OccursAt(hay, needle, i)
    ensures r.None? ==> forall i: nat :: !OccursAt(hay, needle, i)
    decreases |hay|
  {
    if needle <= hay then
      assert hay[..|needle|] == needle;
      Some(0)
    else if hay == [] then None
    else
      assert !OccursAt(hay, needle, 0);
      match Find(hay[1..], needle)
      case None =>
        assert forall i: nat :: i >= 1 ==> !OccursAt(hay, needle, i) by {
          forall i: nat | i >= 1 ensures !OccursAt(hay, needle, i) { OccursShift(hay, needle, i - 1); }
        }
        None
      case Some(k) =>
        OccursShift(hay, needle, k);
        assert forall i: nat :: 1 <= i < k + 1 ==> !OccursAt(hay, needle, i) by {
          forall i: nat | 1 <= i < k + 1 ensures !OccursAt(hay, needle, i) { OccursShift(hay, needle, i - 1); }
        }
        Some(k + 1)
  }

  /** String.contains, which the JDK defines as indexOf(needle) >= 0. */
  predicate Contains(hay: string, needle: string) {
    Find(hay, needle).Some?
  }

  /** A string contains every string that occurs in it at some position. */
  lemma {:induction false} ContainsAt(hay: string, needle: string, i: nat)
    requires OccursAt(hay, needle, i)
    ensures Contains(hay, needle)
  {
  }

  /** Containment between strings of the same length is equality. */
  lemma {:induction false} ContainsSameLength(hay: string, needle: string)
    requires |hay| == |needle|
    ensures Contains(hay, needle) <==> hay == needle
  {
    if hay == needle {
      assert OccursAt(hay, needle, 0);
    }
  }

  /** String.toLowerCase leaves s as it is (ASCII letters only). */
  predicate IsLowerCase(s: string) {
    forall i :: 0 <= i < |s| ==> !('A' <= s[i] <= 'Z')
  }
}
