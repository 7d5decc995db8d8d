/**
 * The lexical patterns of the parser (ParserEx.java), as predicates on strings:
 * the shape of a number literal, the default valid-character class and the
 * marker of a parenthesised-block placeholder.
 */
module ParserEx {
  import opened JavaStrings

  /** The length of the run of digits s starts with. */
  function DigitRun(s: string): (k: nat)
    ensures k <= |s| && AllDigits(s[..k])
    ensures k < |s| ==> !IsDigit(s[k])
  {
    if s != [] && IsDigit(s[0]) then
      var k := 1 + DigitRun(s[1..]);
      assert s[..k] == [s[0]] + s[1..][..k - 1];
      k
    else 0
  }

  /**
   * IS_A_NUMBER, the pattern ^(\d+\.?\d*)$ matched against the whole string:
   * the greedy run of digits is not empty, and it ends the string or is followed
   * by one dot and digits only.
   */
  predicate IsNumber(s: string) {
    var k := DigitRun(s);
    k >= 1 && (k == |s| || (s[k] == '.' && AllDigits(s[k + 1..])))
  }

  /**
   * The language of \d+\.?\d*: one or more digits, or one or more digits, a dot
   * and zero or more digits.
   */
  lemma {:induction false} IsNumberShape(s: string)
    ensures IsNumber(s) <==>
      (|s| >= 1 && AllDigits(s)) ||
      (exists k :: 1 <= k < |s| && s[k] == '.' && AllDigits(s[..k]) && AllDigits(s[k + 1..]))
  {
    var run := DigitRun(s);
    if |s| >= 1 && AllDigits(s) {
      assert run == |s|;
    }
    if k :| 1 <= k < |s| && s[k] == '.' && AllDigits(s[..k]) && AllDigits(s[k + 1..]) {
      assert forall i :: 0 <= i < k ==> IsDigit(s[i]) by {
        forall i | 0 <= i < k ensures IsDigit(s[i]) { assert s[..k][i] == s[i]; }
      }
      assert forall i :: 0 <= i < run ==> s[i] != '.' by {
        forall i | 0 <= i < run ensures s[i] != '.' { assert s[..run][i] == s[i]; }
      }
      assert run == k;
    }
    if IsNumber(s) && run < |s| {
      assert 1 <= run < |s| && s[run] == '.' && AllDigits(s[..run]) && AllDigits(s[run + 1..]);
    }
  }

  /** A string that IS_A_NUMBER accepts holds at most one dot. */
  lemma {:induction false} NumberHasAtMostOneDot(s: string)
    requires IsNumber(s)
    ensures forall i, j :: 0 <= i < j < |s| && s[i] == '.' ==> s[j] != '.'
  {
    var k := DigitRun(s);
    forall i, j | 0 <= i < j < |s| && s[i] == '.'
      ensures s[j] != '.'
    {
      assert i >= k by {
        assert forall m :: 0 <= m < k ==> s[..k][m] == s[m];
      }
      assert i == k;
      assert s[k + 1..][j - k - 1] == s[j];
    }
  }

  /** The cases the test suite checks, and the trailing/leading dot cases. */
  lemma {:induction false} IsNumberExamples()
    ensures !IsNumber("") && !IsNumber("1as") && !IsNumber("112..43")
    ensures IsNumber("1") && IsNumber("12.7")
    ensures IsNumber("2.") && !IsNumber(".5")
  {
    assert DigitRun("1as") == 1 by {
      assert DigitRun("as") == 0;
    }
    assert DigitRun("112..43") == 3 by {
      assert "2..43"[1..] == "..43";
      assert DigitRun("..43") == 0;
      assert DigitRun("2..43") == 1;
      assert "12..43"[1..] == "2..43";
      assert DigitRun("12..43") == 2;
      assert "112..43"[1..] == "12..43";
    }
    assert "112..43"[4..] == ".43" && !IsDigit(".43"[0]);
    assert DigitRun("12.7") == 2 by {
      assert "12.7"[1..] == "2.7";
      assert "2.7"[1..] == ".7";
    }
    assert "12.7"[3..] == "7";
    assert DigitRun("2.") == 1 by {
      assert "2."[1..] == ".";
    }
    assert DigitRun("1") == 1 by {
      assert "1"[1..] == "";
    }
  }

  function Pow10(n: nat): (r: nat)
    ensures r >= 1
  {
    if n == 0 then 1 else 10 * Pow10(n - 1)
  }

  /**
   * Double.valueOf of a string IS_A_NUMBER accepts, taken exactly: the integer
   * part plus the fraction digits over the matching power of ten.
   */
  function NumberValue(s: string): (r: real)
    requires IsNumber(s)
    ensures r >= 0.0
  {
    var k := DigitRun(s);
    var whole := DigitsValue(s[..k]) as real;
    if k == |s| then whole
    else whole + DigitsValue(s[k + 1..]) as real / Pow10(|s| - k - 1) as real
  }

  /** A literal written without a dot denotes the integer its digits spell. */
  lemma {:induction false} NumberValueOfDecimal(n: nat)
    ensures IsNumber(Decimal(n)) && NumberValue(Decimal(n)) == n as real
  {
    var s := Decimal(n);
    var k := DigitRun(s);
    assert k == |s|;
    assert s[..k] == s;
    DecimalRoundTrip(n);
  }

  /** \s in a Java character class: space, tab, newline, vertical tab, form feed, carriage return. */
  predicate IsWhitespace(c: char) {
    c == ' ' || c == '\t' || c == '\n' || c == '\U{0B}' || c == '\U{0C}' || c == '\r'
  }

  /** A character of DEFAULT_VALID_CHARS, the class [a-z\s\d\.\(\)]. */
  predicate IsDefaultValidChar(c: char) {
    ('a' <= c <= 'z') || IsWhitespace(c) || IsDigit(c) || c == '.' || c == '(' || c == ')'
  }

  /** DEFAULT_VALID_CHARS matched against the whole string. */
  predicate DefaultValidChars(s: string) {
    forall i :: 0 <= i < |s| ==> IsDefaultValidChar(s[i])
  }

  /** The text of the placeholder ATOM pattern. */
  const ATOM: string := "ATOM"
}
