/**
 * The rules of the operator registry (ExpressionParser.addOperator and
 * ExpressionParser.recalculateValidChars) as values: when two operators
 * clash, which characters the registered tokens make valid, and the default
 * operator set loadDefaultKnownOperators registers.
 */
module Registry {
  import opened Wrappers
  import opened JavaStrings
  import opened Operators

  /** An operator as the registry sees it: its kind and its token. */
  type Entry = (Kind, string)

  /**
   * Two registry entries clash: the same kind and the same token, or one
   * token occurring inside the other while their lengths differ.
   */
  predicate Clash(a: Entry, b: Entry) {
    (a.0 == b.0 && a.1 == b.1) || ((Contains(a.1, b.1) || Contains(b.1, a.1)) && |a.1| != |b.1|)
  }

  /** No two different entries clash. */
  predicate NoClash(entries: set<Entry>) {
    forall a, b :: a in entries && b in entries && a != b ==> !Clash(a, b)
  }

  /** The new entry clashes with a known one: the scan over the known operators returns false. */
  predicate Conflicts(entries: set<Entry>, e: Entry) {
    exists k :: k in entries && Clash(k, e)
  }

  /** Adding an entry that clashes with none of the known ones keeps the registry free of clashes. */
  lemma {:induction false} AddKeepsNoClash(entries: set<Entry>, e: Entry)
    requires NoClash(entries) && !Conflicts(entries, e)
    ensures NoClash(entries + {e})
  {
    forall a, b | a in entries + {e} && b in entries + {e} && a != b
      ensures !Clash(a, b)
    {
      if a == e {
        assert !Clash(b, e);
      } else if b == e {
        assert !Clash(a, e);
      }
    }
  }

  /**
   * In a registry without clashes no token occurs inside another one except
   * itself: a unary and a binary operator may share a token, nothing else
   * overlaps.
   */
  lemma {:induction false} TokensDoNotOverlap(entries: set<Entry>, a: Entry, b: Entry, i: nat)
    requires NoClash(entries) && a in entries && b in entries
    requires OccursAt(b.1, a.1, i)
    ensures a.1 == b.1
    ensures a.0 != b.0 ==> a != b
  {
    ContainsAt(b.1, a.1, i);
    if |a.1| != |b.1| {
      assert Clash(a, b);
    } else {
      ContainsSameLength(b.1, a.1);
    }
  }

  /** A string cannot contain a longer one. */
  lemma {:induction false} NotContainsLonger(hay: string, needle: string)
    requires |needle| > |hay|
    ensures !Contains(hay, needle)
  {
  }

  /** A string that contains a needle holds the needle's first character. */
  lemma {:induction false} ContainsFirstChar(hay: string, needle: string)
    requires needle != []
    ensures Contains(hay, needle) ==> needle[0] in hay
  {
    var r := Find(hay, needle);
    if r.Some? {
      var i := r.value;
      assert hay[i..i + |needle|][0] == needle[0];
      assert hay[i] in hay;
    }
  }

  // ---------------------------------------------------------------- valid characters

  /** The characters of one string. */
  function CharsOf(s: string): set<char> {
    set c | c in s
  }

  /** The characters the registered tokens use; they are valid in an expression besides the default ones. */
  function TokenChars(tokens: set<string>): set<char> {
    set t, c | t in tokens && c in t :: c
  }

  lemma {:induction false} CharsOfConcat(a: string, b: string)
    ensures CharsOf(a + b) == CharsOf(a) + CharsOf(b)
  {
    assert forall c :: c in a + b <==> c in a || c in b;
  }

  lemma {:induction false} TokenCharsAdd(tokens: set<string>, t: string)
    ensures TokenChars(tokens + {t}) == TokenChars(tokens) + CharsOf(t)
  {
  }

  /**
   * knownOps() with its cache: the cached token set when there is one,
   * otherwise the registry's tokens, which then fill the cache.
   */
  function KnownOps(tokens: set<string>, cache: Option<set<string>>): (r: (set<string>, Option<set<string>>))
    ensures r.1 == Some(r.0)
  {
    if cache.Some? then (cache.value, cache) else (tokens, Some(tokens))
  }

  /**
   * The token characters a successful addOperator leaves valid, as written:
   * the check for a registered operator fills the cache from the registry
   * before the new token is put in, and recalculateValidChars then reads the
   * cache rather than the registry; the cache is emptied only afterwards.
   */
  function ValidTokenCharsAfterAddAsWritten(tokens: set<string>, cache: Option<set<string>>, tok: string): set<char> {
    var (_, filled) := KnownOps(tokens, cache);
    var (seen, _) := KnownOps(tokens + {tok}, filled);
    TokenChars(seen)
  }

  /**
   * The new token's characters are left out: whenever the cache agrees with
   * the registry on entry (it is either empty or was filled from the current
   * registry), what addOperator leaves valid is exactly what was valid
   * before the operator was added.
   */
  lemma {:induction false} AddedTokenCharsStale(tokens: set<string>, cache: Option<set<string>>, tok: string)
    requires cache.None? || cache == Some(tokens)
    ensures ValidTokenCharsAfterAddAsWritten(tokens, cache, tok) == TokenChars(tokens)
  {
  }

  /**
   * After clearKnownOperators, adding the binary token "%" leaves '%'
   * invalid, although the registry now holds "%": every expression using
   * the new operator is rejected as holding an invalid character.
   */
  lemma {:induction false} PercentStaysInvalid()
    ensures '%' !in ValidTokenCharsAfterAddAsWritten({}, None, "%")
    ensures '%' in TokenChars({"%"})
  {
    assert '%' in "%";
  }

  // ---------------------------------------------------------------- the default operators

  /** The tokens loadDefaultKnownOperators registers as unary operators, all at FUNC precedence. */
  function DefaultUnaries(): map<string, Precedence> {
    map["-" := FUNC, "+" := FUNC, "ln" := FUNC, "exp" := FUNC, "sin" := FUNC, "cos" := FUNC, "tg" := FUNC]
  }

  /** The tokens loadDefaultKnownOperators registers as binary operators, with their precedences. */
  function DefaultBinaries(): map<string, Precedence> {
    map["+" := ADD, "-" := ADD, "*" := MUL, "/" := MUL, "^" := POW]
  }

  function DefaultEntries(): set<Entry> {
    {(UNARY, "-"), (UNARY, "+"), (UNARY, "ln"), (UNARY, "exp"), (UNARY, "sin"), (UNARY, "cos"), (UNARY, "tg"),
     (BINARY, "+"), (BINARY, "-"), (BINARY, "*"), (BINARY, "/"), (BINARY, "^")}
  }

  /** The k-th default operator, counted without building the whole order. */
  function DefaultAt(k: nat): Entry {
    if k == 0 then (BINARY, "+") else if k == 1 then (BINARY, "-") else if k == 2 then (BINARY, "*")
    else if k == 3 then (BINARY, "/") else if k == 4 then (BINARY, "^") else if k == 5 then (UNARY, "-")
    else if k == 6 then (UNARY, "+") else if k == 7 then (UNARY, "ln") else if k == 8 then (UNARY, "exp")
    else if k == 9 then (UNARY, "sin") else if k == 10 then (UNARY, "cos") else (UNARY, "tg")
  }

  lemma {:induction false} DefaultOrderAt(k: nat)
    requires k < |DefaultOrder()|
    ensures DefaultOrder()[k] == DefaultAt(k)
  {
  }

  /** The order in which loadDefaultKnownOperators registers the default operators. */
  function DefaultOrder(): seq<Entry> {
    [(BINARY, "+"), (BINARY, "-"), (BINARY, "*"), (BINARY, "/"), (BINARY, "^"),
     (UNARY, "-"), (UNARY, "+"), (UNARY, "ln"), (UNARY, "exp"), (UNARY, "sin"), (UNARY, "cos"), (UNARY, "tg")]
  }

  /** The first k default operators in registration order. */
  function DefaultPrefix(k: nat): set<Entry>
    requires k <= |DefaultOrder()|
  {
    set i | 0 <= i < k :: DefaultOrder()[i]
  }

  /** Before the first default operator the registry is empty. */
  lemma {:induction false} DefaultPrefixEmpty()
    ensures DefaultPrefix(0) == {}
  {
  }

  /** No default operator is registered twice. */
  lemma {:induction false} DefaultOrderDistinct()
    ensures forall i, j :: 0 <= i < j < |DefaultOrder()| ==> DefaultOrder()[i] != DefaultOrder()[j]
  {
  }

  /** Every default token is non-empty and lower-case. */
  lemma {:induction false} DefaultOrderAcceptable()
    ensures forall i :: 0 <= i < |DefaultOrder()| ==>
      DefaultOrder()[i] in DefaultEntries() && DefaultOrder()[i].1 != [] && IsLowerCase(DefaultOrder()[i].1)
  {
    var order := DefaultOrder();
    forall i | 0 <= i < |order|
      ensures order[i] in DefaultEntries() && order[i].1 != [] && IsLowerCase(order[i].1)
    {
      assert order[i].1 in {"+", "-", "*", "/", "^", "ln", "exp", "sin", "cos", "tg"};
    }
  }

  /** The registration order lists every default entry. */
  lemma {:induction false} DefaultOrderComplete()
    ensures DefaultPrefix(|DefaultOrder()|) == DefaultEntries()
  {
    var order := DefaultOrder();
    DefaultOrderAcceptable();
    forall e | e in DefaultEntries()
      ensures e in DefaultPrefix(|order|)
    {
      assert e in order;
      var i :| 0 <= i < |order| && order[i] == e;
    }
  }

  /**
   * While loadDefaultKnownOperators runs, the next default operator clashes
   * with none of those registered before it, so addOperator accepts it.
   */
  lemma {:induction false} NextDefaultAccepted(k: nat)
    requires k < |DefaultOrder()|
    ensures !Conflicts(DefaultPrefix(k), DefaultOrder()[k])
    ensures DefaultPrefix(k) + {DefaultOrder()[k]} == DefaultPrefix(k + 1)
    ensures DefaultOrder()[k].1 != [] && IsLowerCase(DefaultOrder()[k].1)
  {
    DefaultOrderDistinct();
    DefaultOrderAcceptable();
    DefaultsCompatible();
    assert DefaultPrefix(k) <= DefaultEntries();
    assert DefaultOrder()[k] !in DefaultPrefix(k);
    SubsetAccepts(DefaultEntries(), DefaultPrefix(k), DefaultOrder()[k]);
  }

  /** The entries are the tokens of the two tables, each under its kind. */
  lemma {:induction false} DefaultEntriesOfTables()
    ensures forall t :: (UNARY, t) in DefaultEntries() <==> t in DefaultUnaries()
    ensures forall t :: (BINARY, t) in DefaultEntries() <==> t in DefaultBinaries()
  {
  }

  /** Every shorter default token is missing from every longer one. */
  lemma {:induction false} DefaultTokensApart(a: string, b: string)
    requires a in DefaultUnaries() || a in DefaultBinaries()
    requires b in DefaultUnaries() || b in DefaultBinaries()
    requires |a| < |b|
    ensures !Contains(b, a)
  {
    ContainsFirstChar(b, a);
    if |a| == 1 {
      assert b in {"ln", "exp", "sin", "cos", "tg"};
      assert forall i :: 0 <= i < |b| ==> 'a' <= b[i] <= 'z';
      assert a in {"+", "-", "*", "/", "^"};
      assert forall i :: 0 <= i < |a| ==> !('a' <= a[i] <= 'z');
    } else {
      assert a in {"ln", "tg"} && b in {"exp", "sin", "cos"};
    }
  }

  /** No default token occurs inside another: every default operator is accepted. */
  lemma {:induction false} DefaultsCompatible()
    ensures NoClash(DefaultEntries())
  {
    DefaultEntriesOfTables();
    forall a, b | a in DefaultEntries() && b in DefaultEntries() && a != b
      ensures !Clash(a, b)
    {
      if |a.1| < |b.1| {
        NotContainsLonger(a.1, b.1);
        DefaultTokensApart(a.1, b.1);
      } else if |b.1| < |a.1| {
        NotContainsLonger(b.1, a.1);
        DefaultTokensApart(b.1, a.1);
      }
    }
  }

  /** An entry of a clash-free set clashes with no part of the rest of it. */
  lemma {:induction false} SubsetAccepts(all: set<Entry>, entries: set<Entry>, e: Entry)
    requires NoClash(all) && entries <= all && e in all && e !in entries
    ensures !Conflicts(entries, e)
  {
  }
}
