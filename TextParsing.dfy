/**
 * ExpressionParser.parseSubstring as a function of the text and of the
 * parser's tables: the parenthesised blocks are parsed first, from the left,
 * each replaced in the text by its placeholder; then the atoms of what is
 * left are recognized and the chain they make is reduced.
 *
 * The parse adds every variable name it meets to the variable table as it
 * goes. The function reads the table as it stands at the end, so it is
 * partial: None when the table lacks a name the text uses. ParseTextExtend
 * shows that a larger table changes nothing, which is what lets a parse that
 * adds names one at a time be compared with it.
 */
module TextParsing {
  import opened Wrappers
  import opened JavaStrings
  import opened Parentheses
  import opened Variables
  import opened Expressions
  import opened ParsingErrors
  import opened Chains
  import opened Recognition

  /** indexOf('('): the first '(' of the text, if there is one. */
  lemma {:induction false} OpenFound(expr: string)
    ensures Find(expr, "(").Some? ==> Find(expr, "(").value < |expr| && expr[Find(expr, "(").value] == '('
    ensures Find(expr, "(").None? <==> '(' !in expr
  {
    forall i | 0 <= i < |expr|
      ensures OccursAt(expr, "(", i) <==> expr[i] == '('
    {
      assert i + 1 <= |expr| ==> expr[i..i + 1] == [expr[i]];
    }
  }

  /**
   * One round of the placeholder loop on a balanced text: the text inside
   * the first parentheses, and the text with that block replaced by the
   * placeholder of block n and trimmed. None when the text holds no '('.
   */
  function NextBlock(expr: string, n: nat): (r: Option<(string, string)>)
    requires Balanced(expr)
    ensures r.None? <==> '(' !in expr
    ensures r.Some? ==> Balanced(r.value.0) && Balanced(r.value.1)
    ensures r.Some? ==> OpenCount(r.value.0) < OpenCount(expr) && OpenCount(r.value.1) < OpenCount(expr)
  {
    OpenFound(expr);
    match Find(expr, "(")
    case None => None
    case Some(x) =>
      var inner := BlockAt(expr, x);
      SubstitutedShrinks(expr, x, inner, n);
      Some((inner, Substituted(expr, x, |inner|, n)))
  }

  /** parseSubstring on a balanced text. */
  function ParseText(expr: string, t: Tables): Option<Result<Expr, ParseError>>
    requires Balanced(expr)
    decreases OpenCount(expr), 1
  {
    ParseLoop(expr, [], t)
  }

  /**
   * The placeholder loop with the blocks parsed so far: a block whose parse
   * fails ends the whole parse with its error.
   */
  function ParseLoop(expr: string, parsed: seq<Expr>, t: Tables): Option<Result<Expr, ParseError>>
    requires Balanced(expr)
    decreases OpenCount(expr), 0
  {
    match NextBlock(expr, |parsed|)
    case None => AtomsOutcome(Split(expr), parsed, t)
    case Some((inner, rest)) =>
      match ParseText(inner, t)
      case None => None
      case Some(Failure(err)) => Some(Failure(err))
      case Some(Success(v)) => ParseLoop(rest, parsed + [v], t)
  }

  /** The atoms' parse, or None when the table lacks a variable name among them. */
  function AtomsOutcome(atoms: seq<string>, parsed: seq<Expr>, t: Tables): Option<Result<Expr, ParseError>> {
    if FirstFailure(atoms, |parsed|).None? && !VarsCover(atoms, t) then None
    else Some(ParseAtoms(atoms, parsed, t))
  }

  /** A text without parentheses is split into atoms at once. */
  lemma {:induction false} ParseTextParenFree(expr: string, t: Tables)
    requires ParenFree(expr)
    ensures Balanced(expr)
    ensures ParseText(expr, t) == AtomsOutcome(Split(expr), [], t)
  {
    ParenFreeDepth(expr, 0);
  }

  // ---------------------------------------------------------------- a larger table

  /** Tables that agree on everything but the variables, where u keeps every cell of t. */
  predicate Grows(t: Tables, u: Tables) {
    u == t.(vars := u.vars) && Extends(u.vars, t.vars)
  }

  /** Parsing against a table that holds more variables gives what the smaller table gave. */
  lemma {:induction false} ParseTextExtend(expr: string, t: Tables, u: Tables)
    requires Balanced(expr) && Grows(t, u) && ParseText(expr, t).Some?
    ensures ParseText(expr, u) == ParseText(expr, t)
    decreases OpenCount(expr), 1
  {
    ParseLoopExtend(expr, [], t, u);
  }

  lemma {:induction false} ParseLoopExtend(expr: string, parsed: seq<Expr>, t: Tables, u: Tables)
    requires Balanced(expr) && Grows(t, u) && ParseLoop(expr, parsed, t).Some?
    ensures ParseLoop(expr, parsed, u) == ParseLoop(expr, parsed, t)
    decreases OpenCount(expr), 0
  {
    match NextBlock(expr, |parsed|)
    case None =>
      var atoms := Split(expr);
      if FirstFailure(atoms, |parsed|).None? {
        ChainOfExtend(atoms, parsed, t, u);
      }
    case Some((inner, rest)) =>
      if ParseText(inner, t).Some? {
        ParseTextExtend(inner, t, u);
        if ParseText(inner, t).value.Success? {
          ParseLoopExtend(rest, parsed + [ParseText(inner, t).value.value], t, u);
        }
      }
  }

  // ---------------------------------------------------------------- what a parse yields

  /**
   * A parse yields a complete expression whose cells are in the variable
   * table, or fails with an error of its own, never with a character or
   * parenthesis error.
   */
  predicate Sound(r: Result<Expr, ParseError>, t: Tables) {
    (r.Success? ==> Complete(r.value) && Cells(r.value) <= t.vars.Values) &&
    (r.Failure? ==> TextError(r.error))
  }

  lemma {:induction false} ParseTextSound(expr: string, t: Tables)
    requires Balanced(expr)
    ensures ParseText(expr, t).Some? ==> Sound(ParseText(expr, t).value, t)
    decreases OpenCount(expr), 1
  {
    ParseLoopSound(expr, [], t);
  }

  /** What parse can rely on once its two checks have passed. */
  lemma {:induction false} ParseTextOutcome(expr: string, t: Tables)
    requires Balanced(expr) && ParseText(expr, t).Some?
    ensures var r := ParseText(expr, t).value;
      r != Failure(InvalidCharacter) && r != Failure(InvalidParenthesisStructure) &&
      (r.Success? ==> Complete(r.value) && Cells(r.value) <= t.vars.Values)
  {
    var r := ParseText(expr, t).value;
    assert Sound(r, t) by {
      ParseTextSound(expr, t);
    }
    if r.Failure? {
      assert TextError(r.error);
    }
  }

  lemma {:induction false} ParseLoopSound(expr: string, parsed: seq<Expr>, t: Tables)
    requires Balanced(expr)
    requires forall j :: 0 <= j < |parsed| ==> Complete(parsed[j]) && Cells(parsed[j]) <= t.vars.Values
    ensures ParseLoop(expr, parsed, t).Some? ==> Sound(ParseLoop(expr, parsed, t).value, t)
    decreases OpenCount(expr), 0
  {
    match NextBlock(expr, |parsed|)
    case None =>
      var atoms := Split(expr);
      if FirstFailure(atoms, |parsed|).Some? || VarsCover(atoms, t) {
        ParseAtomsSound(atoms, parsed, t);
      }
    case Some((inner, rest)) =>
      ParseTextSound(inner, t);
      match ParseText(inner, t)
      case None =>
      case Some(Failure(err)) =>
        assert ParseLoop(expr, parsed, t) == Some(Failure(err));
      case Some(Success(v)) =>
        var more := parsed + [v];
        assert Complete(v) && Cells(v) <= t.vars.Values;
        AppendParsed(parsed, v, t);
        assert ParseLoop(expr, parsed, t) == ParseLoop(rest, more, t);
        ParseLoopSound(rest, more, t);
  }

  /** A complete block over known variables joins complete blocks over known variables. */
  lemma {:induction false} AppendParsed(parsed: seq<Expr>, v: Expr, t: Tables)
    requires forall j :: 0 <= j < |parsed| ==> Complete(parsed[j]) && Cells(parsed[j]) <= t.vars.Values
    requires Complete(v) && Cells(v) <= t.vars.Values
    ensures forall j :: 0 <= j < |parsed + [v]| ==> Complete((parsed + [v])[j]) && Cells((parsed + [v])[j]) <= t.vars.Values
  {
    var more := parsed + [v];
    forall j | 0 <= j < |more| ensures Complete(more[j]) && Cells(more[j]) <= t.vars.Values {
      if j < |parsed| { assert more[j] == parsed[j]; } else { assert more[j] == v; }
    }
  }

  // ---------------------------------------------------------------- the loop round by round

  /**
   * The text the placeholder loop has reached after replacing the blocks
   * given, in order, or None when they are not the blocks it finds.
   */
  function Replay(expr0: string, inners: seq<string>): (r: Option<string>)
    requires Balanced(expr0)
    ensures r.Some? ==> Balanced(r.value)
  {
    if inners == [] then Some(expr0)
    else
      var n := |inners| - 1;
      match Replay(expr0, inners[..n])
      case None => None
      case Some(e) =>
        match NextBlock(e, n)
        case None => None
        case Some((inner, rest)) => if inner == inners[n] then Some(rest) else None
  }

  /** One round of the loop: a block that parses joins the parsed blocks. */
  lemma {:induction false} LoopRound(e: string, parsed: seq<Expr>, t: Tables, inner: string, rest: string, v: Expr)
    requires Balanced(e) && NextBlock(e, |parsed|) == Some((inner, rest))
    requires Balanced(inner) && ParseText(inner, t) == Some(Success(v))
    ensures Balanced(rest)
    ensures ParseLoop(e, parsed, t) == ParseLoop(rest, parsed + [v], t)
  {
  }

  lemma {:induction false} LastSplit<T>(s: seq<T>)
    requires s != []
    ensures s[..|s| - 1] + [s[|s| - 1]] == s
  {
  }

  /** The blocks found so far, each balanced and parsed to the expression collected for it. */
  predicate BlocksParse(inners: seq<string>, parsed: seq<Expr>, t: Tables) {
    |parsed| == |inners| &&
    forall j :: 0 <= j < |inners| ==> Balanced(inners[j]) && ParseText(inners[j], t) == Some(Success(parsed[j]))
  }

  lemma {:induction false} GrowsTransitive(t: Tables, u: Tables, w: Tables)
    requires Grows(t, u) && Grows(u, w)
    ensures Grows(t, w)
  {
  }

  /** The blocks parse to the same expressions against a larger table. */
  lemma {:induction false} BlocksExtend(inners: seq<string>, parsed: seq<Expr>, t: Tables, u: Tables)
    requires Grows(t, u) && BlocksParse(inners, parsed, t)
    ensures BlocksParse(inners, parsed, u)
  {
    forall j | 0 <= j < |inners|
      ensures ParseText(inners[j], u) == Some(Success(parsed[j]))
    {
      ParseTextExtend(inners[j], t, u);
    }
  }

  /** A block that parses joins the blocks found so far. */
  lemma {:induction false} BlocksAppend(inners: seq<string>, parsed: seq<Expr>, t: Tables, inner: string, v: Expr)
    requires BlocksParse(inners, parsed, t)
    requires Balanced(inner) && ParseText(inner, t) == Some(Success(v))
    ensures BlocksParse(inners + [inner], parsed + [v], t)
  {
    var n := |inners|;
    forall j | 0 <= j < n + 1
      ensures Balanced((inners + [inner])[j]) && ParseText((inners + [inner])[j], t) == Some(Success((parsed + [v])[j]))
    {
      if j < n {
        assert (inners + [inner])[j] == inners[j] && (parsed + [v])[j] == parsed[j];
      }
    }
  }

  /** The loop reaches the text after the next block once that block is replaced. */
  lemma {:induction false} ReplayStep(expr0: string, inners: seq<string>, expr: string, inner: string, rest: string)
    requires Balanced(expr0) && Replay(expr0, inners) == Some(expr)
    requires NextBlock(expr, |inners|) == Some((inner, rest))
    ensures Replay(expr0, inners + [inner]) == Some(rest)
  {
    assert (inners + [inner])[..|inners|] == inners;
  }

  /** A block whose parse fails ends the loop with its error. */
  lemma {:induction false} LoopRoundFails(e: string, parsed: seq<Expr>, t: Tables, inner: string, rest: string, err: ParseError)
    requires Balanced(e) && NextBlock(e, |parsed|) == Some((inner, rest))
    requires ParseText(inner, t) == Some(Failure(err))
    ensures ParseLoop(e, parsed, t) == Some(Failure(err))
  {
  }

  /** Once no '(' is left, the loop splits the text into atoms. */
  lemma {:induction false} LoopEnd(e: string, parsed: seq<Expr>, t: Tables)
    requires Balanced(e) && '(' !in e
    ensures ParseLoop(e, parsed, t) == AtomsOutcome(Split(e), parsed, t)
  {
  }

  /**
   * Once the blocks found so far have parsed to the expressions collected,
   * the parse of the whole text is the parse of the text reached, with those
   * expressions as its parsed blocks.
   */
  lemma {:induction false} ReplayLoop(expr0: string, inners: seq<string>, parsed: seq<Expr>, t: Tables)
    requires Balanced(expr0) && Replay(expr0, inners).Some? && BlocksParse(inners, parsed, t)
    ensures ParseLoop(expr0, [], t) == ParseLoop(Replay(expr0, inners).value, parsed, t)
    decreases |inners|
  {
    if inners != [] {
      var n := |inners| - 1;
      var e := Replay(expr0, inners[..n]).value;
      var rest := NextBlock(e, n).value.1;
      assert Replay(expr0, inners) == Some(rest) && NextBlock(e, n) == Some((inners[n], rest));
      assert ParseLoop(expr0, [], t) == ParseLoop(e, parsed[..n], t) by {
        assert forall j :: 0 <= j < n ==> inners[..n][j] == inners[j] && parsed[..n][j] == parsed[j];
        ReplayLoop(expr0, inners[..n], parsed[..n], t);
      }
      assert ParseLoop(e, parsed[..n], t) == ParseLoop(rest, parsed[..n] + [parsed[n]], t) by {
        LoopRound(e, parsed[..n], t, inners[n], rest, parsed[n]);
      }
      LastSplit(parsed);
    }
  }

  /**
   * One round of parseSubstring's loop, seen from the whole text: a block
   * that fails ends the parse of expr0 with its error; one that succeeds
   * extends the blocks replayed so far.
   */
  lemma {:induction false} RoundOutcome(expr0: string, inners: seq<string>, parsed: seq<Expr>, expr: string,
                                        atom: string, rest: string, t: Tables, u: Tables, sub: Result<Expr, ParseError>)
    requires Balanced(expr0) && Balanced(expr) && Replay(expr0, inners) == Some(expr)
    requires BlocksParse(inners, parsed, t) && Grows(t, u)
    requires NextBlock(expr, |parsed|) == Some((atom, rest)) && ParseText(atom, u) == Some(sub)
    ensures sub.Failure? ==> ParseText(expr0, u) == Some(sub)
    ensures sub.Success? ==>
      Replay(expr0, inners + [atom]) == Some(rest) && BlocksParse(inners + [atom], parsed + [sub.value], u)
  {
    BlocksExtend(inners, parsed, t, u);
    if sub.Failure? {
      ReplayLoop(expr0, inners, parsed, u);
      LoopRoundFails(expr, parsed, u, atom, rest, sub.error);
    } else {
      ReplayStep(expr0, inners, expr, atom, rest);
      BlocksAppend(inners, parsed, u, atom, sub.value);
    }
  }

  /** Once no '(' is left, the parse of expr0 is the outcome of the atoms of the text reached. */
  lemma {:induction false} ExitOutcome(expr0: string, inners: seq<string>, parsed: seq<Expr>, expr: string,
                                       t: Tables, u: Tables, r: Result<Expr, ParseError>)
    requires Balanced(expr0) && Balanced(expr) && Replay(expr0, inners) == Some(expr) && '(' !in expr
    requires BlocksParse(inners, parsed, t) && Grows(t, u)
    requires AtomsOutcome(Split(expr), parsed, u) == Some(r)
    ensures ParseText(expr0, u) == Some(r)
  {
    BlocksExtend(inners, parsed, t, u);
    ReplayLoop(expr0, inners, parsed, u);
    LoopEnd(expr, parsed, u);
  }

  // ---------------------------------------------------------------- the names a parse files

  /**
   * The names a parse of the text may file as variables: the atoms, of the
   * text or of any of its parenthesised blocks, that are neither
   * placeholders, numbers, named constants nor operator tokens.
   */
  function VariableNames(expr: string, t: Tables): set<string>
    requires Balanced(expr)
    decreases OpenCount(expr), 1
  {
    VariableNamesFrom(expr, 0, t)
  }

  /** The variable names of the text as the loop meets it with n blocks parsed. */
  function VariableNamesFrom(expr: string, n: nat, t: Tables): set<string>
    requires Balanced(expr)
    decreases OpenCount(expr), 0
  {
    match NextBlock(expr, n)
    case None => VariableAtomsOf(Split(expr), t)
    case Some((inner, rest)) => VariableNames(inner, t) + VariableNamesFrom(rest, n + 1, t)
  }

  /** The variable table plays no part in which atoms are variable names. */
  lemma {:induction false} VariableNamesGrows(expr: string, t: Tables, u: Tables)
    requires Balanced(expr) && u == t.(vars := u.vars)
    ensures VariableNames(expr, u) == VariableNames(expr, t)
    decreases OpenCount(expr), 1
  {
    VariableNamesFromGrows(expr, 0, t, u);
  }

  lemma {:induction false} VariableNamesFromGrows(expr: string, n: nat, t: Tables, u: Tables)
    requires Balanced(expr) && u == t.(vars := u.vars)
    ensures VariableNamesFrom(expr, n, u) == VariableNamesFrom(expr, n, t)
    decreases OpenCount(expr), 0
  {
    match NextBlock(expr, n)
    case None =>
      VariableAtomsOfGrows(Split(expr), t, u);
    case Some((inner, rest)) =>
      VariableNamesGrows(inner, t, u);
      VariableNamesFromGrows(rest, n + 1, t, u);
  }

  /** The names the loop can still meet are names of the whole text. */
  lemma {:induction false} ReplayNames(expr0: string, inners: seq<string>, t: Tables)
    requires Balanced(expr0) && Replay(expr0, inners).Some?
    ensures VariableNamesFrom(Replay(expr0, inners).value, |inners|, t) <= VariableNames(expr0, t)
    decreases |inners|
  {
    if inners == [] {
      assert Replay(expr0, inners) == Some(expr0);
      assert VariableNames(expr0, t) == VariableNamesFrom(expr0, 0, t);
    } else {
      var n := |inners| - 1;
      var e := Replay(expr0, inners[..n]).value;
      var rest := NextBlock(e, n).value.1;
      assert Replay(expr0, inners) == Some(rest) && NextBlock(e, n) == Some((inners[n], rest));
      ReplayNames(expr0, inners[..n], t);
      NamesStep(e, n, inners[n], rest, t);
      var before, after := VariableNamesFrom(e, n, t), VariableNamesFrom(rest, n + 1, t);
      assert after <= before <= VariableNames(expr0, t);
    }
  }

  /** A round of the loop keeps the names it can still meet among those it could before. */
  lemma {:induction false} NamesStep(e: string, n: nat, inner: string, rest: string, t: Tables)
    requires Balanced(e) && NextBlock(e, n) == Some((inner, rest))
    ensures Balanced(inner) && Balanced(rest)
    ensures VariableNames(inner, t) <= VariableNamesFrom(e, n, t)
    ensures VariableNamesFrom(rest, n + 1, t) <= VariableNamesFrom(e, n, t)
  {
  }

  /**
   * One round of parseSubstring's loop, for the names: those of the block
   * parsed next, read against a table grown from t, are names of the whole text.
   */
  lemma {:induction false} RoundNames(expr0: string, inners: seq<string>, expr: string,
                                      atom: string, rest: string, t: Tables, u: Tables)
    requires Balanced(expr0) && Replay(expr0, inners) == Some(expr)
    requires NextBlock(expr, |inners|) == Some((atom, rest)) && u == t.(vars := u.vars)
    ensures Balanced(atom) && VariableNames(atom, u) <= VariableNames(expr0, t)
  {
    ReplayNames(expr0, inners, t);
    VariableNamesGrows(atom, t, u);
  }

  /** The loop's exit, for the names: the variable atoms of the text reached are names of the whole text. */
  lemma {:induction false} ExitNames(expr0: string, inners: seq<string>, expr: string, t: Tables, u: Tables)
    requires Balanced(expr0) && Replay(expr0, inners) == Some(expr) && '(' !in expr
    requires u == t.(vars := u.vars)
    ensures VariableAtomsOf(Split(expr), u) <= VariableNames(expr0, t)
  {
    ReplayNames(expr0, inners, t);
    VariableAtomsOfGrows(Split(expr), t, u);
  }

  /** A parse that succeeds has filed every variable name of the text. */
  lemma {:induction false} ParseTextFilesNames(expr: string, t: Tables)
    requires Balanced(expr) && ParseText(expr, t).Some? && ParseText(expr, t).value.Success?
    ensures VariableNames(expr, t) <= t.vars.Keys
    decreases OpenCount(expr), 1
  {
    ParseLoopFilesNames(expr, [], t);
  }

  lemma {:induction false} ParseLoopFilesNames(expr: string, parsed: seq<Expr>, t: Tables)
    requires Balanced(expr) && ParseLoop(expr, parsed, t).Some? && ParseLoop(expr, parsed, t).value.Success?
    ensures VariableNamesFrom(expr, |parsed|, t) <= t.vars.Keys
    decreases OpenCount(expr), 0
  {
    match NextBlock(expr, |parsed|)
    case None =>
      var atoms := Split(expr);
      assert FirstFailure(atoms, |parsed|).None? && VarsCover(atoms, t);
      VariableAtomsCovered(atoms, t);
    case Some((inner, rest)) =>
      var v := ParseText(inner, t).value.value;
      ParseTextFilesNames(inner, t);
      ParseLoopFilesNames(rest, parsed + [v], t);
  }
}
