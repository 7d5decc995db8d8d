/**
 * What parseSubstring does with a string, stated as functions: the
 * replacement of a parenthesised block by its placeholder, the
 * classification of each atom, the choice between the unary and the binary
 * reading of an operator token, the chain the atoms make and the expression
 * the chain reduces to.
 */
module Recognition {
  import opened Wrappers
  import opened JavaStrings
  import opened ParserEx
  import opened Parentheses
  import opened Operators
  import opened Variables
  import opened Expressions
  import opened ParsingErrors
  import opened Chains

  /**
   * The parser's tables as a parse reads them: the operators by kind, the
   * named constants and the variable cells by name.
   */
  datatype Tables = Tables(
    unaries: map<string, Operator>,
    binaries: map<string, Operator>,
    consts: map<string, real>,
    vars: map<string, Variable>)

  /** big keeps every entry of small. */
  predicate Extends(big: map<string, Variable>, small: map<string, Variable>) {
    forall n :: n in small ==> n in big && big[n] == small[n]
  }

  lemma {:induction false} ExtendsValues(big: map<string, Variable>, small: map<string, Variable>)
    requires Extends(big, small)
    ensures small.Values <= big.Values
  {
    forall v | v in small.Values ensures v in big.Values {
      var n :| n in small && small[n] == v;
      assert big[n] == v;
    }
  }

  // ---------------------------------------------------------------- placeholders

  /** The text that stands for parsed block n: a space, ATOM, the number, a space. */
  function Placeholder(n: nat): string {
    " " + ATOM + Decimal(n) + " "
  }

  /**
   * One round of the placeholder loop: the block of len characters inside the
   * parentheses opening at x is replaced by the placeholder of block n, and
   * the result is trimmed.
   */
  function Substituted(expr: string, x: nat, len: nat, n: nat): string
    requires x + len + 2 <= |expr|
  {
    Trim(expr[..x] + Placeholder(n) + expr[x + len + 2..])
  }

  lemma {:induction false} PlaceholderParenFree(n: nat)
    ensures ParenFree(Placeholder(n))
  {
    var d := Decimal(n);
    assert forall i :: 0 <= i < |d| ==> d[i] != '(' && d[i] != ')';
    var p := Placeholder(n);
    assert p == " ATOM" + d + " ";
    assert forall i :: 0 <= i < |p| ==> p[i] != '(' && p[i] != ')' by {
      forall i | 0 <= i < |p| ensures p[i] != '(' && p[i] != ')' {
        if 5 <= i < 5 + |d| {
          assert p[i] == d[i - 5];
        }
      }
    }
  }

  lemma {:induction false} BlankParenFree(s: string)
    requires AllBlank(s)
    ensures ParenFree(s)
  {
    assert forall i :: 0 <= i < |s| ==> s[i] != '(' && s[i] != ')';
  }

  /** Trimming removes blanks only, which do not count as parentheses. */
  lemma {:induction false} TrimKeepsStructure(s: string)
    ensures Balanced(Trim(s)) <==> Balanced(s)
    ensures OpenCount(Trim(s)) == OpenCount(s)
  {
    var front, back := TrimFrame(s);
    BlankParenFree(front);
    BlankParenFree(back);
    BalancedFramed(front, Trim(s), back);
  }

  /** Scanning a string in three parts. */
  lemma {:induction false} ThreeParts(pre: string, x: string, post: string)
    ensures Depth(pre + x + post) == Depth(pre) + Depth(x) + Depth(post)
    ensures NeverBelow(pre + x + post, 0) <==>
      NeverBelow(pre, 0) && NeverBelow(x, Depth(pre)) && NeverBelow(post, Depth(pre) + Depth(x))
    ensures OpenCount(pre + x + post) == OpenCount(pre) + OpenCount(x) + OpenCount(post)
  {
    DepthConcat(pre + x, post);
    DepthConcat(pre, x);
    NeverBelowConcat(pre + x, post, 0);
    NeverBelowConcat(pre, x, 0);
    OpenCountConcat(pre + x, post);
    OpenCountConcat(pre, x);
  }

  /**
   * Replacing a balanced block of a balanced string by text without
   * parentheses leaves a balanced string with the block's '(' removed.
   */
  lemma {:induction false} ReplaceBalancedBlock(pre: string, block: string, mid: string, post: string)
    requires Balanced(pre + block + post) && Balanced(block) && ParenFree(mid)
    ensures Balanced(pre + mid + post)
    ensures OpenCount(pre + mid + post) + OpenCount(block) == OpenCount(pre + block + post)
  {
    var d := Depth(pre);
    assert NeverBelow(pre, 0) && NeverBelow(post, d) && d + Depth(post) == 0
      && OpenCount(pre + block + post) == OpenCount(pre) + OpenCount(block) + OpenCount(post) by {
      ThreeParts(pre, block, post);
    }
    assert d >= 0 by {
      NeverBelowEnd(pre, 0);
    }
    assert NeverBelow(mid, d) && Depth(mid) == 0 && OpenCount(mid) == 0 by {
      ParenFreeDepth(mid, d);
    }
    ThreeParts(pre, mid, post);
  }

  /** The text around a parenthesised block, the block and the rest make up the whole. */
  lemma {:induction false} SplitAroundBlock(expr: string, x: nat, atom: string)
    requires x + |atom| + 2 <= |expr| && expr[x] == '('
    requires expr[x + 1..x + 1 + |atom|] == atom && expr[x + 1 + |atom|] == ')'
    ensures expr == expr[..x] + ("(" + atom + ")") + expr[x + |atom| + 2..]
  {
    var block := "(" + atom + ")";
    var whole := expr[..x] + block + expr[x + |atom| + 2..];
    assert |whole| == |expr|;
    forall i | 0 <= i < |expr|
      ensures whole[i] == expr[i]
    {
      if x < i < x + 1 + |atom| {
        assert whole[i] == atom[i - x - 1] == expr[x + 1..x + 1 + |atom|][i - x - 1];
      }
    }
  }

  /**
   * Each round of the placeholder loop keeps the text balanced and removes
   * the block's '(' and all those inside it, so the loop ends.
   */
  lemma {:induction false} SubstitutedShrinks(expr: string, x: nat, atom: string, n: nat)
    requires Balanced(expr) && x + |atom| + 2 <= |expr| && expr[x] == '('
    requires expr[x + 1..x + 1 + |atom|] == atom && expr[x + 1 + |atom|] == ')'
    requires Balanced(atom)
    ensures Balanced(Substituted(expr, x, |atom|, n))
    ensures OpenCount(Substituted(expr, x, |atom|, n)) + 1 + OpenCount(atom) == OpenCount(expr)
  {
    var pre, post := expr[..x], expr[x + |atom| + 2..];
    var block := "(" + atom + ")";
    var mid := Placeholder(n);
    var t := pre + mid + post;
    SplitAroundBlock(expr, x, atom);
    assert Balanced(block) by {
      BalancedWrap(atom);
    }
    assert OpenCount(block) == 1 + OpenCount(atom) by {
      OpenCountConcat("(", atom);
      OpenCountConcat("(" + atom, ")");
    }
    assert Balanced(t) && OpenCount(t) + OpenCount(block) == OpenCount(expr) by {
      PlaceholderParenFree(n);
      ReplaceBalancedBlock(pre, block, mid, post);
    }
    assert Substituted(expr, x, |atom|, n) == Trim(t);
    TrimKeepsStructure(t);
  }

  /** A balanced string without '(' has no ')' either. */
  lemma {:induction false} NoOpenNoClose(s: string)
    requires '(' !in s && NeverBelow(s, 0)
    ensures ParenFree(s)
    decreases |s|
  {
    if s != [] {
      assert forall c :: c in s[1..] ==> c in s;
      assert s[0] != ')' && s[0] != '(';
      NoOpenNoClose(s[1..]);
      assert s == [s[0]] + s[1..];
    }
  }

  // ---------------------------------------------------------------- atoms

  /** The recognizer's first test: the placeholder marker occurs in the atom. */
  predicate IsPlaceholder(a: string) {
    Contains(a, ATOM)
  }

  /**
   * The block a placeholder atom names: the integer after the first marker,
   * which must index one of the count blocks parsed so far; otherwise
   * Integer.valueOf or List.get throws.
   */
  function PlaceholderTarget(a: string, count: nat): (r: Result<nat, ParseError>)
    requires IsPlaceholder(a)
    ensures r.Success? ==> r.value < count
    ensures r.Failure? ==> r.error.RuntimeFailure?
  {
    var k := Find(a, ATOM).value;
    match ParseInt(a[k + |ATOM|..])
    case None => Failure(RuntimeFailure("NumberFormatException"))
    case Some(n) => if 0 <= n < count then Success(n) else Failure(RuntimeFailure("IndexOutOfBoundsException"))
  }

  /** The placeholder the loop writes for block n names block n again. */
  lemma {:induction false} PlaceholderNamesBlock(n: nat, count: nat)
    requires n < count && n <= INT_MAX
    ensures IsPlaceholder(ATOM + Decimal(n))
    ensures PlaceholderTarget(ATOM + Decimal(n), count) == Success(n)
  {
    var a := ATOM + Decimal(n);
    assert ATOM <= a;
    assert Find(a, ATOM) == Some(0);
    assert a[|ATOM|..] == Decimal(n);
    DecimalParseRoundTrip(n);
  }

  /** Recognizing the atom throws. */
  predicate AtomFails(a: string, count: nat) {
    IsPlaceholder(a) && PlaceholderTarget(a, count).Failure?
  }

  /** An atom that is neither a placeholder, a number, a named constant nor a known operator token. */
  predicate IsVariableAtom(a: string, t: Tables) {
    !IsPlaceholder(a) && !IsNumber(a) && a !in t.consts && a !in t.unaries && a !in t.binaries
  }

  /**
   * The prototype for a known operator token: the only one registered
   * under it, or, when it is both unary and binary, the unary one at the
   * start of the chain or after an incomplete operator instance and the
   * binary one after a constant, a variable or a complete instance.
   */
  function ChooseOperator(a: string, prev: seq<Link>, t: Tables): Operator
    requires a in t.unaries || a in t.binaries
  {
    if a !in t.binaries then t.unaries[a]
    else if a !in t.unaries then t.binaries[a]
    else if prev == [] then t.unaries[a]
    else
      match prev[|prev| - 1].e
      case Constant(_) => t.binaries[a]
      case NamedConstant(_, _) => t.binaries[a]
      case Var(_) => t.binaries[a]
      case Instance(_, _, _) => if !Complete(prev[|prev| - 1].e) then t.unaries[a] else t.binaries[a]
  }

  /**
   * A token registered with one kind is always read with that kind; a token
   * registered with both is read as binary exactly when the chain so far
   * ends in a complete expression, the only thing that can be its left
   * operand.
   */
  lemma {:induction false} ChoiceFollowsLeftOperand(a: string, prev: seq<Link>, t: Tables)
    requires a in t.unaries || a in t.binaries
    requires a in t.unaries ==> t.unaries[a].kind == UNARY
    requires a in t.binaries ==> t.binaries[a].kind == BINARY
    ensures a !in t.binaries ==> ChooseOperator(a, prev, t).kind == UNARY
    ensures a !in t.unaries ==> ChooseOperator(a, prev, t).kind == BINARY
    ensures a in t.unaries && a in t.binaries ==>
      (ChooseOperator(a, prev, t).kind == BINARY <==> prev != [] && Complete(prev[|prev| - 1].e))
    ensures ChooseOperator(a, prev, t) == (if ChooseOperator(a, prev, t).kind == UNARY then t.unaries[a] else t.binaries[a])
  {
  }

  /**
   * The expression the recognizer adds to the chain for atom a, given the
   * blocks parsed so far and the chain before it; a variable is looked up in
   * the variable table, which holds every name the parse has met.
   */
  function Recognize(a: string, parsed: seq<Expr>, prev: seq<Link>, t: Tables): Expr
    requires !AtomFails(a, |parsed|)
    requires IsVariableAtom(a, t) ==> a in t.vars
  {
    if IsPlaceholder(a) then parsed[PlaceholderTarget(a, |parsed|).value]
    else if IsNumber(a) then Constant(NumberValue(a))
    else if a in t.consts then NamedConstant(t.consts[a], a)
    else if a in t.unaries || a in t.binaries then NewInstance(ChooseOperator(a, prev, t))
    else Var(t.vars[a])
  }

  /**
   * What the recognizer adds is complete or a new operator instance, and it
   * reaches only cells of the variable table when the parsed blocks do.
   */
  lemma {:induction false} RecognizeSound(a: string, parsed: seq<Expr>, prev: seq<Link>, t: Tables)
    requires !AtomFails(a, |parsed|)
    requires IsVariableAtom(a, t) ==> a in t.vars
    requires forall j :: 0 <= j < |parsed| ==> Complete(parsed[j]) && Cells(parsed[j]) <= t.vars.Values
    ensures Complete(Recognize(a, parsed, prev, t)) || Fresh(Recognize(a, parsed, prev, t))
    ensures Cells(Recognize(a, parsed, prev, t)) <= t.vars.Values
  {
  }

  /** The first atom, from the left, whose recognition throws, by the exception it throws. */
  function FirstFailure(atoms: seq<string>, count: nat): (r: Option<ParseError>)
    ensures r.None? <==> forall k :: 0 <= k < |atoms| ==> !AtomFails(atoms[k], count)
    ensures r.Some? ==> r.value.RuntimeFailure?
  {
    if atoms == [] then None
    else
      var n := |atoms| - 1;
      var earlier := FirstFailure(atoms[..n], count);
      if earlier.Some? then earlier
      else
        assert forall k :: 0 <= k < n ==> atoms[k] == atoms[..n][k];
        if AtomFails(atoms[n], count) then Some(PlaceholderTarget(atoms[n], count).error) else None
  }

  /** Once an atom has thrown, the atoms after it change nothing. */
  lemma {:induction false} FirstFailureSticks(atoms: seq<string>, count: nat, j: nat)
    requires j <= |atoms| && FirstFailure(atoms[..j], count).Some?
    ensures FirstFailure(atoms, count) == FirstFailure(atoms[..j], count)
    decreases |atoms| - j
  {
    if j < |atoms| {
      var front := atoms[..|atoms| - 1];
      assert FirstFailure(front, count) == FirstFailure(atoms[..j], count) by {
        assert front[..j] == atoms[..j];
        FirstFailureSticks(front, count, j);
      }
      assert FirstFailure(atoms, count) == FirstFailure(front, count);
    } else {
      assert atoms[..j] == atoms;
    }
  }

  /** Every atom that is a variable name has its cell in the table. */
  predicate VarsCover(atoms: seq<string>, t: Tables) {
    forall k :: 0 <= k < |atoms| && IsVariableAtom(atoms[k], t) ==> atoms[k] in t.vars
  }

  /** Every name that big files and small does not is among names. */
  predicate NewNamesAmong(small: map<string, Variable>, big: map<string, Variable>, names: set<string>) {
    forall n :: n in big && n !in small ==> n in names
  }

  /** Names added in two steps, each among a subset of names, are among names. */
  lemma {:induction false} NewNamesChain(m0: map<string, Variable>, m1: map<string, Variable>, m2: map<string, Variable>,
                                         names: set<string>, later: set<string>)
    requires Extends(m1, m0)
    requires NewNamesAmong(m0, m1, names) && NewNamesAmong(m1, m2, later) && later <= names
    ensures NewNamesAmong(m0, m2, names)
  {
  }

  /** The atoms that name variables. */
  function VariableAtomsOf(atoms: seq<string>, t: Tables): set<string> {
    set a | a in atoms && IsVariableAtom(a, t)
  }

  /** The variable table plays no part in which atoms are variable names. */
  lemma {:induction false} VariableAtomsOfGrows(atoms: seq<string>, t: Tables, u: Tables)
    requires u == t.(vars := u.vars)
    ensures VariableAtomsOf(atoms, u) == VariableAtomsOf(atoms, t)
  {
  }

  /** One more atom: the variable names so far, and the new atom when it is one. */
  lemma {:induction false} VariableAtomsOfStep(atoms: seq<string>, i: nat, t: Tables, u: Tables)
    requires i < |atoms| && u == t.(vars := u.vars)
    ensures VariableAtomsOf(atoms[..i], t) <= VariableAtomsOf(atoms[..i + 1], u)
    ensures IsVariableAtom(atoms[i], u) ==> atoms[i] in VariableAtomsOf(atoms[..i + 1], u)
  {
    assert atoms[..i + 1] == atoms[..i] + [atoms[i]];
  }

  /** The variable names of a prefix are variable names of the whole. */
  lemma {:induction false} VariableAtomsOfPrefix(atoms: seq<string>, i: nat, t: Tables)
    requires i <= |atoms|
    ensures VariableAtomsOf(atoms[..i], t) <= VariableAtomsOf(atoms, t)
  {
    forall a | a in atoms[..i] ensures a in atoms {
      var k :| 0 <= k < i && atoms[..i][k] == a;
      assert atoms[k] == a;
    }
  }

  /** When the table covers the atoms, it holds every variable name among them. */
  lemma {:induction false} VariableAtomsCovered(atoms: seq<string>, t: Tables)
    requires VarsCover(atoms, t)
    ensures VariableAtomsOf(atoms, t) <= t.vars.Keys
  {
    forall a | a in VariableAtomsOf(atoms, t) ensures a in t.vars {
      var k :| 0 <= k < |atoms| && atoms[k] == a;
    }
  }

  /**
   * The chain the recognizer builds: each atom in turn, recognized after the
   * ones before it; the link of atom k has identity k.
   */
  function ChainOf(atoms: seq<string>, parsed: seq<Expr>, t: Tables): (chain: seq<Link>)
    requires FirstFailure(atoms, |parsed|).None? && VarsCover(atoms, t)
    ensures |chain| == |atoms|
    ensures forall k :: 0 <= k < |chain| ==> chain[k].id == k
    decreases |atoms|
  {
    if atoms == [] then []
    else
      var n := |atoms| - 1;
      var prefix := ChainOf(atoms[..n], parsed, t);
      prefix + [Link(n, Recognize(atoms[n], parsed, prefix, t))]
  }

  /** Only the cells of the variable names matter: a larger variable table builds the same chain. */
  lemma {:induction false} ChainOfExtend(atoms: seq<string>, parsed: seq<Expr>, t: Tables, u: Tables)
    requires FirstFailure(atoms, |parsed|).None? && VarsCover(atoms, t)
    requires u == t.(vars := u.vars) && Extends(u.vars, t.vars)
    ensures VarsCover(atoms, u)
    ensures ChainOf(atoms, parsed, u) == ChainOf(atoms, parsed, t)
    decreases |atoms|
  {
    if atoms != [] {
      var n := |atoms| - 1;
      ChainOfExtend(atoms[..n], parsed, t, u);
    }
  }

  /**
   * One round of the recognizer loop: atom i, recognized against a table
   * that grew from the one the chain so far was built with, extends the
   * chain of the atoms before it.
   */
  lemma {:induction false} ChainOfStep(atoms: seq<string>, i: nat, parsed: seq<Expr>, t: Tables, u: Tables, chain: seq<Link>)
    requires i < |atoms| && FirstFailure(atoms[..i], |parsed|).None? && VarsCover(atoms[..i], t)
    requires chain == ChainOf(atoms[..i], parsed, t)
    requires u == t.(vars := u.vars) && Extends(u.vars, t.vars)
    requires !AtomFails(atoms[i], |parsed|) && (IsVariableAtom(atoms[i], u) ==> atoms[i] in u.vars)
    ensures FirstFailure(atoms[..i + 1], |parsed|).None? && VarsCover(atoms[..i + 1], u)
    ensures chain + [Link(i, Recognize(atoms[i], parsed, chain, u))] == ChainOf(atoms[..i + 1], parsed, u)
  {
    var front := atoms[..i + 1];
    assert front[..i] == atoms[..i] && front[i] == atoms[i];
    assert FirstFailure(front, |parsed|).None?;
    assert VarsCover(atoms[..i], u) && ChainOf(atoms[..i], parsed, u) == chain by {
      ChainOfExtend(atoms[..i], parsed, t, u);
    }
    assert VarsCover(front, u) by {
      forall k | 0 <= k < |front| && IsVariableAtom(front[k], u)
        ensures front[k] in u.vars
      {
        if k < i {
          assert front[k] == atoms[..i][k];
        }
      }
    }
    assert ChainOf(front, parsed, u) == ChainOf(front[..i], parsed, u) + [Link(i, Recognize(front[i], parsed, ChainOf(front[..i], parsed, u), u))];
  }

  /** The recognizer loop stops at the first atom that throws, with its exception. */
  lemma {:induction false} FirstFailureAt(atoms: seq<string>, i: nat, count: nat)
    requires i < |atoms| && FirstFailure(atoms[..i], count).None? && AtomFails(atoms[i], count)
    ensures FirstFailure(atoms, count) == Some(PlaceholderTarget(atoms[i], count).error)
  {
    assert atoms[..i + 1][..i] == atoms[..i];
    FirstFailureSticks(atoms, count, i + 1);
  }

  /** Every link of the chain is complete or a new instance, and reaches only cells of the table. */
  lemma {:induction false} ChainOfLinks(atoms: seq<string>, parsed: seq<Expr>, t: Tables)
    requires FirstFailure(atoms, |parsed|).None? && VarsCover(atoms, t)
    requires forall j :: 0 <= j < |parsed| ==> Complete(parsed[j]) && Cells(parsed[j]) <= t.vars.Values
    ensures forall k :: 0 <= k < |atoms| ==>
      Complete(ChainOf(atoms, parsed, t)[k].e) || Fresh(ChainOf(atoms, parsed, t)[k].e)
    ensures CellsWithin(ChainOf(atoms, parsed, t), t.vars.Values)
    decreases |atoms|
  {
    if atoms != [] {
      var n := |atoms| - 1;
      ChainOfLinks(atoms[..n], parsed, t);
      RecognizeSound(atoms[n], parsed, ChainOf(atoms[..n], parsed, t), t);
    }
  }

  /**
   * parseSubstring after the placeholder loop: no atom is an empty
   * expression, an atom whose recognition throws ends the parse, and
   * otherwise the chain of the atoms is reduced.
   */
  function ParseAtoms(atoms: seq<string>, parsed: seq<Expr>, t: Tables): Result<Expr, ParseError>
    requires FirstFailure(atoms, |parsed|).None? ==> VarsCover(atoms, t)
  {
    if |atoms| == 0 then Failure(EmptyExpression)
    else
      match FirstFailure(atoms, |parsed|)
      case Some(err) => Failure(err)
      case None =>
        var chain := ChainOf(atoms, parsed, t);
        Reduced(chain, Ordered(chain, HighToLow()))
  }

  /**
   * What a parse of atoms yields is a complete expression over the table's
   * cells; it fails with a Java runtime exception only when an atom names a
   * block that does not exist.
   */
  lemma {:induction false} ParseAtomsSound(atoms: seq<string>, parsed: seq<Expr>, t: Tables)
    requires FirstFailure(atoms, |parsed|).None? ==> VarsCover(atoms, t)
    requires forall j :: 0 <= j < |parsed| ==> Complete(parsed[j]) && Cells(parsed[j]) <= t.vars.Values
    ensures ParseAtoms(atoms, parsed, t).Success? ==>
      Complete(ParseAtoms(atoms, parsed, t).value) && Cells(ParseAtoms(atoms, parsed, t).value) <= t.vars.Values
    ensures ParseAtoms(atoms, parsed, t).Failure? && ParseAtoms(atoms, parsed, t).error.RuntimeFailure? ==>
      FirstFailure(atoms, |parsed|).Some?
    ensures ParseAtoms(atoms, parsed, t).Failure? ==> TextError(ParseAtoms(atoms, parsed, t).error)
  {
    if |atoms| > 0 && FirstFailure(atoms, |parsed|).None? {
      var chain := ChainOf(atoms, parsed, t);
      ChainOfLinks(atoms, parsed, t);
      ReducedSound(chain);
      ReducedCells(chain, t.vars.Values);
      ReducedErrors(chain);
    }
  }
}
