/**
 * The parser's state and its operations (ExpressionParser.java): the
 * registry of unary and binary operators with the characters it makes
 * valid, the named constants, the table of variables met by the last parse,
 * and parse itself. The Java class keeps all of this in static fields; here
 * it is the state of one Parser object.
 */
module ExpressionParser {
  import opened Wrappers
  import opened JavaStrings
  import opened ParserEx
  import opened Parentheses
  import opened Operators
  import opened Variables
  import opened Expressions
  import opened ParsingErrors
  import opened Chains
  import opened Registry
  import opened Recognition
  import opened TextParsing

  /** Math.PI and Math.E, as the double literals they are. */
  const PI: real := 3.141592653589793
  const E: real := 2.718281828459045

  /**
   * The java.lang.Math functions and the double division the default
   * operators use; floating-point arithmetic is not modelled, so these are
   * parameters.
   */
  datatype MathLib = MathLib(
    div: (real, real) -> real,
    log: real -> real,
    exp: real -> real,
    sin: real -> real,
    cos: real -> real,
    tan: real -> real)

  function Sum(x: real, y: real): real { x + y }
  function Difference(x: real, y: real): real { x - y }
  function Product(x: real, y: real): real { x * y }
  function Negation(x: real): real { -x }
  function Identity(x: real): real { x }

  /** "^" computes x to the power y as exp(log(x) * y). */
  function Power(math: MathLib): (real, real) -> real {
    (x: real, y: real) => math.exp(math.log(x) * y)
  }

  /** The transforms of the default unary operators, by token. */
  function DefaultUnaryEffects(math: MathLib): map<string, real -> real> {
    map["-" := Negation, "+" := Identity, "ln" := math.log, "exp" := math.exp,
        "sin" := math.sin, "cos" := math.cos, "tg" := math.tan]
  }

  /** The transforms of the default binary operators, by token. */
  function DefaultBinaryEffects(math: MathLib): map<string, (real, real) -> real> {
    map["+" := Sum, "-" := Difference, "*" := Product, "/" := math.div, "^" := Power(math)]
  }

  /** What the registry demands of the token an operator is registered under. */
  predicate Registrable(op: Operator, token: string) {
    op.token == token && token != [] && IsLowerCase(token)
  }

  /** The (kind, token) pairs of the two tables. */
  function EntriesOf(unaries: map<string, Operator>, binaries: map<string, Operator>): set<Entry> {
    (set t | t in unaries :: (UNARY, t)) + (set t | t in binaries :: (BINARY, t))
  }

  /**
   * Every operator is registered under its own non-empty lower-case token in
   * the table of its kind, and no two registered operators clash.
   */
  predicate WellFiled(unaries: map<string, Operator>, binaries: map<string, Operator>) {
    (forall t :: t in unaries ==> Registrable(unaries[t], t) && unaries[t].kind == UNARY) &&
    (forall t :: t in binaries ==> Registrable(binaries[t], t) && binaries[t].kind == BINARY) &&
    NoClash(EntriesOf(unaries, binaries))
  }

  /**
   * One scan of parseSubstring's placeholder loop: the first '(' of expr,
   * the block it opens, and the text with that block replaced by the n-th
   * placeholder.
   */
  method FindBlock(expr: string, n: nat) returns (next: Option<(string, string)>)
    requires Balanced(expr)
    ensures next == NextBlock(expr, n)
  {
    OpenFound(expr);
    var found := Find(expr, "(");
    if found.None? {
      return None;
    }
    var x := found.value;
    var atom := SubstringInParentheses(expr, x);
    next := Some((atom, Substituted(expr, x, |atom|, n)));
  }

  /** The default binary operators, their precedences and their transforms. */
  ghost predicate DefaultBinaryTable(m: map<string, Operator>, math: MathLib) {
    m.Keys == DefaultBinaries().Keys &&
    forall t :: t in m ==> m[t].prec == DefaultBinaries()[t] && m[t].effect == BinaryEffect(DefaultBinaryEffects(math)[t])
  }

  /** The default unary operators, their precedences and their transforms. */
  ghost predicate DefaultUnaryTable(m: map<string, Operator>, math: MathLib) {
    m.Keys == DefaultUnaries().Keys &&
    forall t :: t in m ==> m[t].prec == DefaultUnaries()[t] && m[t].effect == UnaryEffect(DefaultUnaryEffects(math)[t])
  }

  /** The binary operators loadDefaultKnownOperators creates, filed under their tokens, make the default table. */
  lemma {:induction false} BinaryTableOfDefaults(math: MathLib, sum: Operator, difference: Operator, product: Operator, quotient: Operator, power: Operator)
    requires sum.prec == ADD && sum.effect == BinaryEffect(Sum)
    requires difference.prec == ADD && difference.effect == BinaryEffect(Difference)
    requires product.prec == MUL && product.effect == BinaryEffect(Product)
    requires quotient.prec == MUL && quotient.effect == BinaryEffect(math.div)
    requires power.prec == POW && power.effect == BinaryEffect(Power(math))
    ensures DefaultBinaryTable(map["+" := sum, "-" := difference, "*" := product, "/" := quotient, "^" := power], math)
  {
  }

  /** The unary operators loadDefaultKnownOperators creates, filed under their tokens, make the default table. */
  lemma {:induction false} UnaryTableOfDefaults(math: MathLib, negation: Operator, identity: Operator, log: Operator, exp: Operator,
                             sin: Operator, cos: Operator, tan: Operator)
    requires negation.prec == FUNC && negation.effect == UnaryEffect(Negation)
    requires identity.prec == FUNC && identity.effect == UnaryEffect(Identity)
    requires log.prec == FUNC && log.effect == UnaryEffect(math.log)
    requires exp.prec == FUNC && exp.effect == UnaryEffect(math.exp)
    requires sin.prec == FUNC && sin.effect == UnaryEffect(math.sin)
    requires cos.prec == FUNC && cos.effect == UnaryEffect(math.cos)
    requires tan.prec == FUNC && tan.effect == UnaryEffect(math.tan)
    ensures DefaultUnaryTable(map["-" := negation, "+" := identity, "ln" := log, "exp" := exp,
                                  "sin" := sin, "cos" := cos, "tg" := tan], math)
  {
  }

  class Parser {
    var knownUnaries: map<string, Operator>
    var knownBinaries: map<string, Operator>
    /** The characters of the registered tokens, valid in an expression besides DEFAULT_VALID_CHARS. */
    var validTokenChars: set<char>
    /** The variables the last parse met, by name; one cell per name. */
    var knownVars: map<string, Variable>
    var knownNamedConsts: map<string, real>

    /** The registered operators as (kind, token) pairs: what knownOps() holds. */
    function Entries(): set<Entry>
      reads this
    {
      EntriesOf(knownUnaries, knownBinaries)
    }

    /**
     * The registry is well filed, the valid characters are those of the
     * tokens, and every variable is filed under its name.
     */
    predicate Valid()
      reads this
    {
      WellFiled(knownUnaries, knownBinaries) &&
      validTokenChars == TokenChars(knownUnaries.Keys + knownBinaries.Keys) &&
      (forall n :: n in knownVars ==> knownVars[n].name == n)
    }

    /** knownOps().containsKey(op): this very operator object is registered. */
    predicate Registered(op: Operator)
      reads this
    {
      op in knownUnaries.Values || op in knownBinaries.Values
    }

    /** The tables a parse reads. */
    function Snapshot(): Tables
      reads this
    {
      Tables(knownUnaries, knownBinaries, knownNamedConsts, knownVars)
    }

    /** validChars matches the whole string. */
    predicate ValidChars(s: string)
      reads this
    {
      forall i :: 0 <= i < |s| ==> IsDefaultValidChar(s[i]) || s[i] in validTokenChars
    }

    /** The static initializer: the default operators, then the default named constants. */
    constructor (math: MathLib)
      ensures Valid()
      ensures Entries() == DefaultEntries()
      ensures DefaultOperators(math)
      ensures knownNamedConsts == map["pi" := PI, "e" := E]
      ensures knownVars == map[]
    {
      knownUnaries := map[];
      knownBinaries := map[];
      validTokenChars := {};
      knownVars := map[];
      knownNamedConsts := map[];
      new;
      LoadDefaultKnownOperators(math);
      ResetNamedConstants();
    }

    // ------------------------------------------------------------ the operator registry

    /** clearKnownOperators: no operator is known and only the default characters are valid. */
    method ClearKnownOperators()
      requires Valid()
      modifies this
      ensures Valid()
      ensures knownUnaries == map[] && knownBinaries == map[] && Entries() == {}
      ensures validTokenChars == {}
      ensures knownVars == old(knownVars) && knownNamedConsts == old(knownNamedConsts)
    {
      knownUnaries := map[];
      knownBinaries := map[];
      validTokenChars := {};
    }

    /**
     * Once clearKnownOperators has emptied the registry, "1 + 1" no longer
     * passes the character check: '+' is valid only as a token character.
     */
    lemma {:induction false} ClearedRejectsSum()
      requires validTokenChars == {}
      ensures !ValidChars("1 + 1")
    {
      assert !IsDefaultValidChar("1 + 1"[2]);
    }

    /**
     * With no operator registered, the character check is DEFAULT_VALID_CHARS
     * alone.
     */
    lemma {:induction false} ClearedValidChars(s: string)
      requires validTokenChars == {}
      ensures ValidChars(s) <==> DefaultValidChars(s)
    {
    }

    /**
     * recalculateValidChars: the characters of all registered tokens, read
     * from the registry (see the finding on the stale cache).
     */
    method RecalculateValidChars()
      modifies this
      ensures validTokenChars == TokenChars(knownUnaries.Keys + knownBinaries.Keys)
      ensures knownUnaries == old(knownUnaries) && knownBinaries == old(knownBinaries)
      ensures knownVars == old(knownVars) && knownNamedConsts == old(knownNamedConsts)
    {
      var tokens := knownUnaries.Keys + knownBinaries.Keys;
      var validCh := "";
      var rest := tokens;
      while rest != {}
        invariant rest <= tokens
        invariant CharsOf(validCh) == TokenChars(tokens - rest)
        invariant unchanged(this)
        decreases |rest|
      {
        var t :| t in rest;
        CharsOfConcat(validCh, t);
        TokenCharsAdd(tokens - rest, t);
        assert (tokens - rest) + {t} == tokens - (rest - {t});
        validCh := validCh + t;
        rest := rest - {t};
      }
      assert tokens - rest == tokens;
      validTokenChars := CharsOf(validCh);
    }

    /** The scan of addOperator over the known operators: does any of them clash with e? */
    method ConflictsWithKnown(e: Entry) returns (c: bool)
      ensures c == Conflicts(Entries(), e)
    {
      var rest := Entries();
      while rest != {}
        invariant rest <= Entries()
        invariant forall k :: k in Entries() - rest ==> !Clash(k, e)
        decreases |rest|
      {
        var k :| k in rest;
        if Clash(k, e) {
          return true;
        }
        rest := rest - {k};
      }
      return false;
    }

    /**
     * addOperator: null or an empty token is refused; an operator already
     * registered is accepted as it is; a token with upper-case letters or
     * one that clashes with a known operator is refused; otherwise the
     * operator is filed under its token in the table of its kind.
     */
    method AddOperator(op: Operator?) returns (ok: bool)
      requires Valid()
      modifies this
      ensures Valid()
      ensures ok <==> (op != null && op.token != [] &&
        (old(Registered(op)) || (IsLowerCase(op.token) && !Conflicts(old(Entries()), (op.kind, op.token)))))
      ensures ok ==> Entries() == old(Entries()) + {(op.kind, op.token)}
      ensures ok && op.kind == UNARY ==>
        knownUnaries == old(knownUnaries)[op.token := op] && knownBinaries == old(knownBinaries)
      ensures ok && op.kind == BINARY ==>
        knownBinaries == old(knownBinaries)[op.token := op] && knownUnaries == old(knownUnaries)
      ensures !ok ==> knownUnaries == old(knownUnaries) && knownBinaries == old(knownBinaries)
      ensures knownVars == old(knownVars) && knownNamedConsts == old(knownNamedConsts)
    {
      if op == null || op.token == [] {
        return false;
      }
      if Registered(op) {
        if op in knownUnaries.Values {
          var t :| t in knownUnaries && knownUnaries[t] == op;
          assert knownUnaries[op.token := op] == knownUnaries;
          assert (UNARY, t) in Entries();
        } else {
          var t :| t in knownBinaries && knownBinaries[t] == op;
          assert knownBinaries[op.token := op] == knownBinaries;
          assert (BINARY, t) in Entries();
        }
        return true;
      }
      if !IsLowerCase(op.token) {
        return false;
      }
      var e := (op.kind, op.token);
      var clash := ConflictsWithKnown(e);
      if clash {
        return false;
      }
      AddKeepsNoClash(Entries(), e);
      ghost var before := Entries();
      if op.kind == UNARY {
        knownUnaries := knownUnaries[op.token := op];
        assert knownUnaries.Keys == old(knownUnaries).Keys + {op.token};
      } else {
        knownBinaries := knownBinaries[op.token := op];
        assert knownBinaries.Keys == old(knownBinaries).Keys + {op.token};
      }
      assert Entries() == before + {e};
      RecalculateValidChars();
      ok := true;
    }

    /** The registry holds the default operators, with their precedences and transforms. */
    ghost predicate DefaultOperators(math: MathLib)
      reads this
    {
      DefaultBinaryTable(knownBinaries, math) && DefaultUnaryTable(knownUnaries, math)
    }

    /**
     * addOperator of the k-th default operator, a binary one, while the
     * registry holds the ones before it: it is accepted and filed.
     */
    method AddDefaultBinary(token: string, prec: Precedence, effect: (real, real) -> real, ghost k: nat)
      returns (op: Operator)
      requires Valid() && k < |DefaultOrder()| && Entries() == DefaultPrefix(k)
      requires (BINARY, token) == DefaultAt(k)
      modifies this
      ensures op.token == token && op.prec == prec && op.effect == BinaryEffect(effect)
      ensures Valid() && Entries() == DefaultPrefix(k + 1)
      ensures knownBinaries == old(knownBinaries)[token := op] && knownUnaries == old(knownUnaries)
      ensures knownVars == old(knownVars) && knownNamedConsts == old(knownNamedConsts)
    {
      op := new Operator.Binary(token, prec, effect);
      DefaultOrderAt(k);
      NextDefaultAccepted(k);
      var ok := AddOperator(op);
    }

    /** The same for the k-th default operator when it is a unary one. */
    method AddDefaultUnary(token: string, prec: Precedence, effect: real -> real, ghost k: nat)
      returns (op: Operator)
      requires Valid() && k < |DefaultOrder()| && Entries() == DefaultPrefix(k)
      requires (UNARY, token) == DefaultAt(k)
      modifies this
      ensures op.token == token && op.prec == prec && op.effect == UnaryEffect(effect)
      ensures Valid() && Entries() == DefaultPrefix(k + 1)
      ensures knownUnaries == old(knownUnaries)[token := op] && knownBinaries == old(knownBinaries)
      ensures knownVars == old(knownVars) && knownNamedConsts == old(knownNamedConsts)
    {
      op := new Operator.Unary(token, prec, effect);
      DefaultOrderAt(k);
      NextDefaultAccepted(k);
      var ok := AddOperator(op);
    }

    /** The binary half of loadDefaultKnownOperators: + - * / ^. */
    method LoadDefaultBinaries(math: MathLib)
      requires Valid() && knownUnaries == map[] && knownBinaries == map[] && Entries() == DefaultPrefix(0)
      modifies this
      ensures Valid() && Entries() == DefaultPrefix(5)
      ensures knownUnaries == map[] && DefaultBinaryTable(knownBinaries, math)
      ensures knownVars == old(knownVars) && knownNamedConsts == old(knownNamedConsts)
    {
      var sum := AddDefaultBinary("+", ADD, Sum, 0);
      var difference := AddDefaultBinary("-", ADD, Difference, 1);
      var product := AddDefaultBinary("*", MUL, Product, 2);
      var quotient := AddDefaultBinary("/", MUL, math.div, 3);
      var power := AddDefaultBinary("^", POW, Power(math), 4);
      assert knownBinaries == map["+" := sum, "-" := difference, "*" := product, "/" := quotient, "^" := power];
      BinaryTableOfDefaults(math, sum, difference, product, quotient, power);
    }

    /** The unary half of loadDefaultKnownOperators: - + ln exp sin cos tg. */
    method LoadDefaultUnaries(math: MathLib)
      requires Valid() && knownUnaries == map[] && Entries() == DefaultPrefix(5)
      modifies this
      ensures Valid() && Entries() == DefaultPrefix(12)
      ensures DefaultUnaryTable(knownUnaries, math) && knownBinaries == old(knownBinaries)
      ensures knownVars == old(knownVars) && knownNamedConsts == old(knownNamedConsts)
    {
      var negation := AddDefaultUnary("-", FUNC, Negation, 5);
      var identity := AddDefaultUnary("+", FUNC, Identity, 6);
      var log := AddDefaultUnary("ln", FUNC, math.log, 7);
      var exp := AddDefaultUnary("exp", FUNC, math.exp, 8);
      var sin := AddDefaultUnary("sin", FUNC, math.sin, 9);
      var cos := AddDefaultUnary("cos", FUNC, math.cos, 10);
      var tan := AddDefaultUnary("tg", FUNC, math.tan, 11);
      assert knownUnaries == map["-" := negation, "+" := identity, "ln" := log, "exp" := exp, "sin" := sin, "cos" := cos, "tg" := tan];
      UnaryTableOfDefaults(math, negation, identity, log, exp, sin, cos, tan);
    }

    /**
     * loadDefaultKnownOperators: after clearing the registry, the binary
     * operators + - * / ^ and the unary operators - + ln exp sin cos tg.
     */
    method LoadDefaultKnownOperators(math: MathLib)
      requires Valid()
      modifies this
      ensures Valid()
      ensures Entries() == DefaultEntries()
      ensures DefaultOperators(math)
      ensures knownVars == old(knownVars) && knownNamedConsts == old(knownNamedConsts)
    {
      ClearKnownOperators();
      DefaultPrefixEmpty();
      LoadDefaultBinaries(math);
      LoadDefaultUnaries(math);
      RecalculateValidChars();
      DefaultOrderComplete();
    }

    // ------------------------------------------------------------ named constants and variables

    /**
     * addNamedConstant: a new name is added; a known name is left as it is,
     * and the answer says whether it already had this value.
     */
    method AddNamedConstant(name: string, value: real) returns (ok: bool)
      modifies this
      ensures name in old(knownNamedConsts) ==>
        ok == (value == old(knownNamedConsts)[name]) && knownNamedConsts == old(knownNamedConsts)
      ensures name !in old(knownNamedConsts) ==> ok && knownNamedConsts == old(knownNamedConsts)[name := value]
      ensures knownUnaries == old(knownUnaries) && knownBinaries == old(knownBinaries)
      ensures validTokenChars == old(validTokenChars) && knownVars == old(knownVars)
    {
      if name in knownNamedConsts {
        return value == knownNamedConsts[name];
      }
      knownNamedConsts := knownNamedConsts[name := value];
      return true;
    }

    /** resetNamedConstants: only pi and e. */
    method ResetNamedConstants()
      modifies this
      ensures knownNamedConsts == map["pi" := PI, "e" := E]
      ensures knownUnaries == old(knownUnaries) && knownBinaries == old(knownBinaries)
      ensures validTokenChars == old(validTokenChars) && knownVars == old(knownVars)
    {
      knownNamedConsts := map[];
      var ok := AddNamedConstant("pi", PI);
      ok := AddNamedConstant("e", E);
    }

    /**
     * addNewVariable: the cell already filed under the name, or a new unset
     * cell filed under it; all variables of one name are one cell.
     */
    method AddNewVariable(name: string) returns (v: Variable)
      requires Valid()
      modifies this
      ensures Valid()
      ensures name in old(knownVars) ==> v == old(knownVars)[name] && knownVars == old(knownVars)
      ensures name !in old(knownVars) ==>
        fresh(v) && v.name == name && !v.IsSet() && knownVars == old(knownVars)[name := v]
      ensures knownUnaries == old(knownUnaries) && knownBinaries == old(knownBinaries)
      ensures validTokenChars == old(validTokenChars) && knownNamedConsts == old(knownNamedConsts)
    {
      if name in knownVars {
        return knownVars[name];
      }
      v := new Variable(name);
      knownVars := knownVars[name := v];
    }

    /** setVariable: the cell of that name gets the value; an unknown name is an error. */
    method SetVariable(name: string, value: real) returns (r: Result<(), EvalError>)
      requires Valid()
      modifies if name in knownVars then {knownVars[name]} else {}
      ensures name !in knownVars ==> r == Failure(UnknownVariable(name))
      ensures name in knownVars ==> r == Success(()) && knownVars[name].Calculate() == Success(value)
    {
      if name !in knownVars {
        return Failure(UnknownVariable(name));
      }
      knownVars[name].SetValue(value);
      return Success(());
    }

    /** unsetAllVariables: every known variable is unset again. */
    method UnsetAllVariables()
      requires Valid()
      modifies knownVars.Values
      ensures forall n :: n in knownVars ==> !knownVars[n].IsSet()
    {
      var cells := knownVars.Values;
      while cells != {}
        invariant cells <= knownVars.Values
        invariant forall c :: c in knownVars.Values && c !in cells ==> !c.IsSet()
        decreases |cells|
      {
        var c :| c in cells;
        c.UnsetValue();
        cells := cells - {c};
      }
    }

    // ------------------------------------------------------------ parsing

    /**
     * The recognizer's test of one atom, in the order of the source: a
     * placeholder, a number, a named constant, an operator token, or else a
     * variable, filed in the table if new.
     */
    method RecognizeAtom(a: string, parsed: seq<Expr>, prev: seq<Link>) returns (r: Result<Expr, ParseError>)
      requires Valid()
      modifies this
      ensures Valid() && Grows(old(Snapshot()), Snapshot())
      ensures forall n :: n in knownVars && n !in old(knownVars) ==>
        n == a && IsVariableAtom(a, Snapshot()) && fresh(knownVars[n]) && !knownVars[n].IsSet()
      ensures r.Failure? <==> AtomFails(a, |parsed|)
      ensures r.Failure? ==> r.error == PlaceholderTarget(a, |parsed|).error
      ensures IsVariableAtom(a, Snapshot()) ==> a in knownVars
      ensures r.Success? ==> r.value == Recognize(a, parsed, prev, Snapshot())
    {
      if IsPlaceholder(a) {
        var target := PlaceholderTarget(a, |parsed|);
        if target.Failure? {
          return Failure(target.error);
        }
        return Success(parsed[target.value]);
      } else if IsNumber(a) {
        return Success(Constant(NumberValue(a)));
      } else if a in knownNamedConsts {
        return Success(NamedConstant(knownNamedConsts[a], a));
      } else if a in knownUnaries || a in knownBinaries {
        return Success(NewInstance(ChooseOperator(a, prev, Snapshot())));
      } else {
        var v := AddNewVariable(a);
        return Success(Var(v));
      }
    }

    /**
     * The recognizer loop: the chain of the atoms, or the exception of the
     * first atom whose recognition throws.
     */
    method Recognizer(atoms: seq<string>, parsed: seq<Expr>) returns (r: Result<seq<Link>, ParseError>)
      requires Valid()
      modifies this
      ensures Valid() && Grows(old(Snapshot()), Snapshot())
      ensures forall n :: n in knownVars && n !in old(knownVars) ==> fresh(knownVars[n]) && !knownVars[n].IsSet()
      ensures forall n :: n in knownVars && n !in old(knownVars) ==> n in VariableAtomsOf(atoms, Snapshot())
      ensures FirstFailure(atoms, |parsed|).None? ==>
        VarsCover(atoms, Snapshot()) && r == Success(ChainOf(atoms, parsed, Snapshot()))
      ensures FirstFailure(atoms, |parsed|).Some? ==> r == Failure(FirstFailure(atoms, |parsed|).value)
    {
      var chain: seq<Link> := [];
      var i := 0;
      while i < |atoms|
        invariant 0 <= i <= |atoms|
        invariant Valid() && Grows(old(Snapshot()), Snapshot())
        invariant forall n :: n in knownVars && n !in old(knownVars) ==> fresh(knownVars[n]) && !knownVars[n].IsSet()
        invariant forall n :: n in knownVars && n !in old(knownVars) ==> n in VariableAtomsOf(atoms[..i], Snapshot())
        invariant FirstFailure(atoms[..i], |parsed|).None? && VarsCover(atoms[..i], Snapshot())
        invariant chain == ChainOf(atoms[..i], parsed, Snapshot())
      {
        ghost var before := Snapshot();
        var x := RecognizeAtom(atoms[i], parsed, chain);
        VariableAtomsOfStep(atoms, i, before, Snapshot());
        if x.Failure? {
          FirstFailureAt(atoms, i, |parsed|);
          VariableAtomsOfPrefix(atoms, i + 1, Snapshot());
          return Failure(x.error);
        }
        ChainOfStep(atoms, i, parsed, before, Snapshot(), chain);
        chain := chain + [Link(i, x.value)];
        i := i + 1;
      }
      assert atoms[..i] == atoms;
      return Success(chain);
    }

    /**
     * parseSubstring: exactly the parse ParseText describes, read against
     * the variable table as the parse leaves it. The registry and the
     * constants are left as they are; the variables it meets are added as
     * new unset cells.
     */
    method ParseSubstring(expr0: string) returns (r: Result<Expr, ParseError>)
      requires Valid() && Balanced(expr0)
      modifies this
      ensures Valid() && Grows(old(Snapshot()), Snapshot())
      ensures forall n :: n in knownVars && n !in old(knownVars) ==> fresh(knownVars[n]) && !knownVars[n].IsSet()
      ensures NewNamesAmong(old(knownVars), knownVars, VariableNames(expr0, Snapshot()))
      ensures ParseText(expr0, Snapshot()) == Some(r)
      decreases OpenCount(expr0)
    {
      var expr := expr0;
      var parsed: seq<Expr> := [];
      ghost var inners: seq<string> := [];
      while true
        invariant Balanced(expr) && OpenCount(expr) <= OpenCount(expr0)
        invariant Replay(expr0, inners) == Some(expr) && BlocksParse(inners, parsed, Snapshot())
        invariant Valid() && Grows(old(Snapshot()), Snapshot())
        invariant forall n :: n in knownVars && n !in old(knownVars) ==> fresh(knownVars[n]) && !knownVars[n].IsSet()
        invariant NewNamesAmong(old(knownVars), knownVars, VariableNames(expr0, old(Snapshot())))
        decreases OpenCount(expr)
      {
        var next := FindBlock(expr, |parsed|);
        if next.None? {
          break;
        }
        var (atom, rest) := next.value;
        ghost var before := Snapshot();
        var sub := ParseSubstring(atom);
        GrowsTransitive(old(Snapshot()), before, Snapshot());
        RoundNames(expr0, inners, expr, atom, rest, old(Snapshot()), Snapshot());
        NewNamesChain(old(knownVars), before.vars, knownVars, VariableNames(expr0, old(Snapshot())), VariableNames(atom, Snapshot()));
        RoundOutcome(expr0, inners, parsed, expr, atom, rest, before, Snapshot(), sub);
        if sub.Failure? {
          VariableNamesGrows(expr0, old(Snapshot()), Snapshot());
          return sub;
        }
        parsed := parsed + [sub.value];
        inners := inners + [atom];
        expr := rest;
      }
      var atoms := Split(expr);
      ghost var before := Snapshot();
      r := ParseAtomsOf(atoms, parsed);
      GrowsTransitive(old(Snapshot()), before, Snapshot());
      ExitNames(expr0, inners, expr, old(Snapshot()), Snapshot());
      NewNamesChain(old(knownVars), before.vars, knownVars, VariableNames(expr0, old(Snapshot())), VariableAtomsOf(atoms, Snapshot()));
      VariableNamesGrows(expr0, old(Snapshot()), Snapshot());
      ExitOutcome(expr0, inners, parsed, expr, before, Snapshot(), r);
    }

    /**
     * The rest of parseSubstring once no parentheses are left: no atoms is
     * an empty expression; otherwise the atoms are recognized and the chain
     * is reduced.
     */
    method ParseAtomsOf(atoms: seq<string>, parsed: seq<Expr>) returns (r: Result<Expr, ParseError>)
      requires Valid()
      modifies this
      ensures Valid() && Grows(old(Snapshot()), Snapshot())
      ensures forall n :: n in knownVars && n !in old(knownVars) ==> fresh(knownVars[n]) && !knownVars[n].IsSet()
      ensures NewNamesAmong(old(knownVars), knownVars, VariableAtomsOf(atoms, Snapshot()))
      ensures AtomsOutcome(atoms, parsed, Snapshot()) == Some(r)
    {
      if |atoms| == 0 {
        return Failure(EmptyExpression);
      }
      var chain := Recognizer(atoms, parsed);
      if chain.Failure? {
        r := Failure(chain.error);
      } else {
        r := ReduceChain(chain.value);
      }
    }

    /**
     * parse: the variable table is cleared; a character outside validChars
     * and a bad parenthesis structure are reported in that order; otherwise
     * the result is the parse of the whole text. Every variable in the table
     * afterwards is a new unset cell.
     */
    method Parse(expr: string) returns (r: Result<Expr, ParseError>)
      requires Valid()
      modifies this
      ensures Valid()
      ensures knownUnaries == old(knownUnaries) && knownBinaries == old(knownBinaries)
      ensures validTokenChars == old(validTokenChars) && knownNamedConsts == old(knownNamedConsts)
      ensures forall n :: n in knownVars ==> fresh(knownVars[n]) && !knownVars[n].IsSet()
      ensures !ValidChars(expr) ==> r == Failure(InvalidCharacter) && knownVars == map[]
      ensures ValidChars(expr) && !Balanced(expr) ==> r == Failure(InvalidParenthesisStructure) && knownVars == map[]
      ensures ValidChars(expr) && Balanced(expr) ==> ParseText(expr, Snapshot()) == Some(r)
      ensures ValidChars(expr) && Balanced(expr) ==> knownVars.Keys <= VariableNames(expr, Snapshot())
      ensures ValidChars(expr) && Balanced(expr) && r.Success? ==> knownVars.Keys == VariableNames(expr, Snapshot())
      ensures r == Failure(InvalidCharacter) <==> !ValidChars(expr)
      ensures r == Failure(InvalidParenthesisStructure) <==> ValidChars(expr) && !Balanced(expr)
      ensures r.Success? ==> Complete(r.value) && Cells(r.value) <= knownVars.Values
    {
      knownVars := map[];
      if !ValidChars(expr) {
        return Failure(InvalidCharacter);
      }
      var errpos := CheckParenthesesAreCorrect(expr);
      if errpos >= 0 {
        return Failure(InvalidParenthesisStructure);
      }
      ghost var before := Snapshot();
      r := ParseSubstring(expr);
      ParseTextOutcome(expr, Snapshot());
      assert Snapshot() == before.(vars := knownVars);
      if r.Success? {
        ParseTextFilesNames(expr, Snapshot());
      }
    }
  }
}
