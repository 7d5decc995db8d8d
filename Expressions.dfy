/**
 * The expression tree (Expression, Constant, NamedConstant, Variable and
 * OperatorInstance): completeness, the variables an expression depends on,
 * its prefix and infix renderings and its evaluation.
 */
module Expressions {
  import opened Wrappers
  import opened Operators
  import opened Variables
  import opened Parentheses

  /**
   * A node of the tree. An operator instance refers to its prototype, from
   * which it copies kind, precedence, token and transform; an operand the
   * parser has not filled in yet is None (Java's null).
   */
  datatype Expr =
    | Constant(value: real)
    | NamedConstant(value: real, name: string)
    | Var(cell: Variable)
    | Instance(op: Operator, left: Option<Expr>, right: Option<Expr>)

  /**
   * complete(): leaves are complete; a unary instance when its right operand is
   * present and complete, a binary instance when both operands are.
   */
  predicate Complete(e: Expr) {
    match e
    case Instance(op, l, r) =>
      (op.kind == BINARY ==> l.Some? && Complete(l.value)) && r.Some? && Complete(r.value)
    case _ => true
  }

  /** new OperatorInstance(proto): no operands yet, hence incomplete. */
  function NewInstance(proto: Operator): (e: Expr)
    ensures e.Instance? && e.op == proto && e.op.kind == proto.kind
    ensures e.op.prec == proto.prec && e.op.token == proto.token
    ensures !Complete(e)
  {
    Instance(proto, None, None)
  }

  /** The variable cells an evaluation of e can reach (the operands its kind uses). */
  function Cells(e: Expr): set<Variable> {
    match e
    case Var(c) => {c}
    case Instance(op, l, r) =>
      (if op.kind == BINARY && l.Some? then Cells(l.value) else {})
      + (if r.Some? then Cells(r.value) else {})
    case _ => {}
  }

  /**
   * The variable cells of e in the order calculate() visits them: the left
   * operand of a binary instance before its right one.
   */
  function CellsInOrder(e: Expr): (r: seq<Variable>)
    ensures forall i :: 0 <= i < |r| ==> r[i] in Cells(e)
  {
    match e
    case Var(c) => [c]
    case Instance(op, l, r) =>
      (if op.kind == BINARY && l.Some? then CellsInOrder(l.value) else [])
      + (if r.Some? then CellsInOrder(r.value) else [])
    case _ => []
  }

  /** cells[i] is unset, named name, and every cell before it is set. */
  ghost predicate FirstUnsetAt(cells: seq<Variable>, i: int, name: string)
    reads cells
  {
    0 <= i < |cells| && !cells[i].IsSet() && cells[i].name == name
    && forall j :: 0 <= j < i ==> cells[j].IsSet()
  }

  /**
   * dependsOnVariables(): the names of exactly the variables reachable in e;
   * a constant contributes none, a variable its own name, a unary instance
   * its right operand's, a binary instance the union of both operands'.
   */
  function DependsOnVariables(e: Expr): (r: set<string>)
    requires Complete(e)
    ensures r == set c | c in Cells(e) :: c.name
  {
    match e
    case Constant(_) => {}
    case NamedConstant(_, _) => {}
    case Var(c) => {c.name}
    case Instance(op, l, r) =>
      if op.kind == BINARY then DependsOnVariables(l.value) + DependsOnVariables(r.value)
      else DependsOnVariables(r.value)
  }

  /**
   * calculate(): succeeds exactly when every reachable variable is set, and
   * otherwise fails with VariableNotSet naming one that is not. Which one is
   * stated by CalculateReportsFirstUnset.
   */
  function Calculate(e: Expr): (r: Result<real, EvalError>)
    requires Complete(e)
    reads Cells(e)
    ensures r.Success? <==> forall c :: c in Cells(e) ==> c.IsSet()
    ensures r.Failure? ==> r.error.VariableNotSet?
    ensures r.Failure? ==> exists c :: c in Cells(e) && !c.IsSet() && r.error.name == c.name
  {
    match e
    case Constant(v) => Success(v)
    case NamedConstant(v, _) => Success(v)
    case Var(c) => c.Calculate()
    case Instance(op, l, r) =>
      match op.effect
      case UnaryEffect(f) =>
        var x :- Calculate(r.value);
        Success(f(x))
      case BinaryEffect(g) =>
        var x :- Calculate(l.value);
        var y :- Calculate(r.value);
        Success(g(x, y))
  }

  /** calculate() of an instance applies its transform to the operand values. */
  lemma {:induction false} InstanceApplies(op: Operator, l: Option<Expr>, r: Option<Expr>)
    requires Complete(Instance(op, l, r))
    ensures op.effect.UnaryEffect? && Calculate(r.value).Success? ==>
      Calculate(Instance(op, l, r)) == Success(op.effect.apply(Calculate(r.value).value))
    ensures op.effect.BinaryEffect? && Calculate(l.value).Success? && Calculate(r.value).Success? ==>
      Calculate(Instance(op, l, r))
        == Success(op.effect.combine(Calculate(l.value).value, Calculate(r.value).value))
  {
  }

  /**
   * toLispString(): a leaf renders as its text, a unary instance as
   * tok(r), a binary instance as tok(l,r). A plain constant is rendered by
   * show, which stands for Double.toString.
   */
  function ToLispString(e: Expr, show: real -> string): string
    requires Complete(e)
  {
    match e
    case Constant(v) => show(v)
    case NamedConstant(_, n) => n
    case Var(c) => c.name
    case Instance(op, l, r) =>
      if op.kind == UNARY then op.token + "(" + ToLispString(r.value, show) + ")"
      else op.token + "(" + ToLispString(l.value, show) + "," + ToLispString(r.value, show) + ")"
  }

  /**
   * toString(): a leaf renders as its text, a unary instance as tok(r), a
   * binary instance as (l tok r).
   */
  function ToInfixString(e: Expr, show: real -> string): string
    requires Complete(e)
  {
    match e
    case Constant(v) => show(v)
    case NamedConstant(_, n) => n
    case Var(c) => c.name
    case Instance(op, l, r) =>
      if op.kind == UNARY then op.token + "(" + ToInfixString(r.value, show) + ")"
      else "(" + ToInfixString(l.value, show) + " " + op.token + " " + ToInfixString(r.value, show) + ")"
  }

  /**
   * The constant leaves: a constant evaluates to its value, depends on no
   * variable and renders the same way in both forms, as its number or, when
   * named, as its name.
   */
  lemma {:induction false} ConstantLeaves(v: real, name: string, show: real -> string)
    ensures Complete(Constant(v)) && Complete(NamedConstant(v, name))
    ensures Calculate(Constant(v)) == Success(v) && Calculate(NamedConstant(v, name)) == Success(v)
    ensures DependsOnVariables(Constant(v)) == {} && DependsOnVariables(NamedConstant(v, name)) == {}
    ensures ToLispString(Constant(v), show) == ToInfixString(Constant(v), show) == show(v)
    ensures ToLispString(NamedConstant(v, name), show) == ToInfixString(NamedConstant(v, name), show) == name
  {
  }

  /** A variable leaf is complete, depends on its own name only and renders as that name. */
  lemma {:induction false} VariableLeaf(cell: Variable, show: real -> string)
    ensures Complete(Var(cell))
    ensures DependsOnVariables(Var(cell)) == {cell.name}
    ensures ToLispString(Var(cell), show) == ToInfixString(Var(cell), show) == cell.name
  {
  }

  /** No token or name in e contains a parenthesis. */
  predicate PlainNames(e: Expr) {
    match e
    case Constant(_) => true
    case NamedConstant(_, n) => ParenFree(n)
    case Var(c) => ParenFree(c.name)
    case Instance(op, l, r) =>
      ParenFree(op.token)
      && (l.Some? ==> PlainNames(l.value))
      && (r.Some? ==> PlainNames(r.value))
  }

  /**
   * Both renderings bracket every operand: when no token, name or number text
   * contains a parenthesis, each rendering is a balanced string.
   */
  lemma {:induction false} RenderingsBalanced(e: Expr, show: real -> string)
    requires Complete(e) && PlainNames(e)
    requires forall v :: ParenFree(show(v))
    ensures Balanced(ToLispString(e, show))
    ensures Balanced(ToInfixString(e, show))
  {
    match e
    case Constant(v) =>
      ParenFreeDepth(show(v), 0);
    case NamedConstant(_, n) =>
      ParenFreeDepth(n, 0);
    case Var(c) =>
      ParenFreeDepth(c.name, 0);
    case Instance(op, l, r) =>
      RenderingsBalanced(r.value, show);
      if op.kind == UNARY {
        CallBalanced(op.token, ToLispString(r.value, show));
        CallBalanced(op.token, ToInfixString(r.value, show));
      } else {
        RenderingsBalanced(l.value, show);
        PairBalanced(op.token, ToLispString(l.value, show), ToLispString(r.value, show));
        InfixBalanced(op.token, ToInfixString(l.value, show), ToInfixString(r.value, show));
      }
  }

  lemma {:induction false} CallBalanced(tok: string, a: string)
    requires ParenFree(tok) && Balanced(a)
    ensures Balanced(tok + "(" + a + ")")
  {
    BalancedWrap(a);
    BalancedFramed(tok, "(" + a + ")", "");
    assert tok + "(" + a + ")" == tok + ("(" + a + ")") + "";
  }

  lemma {:induction false} PairBalanced(tok: string, a: string, b: string)
    requires ParenFree(tok) && Balanced(a) && Balanced(b)
    ensures Balanced(tok + "(" + a + "," + b + ")")
  {
    BalancedFramed("", a, ",");
    assert "" + a + "," == a + ",";
    BalancedConcat(a + ",", b);
    CallBalanced(tok, a + "," + b);
    assert tok + "(" + a + "," + b + ")" == tok + "(" + (a + "," + b) + ")";
  }

  lemma {:induction false} InfixBalanced(tok: string, a: string, b: string)
    requires ParenFree(tok) && Balanced(a) && Balanced(b)
    ensures Balanced("(" + a + " " + tok + " " + b + ")")
  {
    var mid := " " + tok + " ";
    assert ParenFree(mid);
    BalancedFramed("", a, mid);
    assert "" + a + mid == a + mid;
    BalancedConcat(a + mid, b);
    BalancedWrap(a + mid + b);
    assert "(" + a + " " + tok + " " + b + ")" == "(" + (a + mid + b) + ")";
  }

  /** The number of operator instances in e (each operand its kind uses). */
  function InstanceCount(e: Expr): nat {
    match e
    case Instance(op, l, r) =>
      1 + (if op.kind == BINARY && l.Some? then InstanceCount(l.value) else 0)
      + (if r.Some? then InstanceCount(r.value) else 0)
    case _ => 0
  }

  /** e holds no binary instance. */
  predicate UnaryOnly(e: Expr) {
    match e
    case Instance(op, l, r) => op.kind == UNARY && r.Some? && UnaryOnly(r.value)
    case _ => true
  }

  /**
   * Each operator instance opens exactly one parenthesis in either rendering,
   * and no other text does when no name or number text holds one.
   */
  lemma {:induction false} RenderingsBracketEachInstance(e: Expr, show: real -> string)
    requires Complete(e) && PlainNames(e)
    requires forall v :: ParenFree(show(v))
    ensures OpenCount(ToLispString(e, show)) == InstanceCount(e)
    ensures OpenCount(ToInfixString(e, show)) == InstanceCount(e)
  {
    match e
    case Constant(v) =>
      ParenFreeDepth(show(v), 0);
    case NamedConstant(_, n) =>
      ParenFreeDepth(n, 0);
    case Var(c) =>
      ParenFreeDepth(c.name, 0);
    case Instance(op, l, r) =>
      RenderingsBracketEachInstance(r.value, show);
      ParenFreeDepth(op.token, 0);
      var rl, ri := ToLispString(r.value, show), ToInfixString(r.value, show);
      if op.kind == UNARY {
        CallOpens(op.token, rl);
        CallOpens(op.token, ri);
      } else {
        RenderingsBracketEachInstance(l.value, show);
        PairOpens(op.token, ToLispString(l.value, show), rl);
        InfixOpens(op.token, ToInfixString(l.value, show), ri);
      }
  }

  /** tok(a) opens one parenthesis more than tok and a together. */
  lemma {:induction false} CallOpens(tok: string, a: string)
    ensures OpenCount(tok + "(" + a + ")") == OpenCount(tok) + 1 + OpenCount(a)
  {
    OpenCountConcat(tok, "(");
    OpenCountConcat(tok + "(", a);
    OpenCountConcat(tok + "(" + a, ")");
    assert OpenCount("(") == 1 by { assert "("[1..] == []; }
    assert OpenCount(")") == 0 by { assert ")"[1..] == []; }
  }

  /** tok(a,b) opens one parenthesis more than tok, a and b together. */
  lemma {:induction false} PairOpens(tok: string, a: string, b: string)
    requires ParenFree(tok)
    ensures OpenCount(tok + "(" + a + "," + b + ")") == 1 + OpenCount(a) + OpenCount(b)
  {
    ParenFreeDepth(tok, 0);
    OpenCountConcat(a, ",");
    OpenCountConcat(a + ",", b);
    assert OpenCount(",") == 0 by { assert ","[1..] == []; }
    CallOpens(tok, a + "," + b);
    assert tok + "(" + a + "," + b + ")" == tok + "(" + (a + "," + b) + ")";
  }

  /** (a tok b) opens one parenthesis more than a and b together. */
  lemma {:induction false} InfixOpens(tok: string, a: string, b: string)
    requires ParenFree(tok)
    ensures OpenCount("(" + a + " " + tok + " " + b + ")") == 1 + OpenCount(a) + OpenCount(b)
  {
    var mid := " " + tok + " ";
    assert ParenFree(mid);
    ParenFreeDepth(mid, 0);
    OpenCountConcat(a, mid);
    OpenCountConcat(a + mid, b);
    CallOpens("", a + mid + b);
    assert "(" + a + " " + tok + " " + b + ")" == "" + "(" + (a + mid + b) + ")";
  }

  /** Without binary instances the prefix and infix renderings coincide. */
  lemma {:induction false} RenderingsAgreeWhenUnary(e: Expr, show: real -> string)
    requires Complete(e) && UnaryOnly(e)
    ensures ToLispString(e, show) == ToInfixString(e, show)
  {
    match e
    case Instance(op, l, r) =>
      RenderingsAgreeWhenUnary(r.value, show);
    case _ =>
  }

  /**
   * The usage the source documents: once every name in dependsOnVariables()
   * is bound, through a table that maps each name to its cell, to a cell that
   * is set, calculate() succeeds.
   */
  lemma {:induction false} CalculateAfterSettingAll(e: Expr, vars: map<string, Variable>)
    requires Complete(e)
    requires forall c :: c in Cells(e) ==> c.name in vars && vars[c.name] == c
    requires forall n :: n in DependsOnVariables(e) && n in vars ==> vars[n].IsSet()
    ensures Calculate(e).Success?
  {
    forall c | c in Cells(e) ensures c.IsSet() {
      assert c.name in DependsOnVariables(e);
    }
  }

  /** A first unset cell of ls stays first when rs follows. */
  lemma {:induction false} FirstUnsetBefore(ls: seq<Variable>, rs: seq<Variable>, i: int, name: string)
    requires FirstUnsetAt(ls, i, name)
    ensures FirstUnsetAt(ls + rs, i, name)
  {
  }

  /** When every cell of ls is set, the first unset cell of rs is first in ls + rs. */
  lemma {:induction false} FirstUnsetAfter(ls: seq<Variable>, rs: seq<Variable>, i: int, name: string)
    requires forall j :: 0 <= j < |ls| ==> ls[j].IsSet()
    requires FirstUnsetAt(rs, i, name)
    ensures FirstUnsetAt(ls + rs, |ls| + i, name)
  {
  }

  /**
   * The variable calculate() reports is the first unset one in evaluation
   * order: left operand before right.
   */
  lemma {:induction false} CalculateReportsFirstUnset(e: Expr)
    requires Complete(e)
    ensures Calculate(e).Failure? ==>
      exists i :: FirstUnsetAt(CellsInOrder(e), i, Calculate(e).error.name)
  {
    match e
    case Constant(_) =>
    case NamedConstant(_, _) =>
    case Var(c) =>
      if Calculate(e).Failure? {
        assert FirstUnsetAt(CellsInOrder(e), 0, Calculate(e).error.name);
      }
    case Instance(op, l, r) =>
      var rs := CellsInOrder(r.value);
      CalculateReportsFirstUnset(r.value);
      if op.kind == UNARY {
        assert CellsInOrder(e) == rs;
      } else {
        var ls := CellsInOrder(l.value);
        CalculateReportsFirstUnset(l.value);
        assert CellsInOrder(e) == ls + rs;
        if Calculate(l.value).Failure? {
          var i :| FirstUnsetAt(ls, i, Calculate(l.value).error.name);
          FirstUnsetBefore(ls, rs, i, Calculate(l.value).error.name);
        } else if Calculate(r.value).Failure? {
          var i :| FirstUnsetAt(rs, i, Calculate(r.value).error.name);
          FirstUnsetAfter(ls, rs, i, Calculate(r.value).error.name);
        }
      }
  }
}
