/** How the interpreter evaluates a guard over the values its references resolve to
    (`eval_value`, `_comparison_holds`, `_condition_holds` in `impl/lnpl/interp.py`), for
    integer operands. */
module Evaluation {
  import opened Conditions

  /** The value each resolvable reference has when a guard is evaluated. */
  type Scope = map<string, int>

  // A number, a reference that names nothing, or the run error the evaluation raises.
  datatype Evaluated = Number(n: int) | Unresolved | ValueFault

  datatype Verdict = Holds(truth: bool) | GuardFault

  function Magnitude(n: int): nat {
    if n < 0 then -n else n
  }

  /** Division truncating toward zero. */
  function Quotient(a: int, b: int): int
    requires b != 0
  {
    var q := Magnitude(a) / Magnitude(b);
    if (a < 0) != (b < 0) then -q else q
  }

  function Checked(n: int): Evaluated {
    if InInt64(n) then Number(n) else ValueFault
  }

  function EvalArith(op: ArithOp, a: int, b: int): Evaluated {
    match op
    case Add => Checked(a + b)
    case Sub => Checked(a - b)
    case Mul => Checked(a * b)
    case Div => if b == 0 then ValueFault else Checked(Quotient(a, b))
  }

  function EvalValue(v: Value, scope: Scope): Evaluated {
    match v
    case Ref(name) => if name in scope then Checked(scope[name]) else Unresolved
    case Lit(n, _) => Number(n)
    case Arith(l, op, r) =>
      var a := EvalValue(l, scope);
      if a.ValueFault? then ValueFault
      else
        var b := EvalValue(r, scope);
        if b.ValueFault? then ValueFault
        else if a.Unresolved? || b.Unresolved? then Unresolved
        else EvalArith(op, a.n, b.n)
  }

  predicate Compare(op: Comparator, a: int, b: int) {
    match op
    case Lt => a < b
    case Le => a <= b
    case Gt => a > b
    case Ge => a >= b
    case Eq => a == b
    case Ne => a != b
  }

  function EvalComparison(l: Value, op: Comparator, r: Value, scope: Scope): Verdict {
    var a := EvalValue(l, scope);
    if a.ValueFault? then GuardFault
    else
      var b := EvalValue(r, scope);
      if b.ValueFault? then GuardFault
      else if a.Unresolved? || b.Unresolved? then Holds(false)
      else Holds(Compare(op, a.n, b.n))
  }

  /** Presence and numeric shape never fault; in this scope every resolved value is a number. */
  function EvalTerm(t: Condition, scope: Scope): Verdict {
    match t
    case Comparison(l, op, r) => EvalComparison(l, op, r, scope)
    case Presence(field, k) => Holds((field in scope) == k.Exists?)
    case NumericPredicate(field, k) => Holds((field in scope) == k.IsNumeric?)
    case And(_) => GuardFault
  }

  /** Every term is evaluated: a fault in a later term surfaces whatever the earlier ones say. */
  function EvalTerms(terms: seq<Condition>, scope: Scope): Verdict {
    if terms == [] then Holds(true)
    else
      var first := EvalTerm(terms[0], scope);
      var rest := EvalTerms(terms[1..], scope);
      if first.GuardFault? || rest.GuardFault? then GuardFault
      else Holds(first.truth && rest.truth)
  }

  /** The comparison terms of a condition, in source order. */
  function Comparisons(c: Condition): (terms: seq<Condition>)
    ensures forall i :: 0 <= i < |terms| ==> terms[i].Comparison?
  {
    match c
    case Comparison(_, _, _) => [c]
    case And(terms) => OnlyComparisons(terms)
    case _ => []
  }

  function OnlyComparisons(terms: seq<Condition>): (out: seq<Condition>)
    ensures forall i :: 0 <= i < |out| ==> out[i].Comparison?
    ensures (forall i :: 0 <= i < |terms| ==> terms[i].Comparison?) ==> out == terms
    ensures |out| <= |terms|
  {
    if terms == [] then []
    else (if terms[0].Comparison? then [terms[0]] else []) + OnlyComparisons(terms[1..])
  }

  /** Built from comparisons alone: the conditions mode B has an evaluator for. */
  predicate IsCompiled(c: Condition) {
    c.Comparison? || (c.And? && c.terms != [] && forall i :: 0 <= i < |c.terms| ==> c.terms[i].Comparison?)
  }

  function EvalCondition(c: Condition, scope: Scope): Verdict {
    EvalTerms(if c.And? then c.terms else [c], scope)
  }
}
