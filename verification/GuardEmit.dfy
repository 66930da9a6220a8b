/** Lowering guard conditions to SSA instructions (`_literals`, `_emit_division`,
    `_emit_operand`, `_emit_condition`, `_emit_alt_condition` in `impl/lnpl/backend.py`). The
    methods append to a shared line list as the original does; the functions say what they
    append. */
module GuardEmit {
  import opened Wrappers
  import opened Text
  import opened Conditions
  import opened Evaluation
  import opened Machine

  // The index a guard's names carry: a step's own, or `<step>_<alternative>`.
  datatype Idx = Plain(i: nat) | Alternative(i: nat, n: nat)

  // Every SSA name the emitter makes. `SsaNames` gives their spelling.
  datatype Name =
    | Skip
    | C0
    | C1
    | TrueI1
    | Field(ref: string)
    | LitConst(value: int)
    | Tmp(idx: Idx, slot: string)
    | IsZero(idx: Idx, slot: string)
    | SafeRight(idx: Idx, slot: string)
    | Cond(idx: Idx)
    | UntilCond(idx: Idx)
    | TermCond(idx: Idx, n: nat)
    | AndFold(idx: Idx, n: nat)
    | OrFold(i: nat, n: nat)
    | SkipFlag(i: nat)
    | StepPtr(i: nat)
    | StepIndex(i: nat)
    | StepResult(i: nat)
    | KindPtr(i: nat, n: nat)

  type Code = seq<Line<Name>>

  class Lines {
    var items: Code

    constructor ()
      ensures items == []
    {
      items := [];
    }

    method Append(line: Line<Name>)
      modifies this
      ensures items == old(items) + [line]
    {
      items := items + [line];
    }
  }

  // ---- Literals ------------------------------------------------------------------------

  /** The integer constants a value needs declared: its literals, and 0 and 1 for each `/`. */
  function ValueLiterals(v: Value): set<int> {
    match v
    case Ref(_) => {}
    case Lit(n, _) => {n}
    case Arith(l, op, r) => (if op == Div then {0, 1} else {}) + ValueLiterals(l) + ValueLiterals(r)
  }

  function TermLiterals(terms: seq<Condition>): set<int>
    requires forall i :: 0 <= i < |terms| ==> terms[i].Comparison?
  {
    if terms == [] then {}
    else ValueLiterals(terms[0].left) + ValueLiterals(terms[0].right) + TermLiterals(terms[1..])
  }

  function Literals(c: Condition): set<int> {
    TermLiterals(Comparisons(c))
  }

  // ---- Operands ------------------------------------------------------------------------

  function OperandName(v: Value, idx: Idx, slot: string): Name {
    match v
    case Ref(name) => Field(name)
    case Lit(n, _) => LitConst(n)
    case Arith(_, _, _) => Tmp(idx, slot)
  }

  /** A zero divisor is replaced by one before the division. */
  function DivisionCode(left: Name, right: Name, idx: Idx, slot: string): Code {
    [Do(CompareI(IsZero(idx, slot), Eq, right, LitConst(0))),
     Do(Select(SafeRight(idx, slot), IsZero(idx, slot), LitConst(1), right)),
     Do(Binary(Tmp(idx, slot), Div, left, SafeRight(idx, slot)))]
  }

  /** The last operation of an arithmetic value. */
  function LastCode(op: ArithOp, left: Name, right: Name, idx: Idx, slot: string): Code {
    if op == Div then DivisionCode(left, right, idx, slot) else [Do(Binary(Tmp(idx, slot), op, left, right))]
  }

  function OperandCode(v: Value, idx: Idx, slot: string): Code {
    match v
    case Ref(_) => []
    case Lit(_, _) => []
    case Arith(l, op, r) =>
      OperandCode(l, idx, slot + "l") + OperandCode(r, idx, slot + "r") +
      LastCode(op, OperandName(l, idx, slot + "l"), OperandName(r, idx, slot + "r"), idx, slot)
  }

  method EmitDivision(left: Name, right: Name, idx: Idx, slot: string, lines: Lines) returns (name: Name)
    modifies lines
    ensures name == Tmp(idx, slot)
    ensures lines.items == old(lines.items) + DivisionCode(left, right, idx, slot)
  {
    var isZero := IsZero(idx, slot);
    lines.Append(Do(CompareI(isZero, Eq, right, LitConst(0))));
    var safeRight := SafeRight(idx, slot);
    lines.Append(Do(Select(safeRight, isZero, LitConst(1), right)));
    name := Tmp(idx, slot);
    lines.Append(Do(Binary(name, Div, left, safeRight)));
  }

  method EmitOperand(v: Value, idx: Idx, slot: string, lines: Lines) returns (name: Name)
    modifies lines
    ensures name == OperandName(v, idx, slot)
    ensures lines.items == old(lines.items) + OperandCode(v, idx, slot)
    decreases v
  {
    match v
    case Ref(ref) => name := Field(ref);
    case Lit(n, _) => name := LitConst(n);
    case Arith(l, op, r) =>
      ghost var before, lc, rc := lines.items, OperandCode(l, idx, slot + "l"), OperandCode(r, idx, slot + "r");
      var left := EmitOperand(l, idx, slot + "l", lines);
      var right := EmitOperand(r, idx, slot + "r", lines);
      Assoc(before, lc, rc);
      if op == Div {
        name := EmitDivision(left, right, idx, slot, lines);
        Assoc(before, lc + rc, DivisionCode(left, right, idx, slot));
      } else {
        name := Tmp(idx, slot);
        lines.Append(Do(Binary(name, op, left, right)));
        Assoc(before, lc + rc, [Do(Binary(name, op, left, right))]);
      }
  }

  // ---- Conditions ----------------------------------------------------------------------

  function Negated(op: Comparator): Comparator {
    match op
    case Lt => Ge
    case Le => Gt
    case Gt => Le
    case Ge => Lt
    case Eq => Ne
    case Ne => Eq
  }

  function LeftSlot(n: nat): string {
    Decimal(n) + "l"
  }

  function RightSlot(n: nat): string {
    Decimal(n) + "r"
  }

  /** One term: both operands, then the comparison into `d`. */
  function TermCode(t: Condition, pred: Comparator, idx: Idx, n: nat, d: Name): Code
    requires t.Comparison?
  {
    OperandCode(t.left, idx, LeftSlot(n)) + OperandCode(t.right, idx, RightSlot(n)) +
    [Do(CompareI(d, pred, OperandName(t.left, idx, LeftSlot(n)), OperandName(t.right, idx, RightSlot(n))))]
  }

  /** The first `k` terms of a conjunction, each into its own name. */
  function TermsCode(terms: seq<Condition>, idx: Idx, k: nat): Code
    requires k <= |terms| && forall i :: 0 <= i < |terms| ==> terms[i].Comparison?
  {
    if k == 0 then []
    else TermsCode(terms, idx, k - 1) + TermCode(terms[k - 1], terms[k - 1].op, idx, k - 1, TermCond(idx, k - 1))
  }

  function FoldName(idx: Idx, n: nat): Name {
    if n == 0 then TermCond(idx, 0) else AndFold(idx, n)
  }

  /** The conjunction of terms `0..k`, folded from the left. */
  function FoldCode(idx: Idx, k: nat): Code {
    if k <= 1 then []
    else FoldCode(idx, k - 1) + [Do(Logic(AndFold(idx, k - 1), AndI, FoldName(idx, k - 2), TermCond(idx, k - 1)))]
  }

  function SingleName(idx: Idx, negate: bool): Name {
    if negate then UntilCond(idx) else Cond(idx)
  }

  function ConditionName(c: Condition, idx: Idx, negate: bool): Option<Name> {
    var terms := Comparisons(c);
    if terms == [] then None
    else if |terms| == 1 then Some(SingleName(idx, negate))
    else if negate then Some(UntilCond(idx))
    else Some(FoldName(idx, |terms| - 1))
  }

  function ConditionCode(c: Condition, idx: Idx, negate: bool): Code {
    var terms := Comparisons(c);
    if terms == [] then []
    else if |terms| == 1 then
      TermCode(terms[0], if negate then Negated(terms[0].op) else terms[0].op, idx, 0, SingleName(idx, negate))
    else
      TermsCode(terms, idx, |terms|) + FoldCode(idx, |terms|) +
      if negate then [Do(Logic(UntilCond(idx), XorI, FoldName(idx, |terms| - 1), TrueI1))] else []
  }

  method EmitTerm(t: Condition, pred: Comparator, idx: Idx, n: nat, name: Name, lines: Lines)
    requires t.Comparison?
    modifies lines
    ensures lines.items == old(lines.items) + TermCode(t, pred, idx, n, name)
  {
    ghost var before, lc, rc :=
      lines.items, OperandCode(t.left, idx, LeftSlot(n)), OperandCode(t.right, idx, RightSlot(n));
    var left := EmitOperand(t.left, idx, LeftSlot(n), lines);
    var right := EmitOperand(t.right, idx, RightSlot(n), lines);
    lines.Append(Do(CompareI(name, pred, left, right)));
    Assoc(before, lc, rc);
    Assoc(before, lc + rc, [Do(CompareI(name, pred, left, right))]);
  }

  method EmitTerms(terms: seq<Condition>, idx: Idx, lines: Lines)
    requires forall i :: 0 <= i < |terms| ==> terms[i].Comparison?
    modifies lines
    ensures lines.items == old(lines.items) + TermsCode(terms, idx, |terms|)
  {
    hide TermCode, OperandCode;
    ghost var before := lines.items;
    for n := 0 to |terms|
      invariant lines.items == before + TermsCode(terms, idx, n)
    {
      EmitTerm(terms[n], terms[n].op, idx, n, TermCond(idx, n), lines);
      Assoc(before, TermsCode(terms, idx, n), TermCode(terms[n], terms[n].op, idx, n, TermCond(idx, n)));
    }
  }

  method EmitFold(k: nat, idx: Idx, lines: Lines) returns (folded: Name)
    requires k > 0
    modifies lines
    ensures folded == FoldName(idx, k - 1)
    ensures lines.items == old(lines.items) + FoldCode(idx, k)
  {
    ghost var before := lines.items;
    folded := TermCond(idx, 0);
    for n := 1 to k
      invariant folded == FoldName(idx, n - 1)
      invariant lines.items == before + FoldCode(idx, n)
    {
      Assoc(before, FoldCode(idx, n), [Do(Logic(AndFold(idx, n), AndI, folded, TermCond(idx, n)))]);
      lines.Append(Do(Logic(AndFold(idx, n), AndI, folded, TermCond(idx, n))));
      folded := AndFold(idx, n);
    }
  }

  /** `None` when nothing in the condition has a compiled evaluator, and then no line either. */
  method EmitCondition(c: Condition, idx: Idx, lines: Lines, negate: bool) returns (name: Option<Name>)
    modifies lines
    ensures name == ConditionName(c, idx, negate)
    ensures lines.items == old(lines.items) + ConditionCode(c, idx, negate)
  {
    var terms := Comparisons(c);
    if terms == [] {
      return None;
    }
    if |terms| == 1 {
      var pred := if negate then Negated(terms[0].op) else terms[0].op;
      EmitTerm(terms[0], pred, idx, 0, SingleName(idx, negate), lines);
      return Some(SingleName(idx, negate));
    }
    ghost var before := lines.items;
    EmitTerms(terms, idx, lines);
    var folded := EmitFold(|terms|, idx, lines);
    Assoc(before, TermsCode(terms, idx, |terms|), FoldCode(idx, |terms|));
    if negate {
      Assoc(before, TermsCode(terms, idx, |terms|) + FoldCode(idx, |terms|),
            [Do(Logic(UntilCond(idx), XorI, folded, TrueI1))]);
      lines.Append(Do(Logic(UntilCond(idx), XorI, folded, TrueI1)));
      folded := UntilCond(idx);
    }
    name := Some(folded);
  }

  // ---- Alternatives --------------------------------------------------------------------

  predicate HasEvaluator(c: Option<Condition>) {
    c.Some? && Comparisons(c.value) != []
  }

  predicate AllHaveEvaluator(cs: seq<Option<Condition>>) {
    forall k :: 0 <= k < |cs| ==> HasEvaluator(cs[k])
  }

  /** How many texts come before the first one without an evaluator. */
  function Evaluable(cs: seq<Option<Condition>>): (k: nat)
    ensures k <= |cs| && (forall j :: 0 <= j < k ==> HasEvaluator(cs[j])) && (k < |cs| ==> !HasEvaluator(cs[k]))
    ensures AllHaveEvaluator(cs) <==> k == |cs|
  {
    if cs == [] || !HasEvaluator(cs[0]) then 0
    else
      assert AllHaveEvaluator(cs) <==> AllHaveEvaluator(cs[1..]) by {
        assert forall j :: 1 <= j < |cs| ==> cs[j] == cs[1..][j - 1];
      }
      1 + Evaluable(cs[1..])
  }

  /** The evaluations of the first `k` texts. */
  function AltTermsCode(cs: seq<Option<Condition>>, i: nat, k: nat): Code
    requires k <= Evaluable(cs)
  {
    if k == 0 then []
    else AltTermsCode(cs, i, k - 1) + ConditionCode(cs[k - 1].value, Alternative(i, k - 1), false)
  }

  function AltTermName(c: Option<Condition>, i: nat, n: nat): Name
    requires HasEvaluator(c)
  {
    ConditionName(c.value, Alternative(i, n), false).value
  }

  function AltNames(cs: seq<Option<Condition>>, i: nat, k: nat): (names: seq<Name>)
    requires k <= Evaluable(cs)
    ensures |names| == k && forall n :: 0 <= n < k ==> names[n] == AltTermName(cs[n], i, n)
  {
    if k == 0 then [] else AltNames(cs, i, k - 1) + [AltTermName(cs[k - 1], i, k - 1)]
  }

  function AltFoldName(cs: seq<Option<Condition>>, i: nat, n: nat): Name
    requires AllHaveEvaluator(cs) && n < |cs|
  {
    if n == 0 then AltTermName(cs[0], i, 0) else OrFold(i, n)
  }

  function AltFoldCode(cs: seq<Option<Condition>>, i: nat, k: nat): Code
    requires AllHaveEvaluator(cs) && k <= |cs|
  {
    if k <= 1 then []
    else AltFoldCode(cs, i, k - 1) +
         [Do(Logic(OrFold(i, k - 1), OrI, AltFoldName(cs, i, k - 2), AltTermName(cs[k - 1], i, k - 1)))]
  }

  function AltName(cs: seq<Option<Condition>>, i: nat): Option<Name>
    requires cs != []
  {
    if AllHaveEvaluator(cs) then Some(AltFoldName(cs, i, |cs| - 1)) else None
  }

  function AltCode(cs: seq<Option<Condition>>, i: nat): Code
    requires cs != []
  {
    AltTermsCode(cs, i, Evaluable(cs)) + if AllHaveEvaluator(cs) then AltFoldCode(cs, i, |cs|) else []
  }

  method EmitAltFold(cs: seq<Option<Condition>>, i: nat, names: seq<Name>, lines: Lines) returns (folded: Name)
    requires cs != [] && AllHaveEvaluator(cs) && names == AltNames(cs, i, |cs|)
    modifies lines
    ensures folded == AltFoldName(cs, i, |cs| - 1)
    ensures lines.items == old(lines.items) + AltFoldCode(cs, i, |cs|)
  {
    ghost var before := lines.items;
    folded := names[0];
    for n := 1 to |names|
      invariant folded == AltFoldName(cs, i, n - 1)
      invariant lines.items == before + AltFoldCode(cs, i, n)
    {
      Assoc(before, AltFoldCode(cs, i, n), [Do(Logic(OrFold(i, n), OrI, folded, names[n]))]);
      lines.Append(Do(Logic(OrFold(i, n), OrI, folded, names[n])));
      folded := OrFold(i, n);
    }
  }

  lemma EvaluableStops(cs: seq<Option<Condition>>, i: nat, n: nat)
    requires n < |cs| && n <= Evaluable(cs)
    requires cs[n].None? || ConditionName(cs[n].value, Alternative(i, n), false).None?
    ensures Evaluable(cs) == n
    ensures cs[n].Some? ==> ConditionCode(cs[n].value, Alternative(i, n), false) == []
  {
    assert !HasEvaluator(cs[n]);
  }

  lemma EvaluableGoesOn(cs: seq<Option<Condition>>, i: nat, n: nat)
    requires n < |cs| && n <= Evaluable(cs)
    requires cs[n].Some? && ConditionName(cs[n].value, Alternative(i, n), false).Some?
    ensures n + 1 <= Evaluable(cs)
    ensures AltNames(cs, i, n + 1)
         == AltNames(cs, i, n) + [ConditionName(cs[n].value, Alternative(i, n), false).value]
    ensures AltTermsCode(cs, i, n + 1)
         == AltTermsCode(cs, i, n) + ConditionCode(cs[n].value, Alternative(i, n), false)
  {
    assert HasEvaluator(cs[n]);
  }

  /** Evaluates the texts in order, stopping at the first without an evaluator. */
  method EmitAltTerms(cs: seq<Option<Condition>>, i: nat, lines: Lines) returns (names: seq<Name>)
    modifies lines
    ensures names == AltNames(cs, i, Evaluable(cs))
    ensures lines.items == old(lines.items) + AltTermsCode(cs, i, |names|)
  {
    assert AltNames(cs, i, 0) == [] && AltTermsCode(cs, i, 0) == [];
    hide Comparisons, ConditionCode, ConditionName, AltNames, AltTermsCode, Evaluable, HasEvaluator;
    ghost var before := lines.items;
    names := [];
    for n := 0 to |cs|
      invariant n <= Evaluable(cs) && names == AltNames(cs, i, n)
      invariant lines.items == before + AltTermsCode(cs, i, n)
    {
      if cs[n].None? {
        EvaluableStops(cs, i, n);
        return;
      }
      var emitted := EmitCondition(cs[n].value, Alternative(i, n), lines, false);
      if emitted.None? {
        EvaluableStops(cs, i, n);
        return;
      }
      EvaluableGoesOn(cs, i, n);
      Assoc(before, AltTermsCode(cs, i, n), ConditionCode(cs[n].value, Alternative(i, n), false));
      names := names + [emitted.value];
    }
  }

  /** The `or` of a condition and its alternatives, or `None` as soon as one of them has no
      evaluator; what was emitted before it stays. */
  method EmitAltCondition(cs: seq<Option<Condition>>, i: nat, lines: Lines) returns (name: Option<Name>)
    requires cs != []
    modifies lines
    ensures name == AltName(cs, i)
    ensures lines.items == old(lines.items) + AltCode(cs, i)
  {
    ghost var before := lines.items;
    var names := EmitAltTerms(cs, i, lines);
    if |names| < |cs| {
      return None;
    }
    var folded := EmitAltFold(cs, i, names, lines);
    Assoc(before, AltTermsCode(cs, i, |cs|), AltFoldCode(cs, i, |cs|));
    name := Some(folded);
  }
}
