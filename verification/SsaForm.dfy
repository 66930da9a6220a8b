/** The emitted function is in SSA form: every name is defined once and before it is used, every
    constant it uses is declared and every reference is a parameter. A piece of code fits if it
    reads only names that are visible and defines only names that carry its own index; pieces
    that fit can be concatenated, and the names of different ops differ in their index. This is
    shown for the names as structured values; that their spellings stay apart is in `SsaNames`. */
module SsaForm {
  import opened Wrappers
  import opened Text
  import opened Conditions
  import opened ConditionSyntax
  import ConditionRoundTrip
  import opened Evaluation
  import opened Machine
  import opened GuardEmit
  import opened Workflow
  import Attempts
  import opened Ops
  import opened Render
  import opened SsaNames

  // ---- The form ------------------------------------------------------------------------

  function DefsOf(i: Instr<Name>): set<Name> {
    match i
    case CallEffect(_, _) => {}
    case _ => {i.d}
  }

  function UsesOf(i: Instr<Name>): set<Name> {
    match i
    case Const64(_, _) => {}
    case Const32(_, _) => {}
    case ConstTrue(_) => {}
    case AddressOf(_, _) => {}
    case Binary(_, _, l, r) => {l, r}
    case CompareI(_, _, l, r) => {l, r}
    case EqualI32(_, l, r) => {l, r}
    case Select(_, c, l, r) => {c, l, r}
    case Logic(_, _, l, r) => {l, r}
    case CallStep(_, p, i) => {p, i}
    case CallEffect(p, k) => {p, k}
  }

  function BodyDefs(body: Render.Body): set<Name> {
    if body == [] then {} else DefsOf(body[0]) + BodyDefs(body[1..])
  }

  function LineDefs(line: Line<Name>): set<Name> {
    match line
    case Do(i) => DefsOf(i)
    case If(_, body) => BodyDefs(body)
  }

  /** What a line leaves visible: a name defined inside an `scf.if` stays inside. */
  function LineShows(line: Line<Name>): set<Name> {
    if line.Do? then DefsOf(line.instr) else {}
  }

  function Defs(code: Code): set<Name> {
    if code == [] then {} else LineDefs(code[0]) + Defs(code[1..])
  }

  function Shows(code: Code): set<Name> {
    if code == [] then {} else LineShows(code[0]) + Shows(code[1..])
  }

  predicate InstrOk(i: Instr<Name>, visible: set<Name>, taken: set<Name>) {
    UsesOf(i) <= visible && DefsOf(i) !! taken
  }

  predicate BodyOk(body: Render.Body, visible: set<Name>, taken: set<Name>) {
    body == [] || (InstrOk(body[0], visible, taken)
                   && BodyOk(body[1..], visible + DefsOf(body[0]), taken + DefsOf(body[0])))
  }

  predicate LineOk(line: Line<Name>, visible: set<Name>, taken: set<Name>) {
    match line
    case Do(i) => InstrOk(i, visible, taken)
    case If(c, body) => c in visible && BodyOk(body, visible, taken)
  }

  /** Each line uses only what is visible and defines nothing that was defined before. */
  predicate Ssa(code: Code, visible: set<Name>, taken: set<Name>) {
    code == [] || (LineOk(code[0], visible, taken)
                   && Ssa(code[1..], visible + LineShows(code[0]), taken + LineDefs(code[0])))
  }

  lemma {:induction false} DefsConcat(a: Code, b: Code)
    ensures Defs(a + b) == Defs(a) + Defs(b) && Shows(a + b) == Shows(a) + Shows(b)
  {
    hide LineDefs, LineShows;
    if a == [] {
      assert a + b == b;
    } else {
      assert (a + b)[1..] == a[1..] + b;
      DefsConcat(a[1..], b);
    }
  }

  lemma {:induction false} SsaConcat(a: Code, b: Code, visible: set<Name>, taken: set<Name>)
    ensures Ssa(a + b, visible, taken) <==> Ssa(a, visible, taken) && Ssa(b, visible + Shows(a), taken + Defs(a))
  {
    hide LineDefs, LineShows, LineOk;
    if a == [] {
      assert a + b == b && visible + {} == visible && taken + {} == taken;
    } else {
      assert (a + b)[1..] == a[1..] + b;
      var v, t := visible + LineShows(a[0]), taken + LineDefs(a[0]);
      SsaConcat(a[1..], b, v, t);
      assert v + Shows(a[1..]) == visible + Shows(a) && t + Defs(a[1..]) == taken + Defs(a);
    }
  }

  lemma OneLine(line: Line<Name>)
    ensures Defs([line]) == LineDefs(line) && Shows([line]) == LineShows(line)
    ensures forall visible, taken :: Ssa([line], visible, taken) <==> LineOk(line, visible, taken)
  {
    assert [line][1..] == [];
  }

  /** What a piece of guard code promises: it is in form, defines only names of `mine`, shows all
      of them, and `result` is among what is then visible. */
  predicate Fits(code: Code, visible: set<Name>, taken: set<Name>, mine: Name -> bool, result: Name) {
    Formed(code, visible, taken, mine) && result in visible + Shows(code)
  }

  predicate Formed(code: Code, visible: set<Name>, taken: set<Name>, mine: Name -> bool) {
    && Ssa(code, visible, taken) && Shows(code) == Defs(code)
    && (forall x :: x in Defs(code) ==> mine(x))
  }

  predicate Avoids(taken: set<Name>, mine: Name -> bool) {
    forall x :: x in taken ==> !mine(x)
  }

  lemma AppendFits(a: Code, b: Code, visible: set<Name>, taken: set<Name>, mine: Name -> bool, result: Name)
    requires Formed(a, visible, taken, mine) && Fits(b, visible + Shows(a), taken + Defs(a), mine, result)
    ensures Fits(a + b, visible, taken, mine, result)
  {
    hide Ssa, Shows, Defs;
    SsaConcat(a, b, visible, taken);
    DefsConcat(a, b);
  }

  lemma NoCodeFits(visible: set<Name>, taken: set<Name>, mine: Name -> bool, result: Name)
    requires result in visible
    ensures Fits([], visible, taken, mine, result)
  {
  }

  lemma LineFits(i: Instr<Name>, visible: set<Name>, taken: set<Name>, mine: Name -> bool)
    requires !i.CallEffect? && UsesOf(i) <= visible && i.d !in taken && mine(i.d)
    ensures Fits([Do(i)], visible, taken, mine, i.d)
  {
    OneLine(Do(i));
  }

  // ---- Operands ------------------------------------------------------------------------

  /** The names a value's code reads. */
  function Needs(v: Value): set<Name> {
    match v
    case Ref(name) => {Field(name)}
    case Lit(n, _) => {LitConst(n)}
    case Arith(l, op, r) => Needs(l) + Needs(r) + if op == Div then {LitConst(0), LitConst(1)} else {}
  }

  /** The scratch names of the operand at `slot` and below it. */
  predicate AtSlot(x: Name, idx: Idx, slot: string) {
    match x
    case Tmp(i, s) => i == idx && slot <= s && Solid(s)
    case IsZero(i, s) => i == idx && slot <= s && Solid(s)
    case SafeRight(i, s) => i == idx && slot <= s && Solid(s)
    case _ => false
  }

  function Slot(idx: Idx, slot: string): Name -> bool {
    x => AtSlot(x, idx, slot)
  }

  lemma DivisionFits(left: Name, right: Name, idx: Idx, slot: string, visible: set<Name>, taken: set<Name>)
    requires left in visible && right in visible && LitConst(0) in visible && LitConst(1) in visible && Solid(slot)
    requires Tmp(idx, slot) !in taken && IsZero(idx, slot) !in taken && SafeRight(idx, slot) !in taken
    ensures Fits(DivisionCode(left, right, idx, slot), visible, taken, Slot(idx, slot), Tmp(idx, slot))
  {
    var mine := Slot(idx, slot);
    var a := CompareI(IsZero(idx, slot), Eq, right, LitConst(0));
    var b := Select(SafeRight(idx, slot), IsZero(idx, slot), LitConst(1), right);
    var c := Binary(Tmp(idx, slot), Div, left, SafeRight(idx, slot));
    OneLine(Do(a));
    OneLine(Do(b));
    LineFits(a, visible, taken, mine);
    var v1, t1 := visible + {a.d}, taken + {a.d};
    LineFits(b, v1, t1, mine);
    LineFits(c, v1 + {b.d}, t1 + {b.d}, mine);
    hide Fits, Slot, AtSlot;
    AppendFits([Do(b)], [Do(c)], v1, t1, mine, c.d);
    AppendFits([Do(a)], [Do(b)] + [Do(c)], visible, taken, mine, c.d);
    assert DivisionCode(left, right, idx, slot) == [Do(a)] + ([Do(b)] + [Do(c)]);
  }

  /** Widening the family of names a piece may define. */
  lemma Wider(code: Code, visible: set<Name>, taken: set<Name>, small: Name -> bool, wide: Name -> bool)
    requires Formed(code, visible, taken, small) && forall x :: small(x) ==> wide(x)
    ensures Formed(code, visible, taken, wide)
  {
  }

  lemma LongerSlot(idx: Idx, slot: string, longer: string)
    requires slot <= longer
    ensures forall x :: Slot(idx, longer)(x) ==> Slot(idx, slot)(x)
  {
  }

  lemma SidesApart(idx: Idx, slot: string)
    ensures forall x :: !(Slot(idx, slot + "l")(x) && Slot(idx, slot + "r")(x))
  {
    assert (slot + "l")[|slot|] == 'l' && (slot + "r")[|slot|] == 'r';
  }

  lemma SelfIsNoSide(idx: Idx, slot: string, side: string)
    requires side == "l" || side == "r"
    ensures !Slot(idx, slot + side)(Tmp(idx, slot)) && !Slot(idx, slot + side)(IsZero(idx, slot))
    ensures !Slot(idx, slot + side)(SafeRight(idx, slot))
  {
    assert |slot + side| == |slot| + 1;
  }

  lemma LastFits(op: ArithOp, ln: Name, rn: Name, idx: Idx, slot: string, visible: set<Name>, taken: set<Name>)
    requires ln in visible && rn in visible && Solid(slot)
             && (op == Div ==> LitConst(0) in visible && LitConst(1) in visible)
    requires Tmp(idx, slot) !in taken && IsZero(idx, slot) !in taken && SafeRight(idx, slot) !in taken
    ensures Fits(LastCode(op, ln, rn, idx, slot), visible, taken, Slot(idx, slot), Tmp(idx, slot))
  {
    if op == Div {
      DivisionFits(ln, rn, idx, slot, visible, taken);
    } else {
      LineFits(Binary(Tmp(idx, slot), op, ln, rn), visible, taken, Slot(idx, slot));
    }
  }

  lemma {:induction false} OperandFits(v: Value, idx: Idx, slot: string, visible: set<Name>, taken: set<Name>)
    requires Needs(v) <= visible && Solid(slot) && Avoids(taken, Slot(idx, slot))
    ensures Fits(OperandCode(v, idx, slot), visible, taken, Slot(idx, slot), OperandName(v, idx, slot))
    decreases v, 1
  {
    if v.Arith? {
      ArithFits(v.left, v.op, v.right, idx, slot, visible, taken);
    } else {
      NoCodeFits(visible, taken, Slot(idx, slot), OperandName(v, idx, slot));
    }
  }

  lemma SolidSides(slot: string)
    requires Solid(slot)
    ensures Solid(slot + "l") && Solid(slot + "r") && slot <= slot + "l" && slot <= slot + "r"
  {
  }

  lemma {:induction false} ArithFits(l: Value, op: ArithOp, r: Value, idx: Idx, slot: string, visible: set<Name>,
                                     taken: set<Name>)
    requires Needs(Arith(l, op, r)) <= visible && Solid(slot) && Avoids(taken, Slot(idx, slot))
    ensures Fits(OperandCode(Arith(l, op, r), idx, slot), visible, taken, Slot(idx, slot), Tmp(idx, slot))
    decreases Arith(l, op, r), 0
  {
    var ls, rs := slot + "l", slot + "r";
    var lc, rc := OperandCode(l, idx, ls), OperandCode(r, idx, rs);
    var ln, rn := OperandName(l, idx, ls), OperandName(r, idx, rs);
    SolidSides(slot);
    LongerSlot(idx, slot, ls);
    LongerSlot(idx, slot, rs);
    SidesApart(idx, slot);
    SelfIsNoSide(idx, slot, "l");
    SelfIsNoSide(idx, slot, "r");
    assert Slot(idx, slot)(Tmp(idx, slot)) && Slot(idx, slot)(IsZero(idx, slot))
           && Slot(idx, slot)(SafeRight(idx, slot));
    assert OperandCode(Arith(l, op, r), idx, slot) == (lc + rc) + LastCode(op, ln, rn, idx, slot);
    hide Slot, OperandCode, OperandName, Ssa, Shows, Defs, LastCode;
    OperandFits(l, idx, ls, visible, taken);
    OperandFits(r, idx, rs, visible + Shows(lc), taken + Defs(lc));
    Wider(lc, visible, taken, Slot(idx, ls), Slot(idx, slot));
    Wider(rc, visible + Shows(lc), taken + Defs(lc), Slot(idx, rs), Slot(idx, slot));
    AppendFits(lc, rc, visible, taken, Slot(idx, slot), rn);
    DefsConcat(lc, rc);
    LastFits(op, ln, rn, idx, slot, visible + Shows(lc + rc), taken + Defs(lc + rc));
    AppendFits(lc + rc, LastCode(op, ln, rn, idx, slot), visible, taken, Slot(idx, slot), Tmp(idx, slot));
  }

  // ---- Terms ---------------------------------------------------------------------------

  function TermNeeds(terms: seq<Condition>): set<Name>
    requires forall i :: 0 <= i < |terms| ==> terms[i].Comparison?
  {
    if terms == [] then {} else Needs(terms[0].left) + Needs(terms[0].right) + TermNeeds(terms[1..])
  }

  lemma {:induction false} TermNeedsHold(terms: seq<Condition>, k: nat)
    requires (forall i :: 0 <= i < |terms| ==> terms[i].Comparison?) && k < |terms|
    ensures Needs(terms[k].left) + Needs(terms[k].right) <= TermNeeds(terms)
  {
    if k > 0 {
      TermNeedsHold(terms[1..], k - 1);
    }
  }

  /** The names of term `n`: its operands' slots and its own result `d`. */
  predicate AtTerm(x: Name, idx: Idx, n: nat, d: Name) {
    x == d || AtSlot(x, idx, LeftSlot(n)) || AtSlot(x, idx, RightSlot(n))
  }

  function Term(idx: Idx, n: nat, d: Name): Name -> bool {
    x => AtTerm(x, idx, n, d)
  }

  /** A slot starts with the number of its term. */
  lemma SlotNumber(m: nat, n: nat, c: char, d: char, s: string)
    requires Decimal(m) + [c] <= s && Decimal(n) + [d] <= s && !IsDigit(c) && !IsDigit(d)
    ensures m == n && c == d
  {
    var a, b := Decimal(m), Decimal(n);
    assert s[|a|] == c && s[|b|] == d;
    assert forall k :: 0 <= k < |a| ==> s[k] == a[k] && IsDigit(a[k]);
    assert forall k :: 0 <= k < |b| ==> s[k] == b[k] && IsDigit(b[k]);
    assert |a| == |b|;
    assert a == s[..|a|] == b;
    DecimalInjective(m, n);
  }

  lemma TermsApart(idx: Idx, m: nat, n: nat, x: Name)
    requires AtSlot(x, idx, LeftSlot(m)) || AtSlot(x, idx, RightSlot(m))
    requires AtSlot(x, idx, LeftSlot(n)) || AtSlot(x, idx, RightSlot(n))
    ensures m == n
  {
    var c := if AtSlot(x, idx, LeftSlot(m)) then 'l' else 'r';
    var d := if AtSlot(x, idx, LeftSlot(n)) then 'l' else 'r';
    SlotNumber(m, n, c, d, x.slot);
  }

  lemma TermSides(idx: Idx, n: nat)
    ensures Solid(LeftSlot(n)) && Solid(RightSlot(n))
    ensures forall x :: !(Slot(idx, LeftSlot(n))(x) && Slot(idx, RightSlot(n))(x))
  {
    DigitsSolid(n);
    SidesApart(idx, Decimal(n));
  }

  function Sides(idx: Idx, n: nat): Name -> bool {
    x => AtSlot(x, idx, LeftSlot(n)) || AtSlot(x, idx, RightSlot(n))
  }

  lemma OperandsFit(t: Condition, idx: Idx, n: nat, visible: set<Name>, taken: set<Name>)
    requires t.Comparison? && Needs(t.left) + Needs(t.right) <= visible && Avoids(taken, Sides(idx, n))
    ensures var code := OperandCode(t.left, idx, LeftSlot(n)) + OperandCode(t.right, idx, RightSlot(n));
            && Fits(code, visible, taken, Sides(idx, n), OperandName(t.right, idx, RightSlot(n)))
            && OperandName(t.left, idx, LeftSlot(n)) in visible + Shows(code)
  {
    var ls, rs := LeftSlot(n), RightSlot(n);
    var lc, rc := OperandCode(t.left, idx, ls), OperandCode(t.right, idx, rs);
    TermSides(idx, n);
    assert forall x :: Slot(idx, ls)(x) ==> Sides(idx, n)(x);
    assert forall x :: Slot(idx, rs)(x) ==> Sides(idx, n)(x);
    hide Slot, Sides, OperandCode, OperandName, Ssa, Shows, Defs;
    OperandFits(t.left, idx, ls, visible, taken);
    OperandFits(t.right, idx, rs, visible + Shows(lc), taken + Defs(lc));
    Wider(lc, visible, taken, Slot(idx, ls), Sides(idx, n));
    Wider(rc, visible + Shows(lc), taken + Defs(lc), Slot(idx, rs), Sides(idx, n));
    AppendFits(lc, rc, visible, taken, Sides(idx, n), OperandName(t.right, idx, rs));
    DefsConcat(lc, rc);
  }

  lemma TermFits(t: Condition, pred: Comparator, idx: Idx, n: nat, d: Name, visible: set<Name>, taken: set<Name>)
    requires t.Comparison? && Needs(t.left) + Needs(t.right) <= visible && Avoids(taken, Term(idx, n, d))
    requires !d.Tmp? && !d.IsZero? && !d.SafeRight?
    ensures Fits(TermCode(t, pred, idx, n, d), visible, taken, Term(idx, n, d), d)
  {
    var code := OperandCode(t.left, idx, LeftSlot(n)) + OperandCode(t.right, idx, RightSlot(n));
    var last := CompareI(d, pred, OperandName(t.left, idx, LeftSlot(n)), OperandName(t.right, idx, RightSlot(n)));
    assert TermCode(t, pred, idx, n, d) == code + [Do(last)];
    assert forall x :: Sides(idx, n)(x) ==> Term(idx, n, d)(x) && x != d;
    assert Term(idx, n, d)(d);
    hide Sides, Term, OperandCode, OperandName, Ssa, Shows, Defs, TermCode;
    OperandsFit(t, idx, n, visible, taken);
    Wider(code, visible, taken, Sides(idx, n), Term(idx, n, d));
    LineFits(last, visible + Shows(code), taken + Defs(code), Term(idx, n, d));
    AppendFits(code, [Do(last)], visible, taken, Term(idx, n, d), d);
  }

  /** The names of the first `k` terms. */
  ghost predicate AtTerms(x: Name, idx: Idx, k: nat) {
    exists n :: 0 <= n < k && AtTerm(x, idx, n, TermCond(idx, n))
  }

  ghost function Terms(idx: Idx, k: nat): Name -> bool {
    x => AtTerms(x, idx, k)
  }

  lemma NextTerm(idx: Idx, k: nat)
    ensures forall x :: Terms(idx, k)(x) ==> Terms(idx, k + 1)(x) && !Term(idx, k, TermCond(idx, k))(x)
    ensures forall x :: Term(idx, k, TermCond(idx, k))(x) ==> Terms(idx, k + 1)(x)
  {
    forall x | Terms(idx, k)(x) ensures !Term(idx, k, TermCond(idx, k))(x) {
      var n :| 0 <= n < k && AtTerm(x, idx, n, TermCond(idx, n));
      if x != TermCond(idx, n) && AtTerm(x, idx, k, TermCond(idx, k)) {
        TermsApart(idx, n, k, x);
      }
    }
  }

  /** The results of the first `k` terms. */
  function Results(idx: Idx, k: nat): set<Name> {
    if k == 0 then {} else Results(idx, k - 1) + {TermCond(idx, k - 1)}
  }

  lemma TermApartFrom(idx: Idx, k: nat, d: Name, visible: set<Name>, taken: set<Name>, init: Code)
    requires d == TermCond(idx, k) && Avoids(taken, Term(idx, k, d)) && Formed(init, visible, taken, Terms(idx, k))
    ensures Avoids(taken + Defs(init), Term(idx, k, d))
  {
    NextTerm(idx, k);
    hide Terms, Term, Ssa, Shows, Defs;
  }

  lemma TermStep(t: Condition, init: Code, idx: Idx, k: nat, visible: set<Name>, taken: set<Name>)
    requires t.Comparison? && Needs(t.left) + Needs(t.right) <= visible && Avoids(taken, Term(idx, k, TermCond(idx, k)))
    requires Formed(init, visible, taken, Terms(idx, k)) && Results(idx, k) <= visible + Shows(init)
    ensures var code := init + TermCode(t, t.op, idx, k, TermCond(idx, k));
            Formed(code, visible, taken, Terms(idx, k + 1)) && Results(idx, k + 1) <= visible + Shows(code)
  {
    var d := TermCond(idx, k);
    var code := TermCode(t, t.op, idx, k, d);
    NextTerm(idx, k);
    assert Results(idx, k + 1) == Results(idx, k) + {d};
    hide Terms, Term, Ssa, Shows, Defs, TermCode, Results, Avoids;
    TermApartFrom(idx, k, d, visible, taken, init);
    TermFits(t, t.op, idx, k, d, visible + Shows(init), taken + Defs(init));
    Wider(init, visible, taken, Terms(idx, k), Terms(idx, k + 1));
    Wider(code, visible + Shows(init), taken + Defs(init), Term(idx, k, d), Terms(idx, k + 1));
    AppendFits(init, code, visible, taken, Terms(idx, k + 1), d);
    DefsConcat(init, code);
  }

  lemma {:induction false} TermsFit(terms: seq<Condition>, idx: Idx, k: nat, visible: set<Name>, taken: set<Name>)
    requires k <= |terms| && (forall i :: 0 <= i < |terms| ==> terms[i].Comparison?) && TermNeeds(terms) <= visible
    requires Avoids(taken, Terms(idx, |terms|))
    ensures Formed(TermsCode(terms, idx, k), visible, taken, Terms(idx, k))
    ensures Results(idx, k) <= visible + Shows(TermsCode(terms, idx, k))
  {
    if k == 0 {
      EmptyFormed(visible, taken, Terms(idx, 0));
    } else {
      TermIsAmong(idx, k - 1, |terms|);
      TermNeedsHold(terms, k - 1);
      hide Terms, Term, Ssa, Shows, Defs, TermCode, TermNeeds, Formed, Results;
      TermsFit(terms, idx, k - 1, visible, taken);
      TermStep(terms[k - 1], TermsCode(terms, idx, k - 1), idx, k - 1, visible, taken);
    }
  }

  lemma TermIsAmong(idx: Idx, n: nat, k: nat)
    requires n < k
    ensures forall x :: Term(idx, n, TermCond(idx, n))(x) ==> Terms(idx, k)(x)
  {
  }

  // ---- Conditions ----------------------------------------------------------------------

  /** The names of the guard code numbered `idx`. */
  predicate OfGuard(x: Name, idx: Idx) {
    IdxOf(x) == Some(idx) && Wellformed(x) && SlotGiven(x)
  }

  function Guarded(idx: Idx): Name -> bool {
    x => OfGuard(x, idx)
  }

  lemma TermsAreGuarded(idx: Idx, k: nat)
    ensures forall x :: Terms(idx, k)(x) ==> Guarded(idx)(x) && !x.AndFold? && !x.UntilCond?
  {
  }

  lemma {:induction false} FoldFits(idx: Idx, k: nat, visible: set<Name>, taken: set<Name>)
    requires k > 0 && Results(idx, k) <= visible
    requires forall n :: AndFold(idx, n) !in taken
    ensures Fits(FoldCode(idx, k), visible, taken, Guarded(idx), FoldName(idx, k - 1))
    ensures forall x :: x in Defs(FoldCode(idx, k)) ==> x.AndFold? && x.n < k
  {
    if k == 1 {
      hide Ssa, Shows;
      NoCodeFits(visible, taken, Guarded(idx), FoldName(idx, 0));
    } else {
      var last := Logic(AndFold(idx, k - 1), AndI, FoldName(idx, k - 2), TermCond(idx, k - 1));
      var init := FoldCode(idx, k - 1);
      hide Ssa, Shows, Defs;
      assert FoldCode(idx, k) == init + [Do(last)];
      assert Guarded(idx)(last.d);
      OneLine(Do(last));
      hide Guarded, FoldCode;
      FoldFits(idx, k - 1, visible, taken);
      LineFits(last, visible + Shows(init), taken + Defs(init), Guarded(idx));
      AppendFits(init, [Do(last)], visible, taken, Guarded(idx), last.d);
      DefsConcat(init, [Do(last)]);
    }
  }

  lemma SingleFits(t: Condition, pred: Comparator, idx: Idx, negate: bool, visible: set<Name>, taken: set<Name>)
    requires t.Comparison? && Needs(t.left) + Needs(t.right) <= visible && Avoids(taken, Guarded(idx))
    ensures Fits(TermCode(t, pred, idx, 0, SingleName(idx, negate)), visible, taken, Guarded(idx),
                 SingleName(idx, negate))
  {
    var d := SingleName(idx, negate);
    assert forall x :: Term(idx, 0, d)(x) ==> Guarded(idx)(x);
    hide Term, Guarded, TermCode, Ssa, Shows, Defs;
    TermFits(t, pred, idx, 0, d, visible, taken);
    Wider(TermCode(t, pred, idx, 0, d), visible, taken, Term(idx, 0, d), Guarded(idx));
  }

  /** The code of a condition with an evaluator. */
  lemma ConditionFits(c: Condition, idx: Idx, negate: bool, visible: set<Name>, taken: set<Name>)
    requires Comparisons(c) != [] && TermNeeds(Comparisons(c)) <= visible && Avoids(taken, Guarded(idx))
    requires negate && |Comparisons(c)| > 1 ==> TrueI1 in visible
    ensures ConditionName(c, idx, negate).Some?
    ensures Fits(ConditionCode(c, idx, negate), visible, taken, Guarded(idx), ConditionName(c, idx, negate).value)
  {
    var terms := Comparisons(c);
    TermNeedsHold(terms, 0);
    if |terms| == 1 {
      SingleFits(terms[0], if negate then Negated(terms[0].op) else terms[0].op, idx, negate, visible, taken);
    } else {
      ConjunctionFits(terms, idx, negate, visible, taken);
    }
  }

  lemma TermsAreFormed(terms: seq<Condition>, idx: Idx, visible: set<Name>, taken: set<Name>)
    requires (forall i :: 0 <= i < |terms| ==> terms[i].Comparison?) && TermNeeds(terms) <= visible
             && Avoids(taken, Guarded(idx))
    ensures var code := TermsCode(terms, idx, |terms|);
            && Formed(code, visible, taken, Guarded(idx)) && Results(idx, |terms|) <= visible + Shows(code)
            && forall x :: x in taken + Defs(code) ==> !(x.AndFold? && x.idx == idx) && !(x.UntilCond? && x.idx == idx)
  {
    TermsAreGuarded(idx, |terms|);
    assert forall n :: Guarded(idx)(AndFold(idx, n));
    assert Guarded(idx)(UntilCond(idx));
    hide Terms, Guarded, Ssa, Shows, Defs, TermsCode, TermNeeds, Results;
    TermsFit(terms, idx, |terms|, visible, taken);
    Wider(TermsCode(terms, idx, |terms|), visible, taken, Terms(idx, |terms|), Guarded(idx));
  }

  lemma FoldedFits(terms: seq<Condition>, idx: Idx, visible: set<Name>, taken: set<Name>)
    requires |terms| > 1 && (forall i :: 0 <= i < |terms| ==> terms[i].Comparison?) && TermNeeds(terms) <= visible
    requires Avoids(taken, Guarded(idx))
    ensures var code := TermsCode(terms, idx, |terms|) + FoldCode(idx, |terms|);
            Fits(code, visible, taken, Guarded(idx), FoldName(idx, |terms| - 1))
                && UntilCond(idx) !in taken + Defs(code)
  {
    var k := |terms|;
    var tc, fc := TermsCode(terms, idx, k), FoldCode(idx, k);
    hide Guarded, Ssa, Shows, Defs, TermsCode, FoldCode, TermNeeds, Results, Avoids;
    TermsAreFormed(terms, idx, visible, taken);
    FoldFits(idx, k, visible + Shows(tc), taken + Defs(tc));
    AppendFits(tc, fc, visible, taken, Guarded(idx), FoldName(idx, k - 1));
    DefsConcat(tc, fc);
  }

  lemma UntilIsGuarded(idx: Idx)
    ensures Guarded(idx)(UntilCond(idx))
  {
  }

  lemma ConjunctionFits(terms: seq<Condition>, idx: Idx, negate: bool, visible: set<Name>, taken: set<Name>)
    requires |terms| > 1 && (forall i :: 0 <= i < |terms| ==> terms[i].Comparison?) && TermNeeds(terms) <= visible
    requires Avoids(taken, Guarded(idx)) && (negate ==> TrueI1 in visible)
    ensures var k := |terms|;
            Fits(TermsCode(terms, idx, k) + FoldCode(idx, k)
                 + (if negate then [Do(Logic(UntilCond(idx), XorI, FoldName(idx, k - 1), TrueI1))] else []),
                 visible, taken, Guarded(idx), if negate then UntilCond(idx) else FoldName(idx, k - 1))
  {
    var code := TermsCode(terms, idx, |terms|) + FoldCode(idx, |terms|);
    UntilIsGuarded(idx);
    hide Guarded, Ssa, Shows, Defs, TermsCode, FoldCode, FoldName, TermNeeds, Formed, Avoids;
    FoldedFits(terms, idx, visible, taken);
    if negate {
      var last := Logic(UntilCond(idx), XorI, FoldName(idx, |terms| - 1), TrueI1);
      LineFits(last, visible + Shows(code), taken + Defs(code), Guarded(idx));
      AppendFits(code, [Do(last)], visible, taken, Guarded(idx), last.d);
    } else {
      assert code + [] == code;
    }
  }

  // ---- Alternatives --------------------------------------------------------------------

  /** The names of the first `k` alternatives of step `i`. */
  predicate OfAlternatives(x: Name, i: nat, k: nat) {
    var idx := IdxOf(x);
    idx.Some? && idx.value.Alternative? && idx.value.i == i && idx.value.n < k && Wellformed(x) && SlotGiven(x)
  }

  /** The names of step `i`'s guard; `alt` says whether it numbers them per alternative. */
  predicate ByGuard(x: Name, i: nat, alt: bool) {
    || (x.OrFold? && x.i == i)
    || (IdxOf(x).Some? && IdxOf(x).value.i == i && IdxOf(x).value.Alternative? == alt && Wellformed(x) && SlotGiven(x))
  }

  function GuardOwn(i: nat, alt: bool): Name -> bool {
    x => ByGuard(x, i, alt)
  }

  /** The names that the code of step `i` may define. */
  predicate Belongs(x: Name, i: nat, alt: bool) {
    || ByGuard(x, i, alt)
    || ((x.SkipFlag? || x.StepPtr? || x.StepIndex? || x.StepResult? || x.KindPtr?) && x.i == i)
  }

  function Own(i: nat, alt: bool): Name -> bool {
    x => Belongs(x, i, alt)
  }

  /** What the first `k` texts read is visible. */
  predicate TextsRead(cs: seq<Option<Condition>>, k: nat, visible: set<Name>) {
    forall n :: 0 <= n < k && n < |cs| && cs[n].Some? ==> TermNeeds(Comparisons(cs[n].value)) <= visible
  }

  predicate InAlternatives(code: Code, i: nat, k: nat) {
    forall x :: x in Defs(code) ==> OfAlternatives(x, i, k)
  }

  lemma AltTermStep(c: Condition, init: Code, i: nat, k: nat, visible: set<Name>, taken: set<Name>)
    requires Comparisons(c) != [] && TermNeeds(Comparisons(c)) <= visible && Avoids(taken, GuardOwn(i, true))
    requires Formed(init, visible, taken, GuardOwn(i, true)) && InAlternatives(init, i, k)
    ensures ConditionName(c, Alternative(i, k), false).Some?
    ensures var code := init + ConditionCode(c, Alternative(i, k), false);
            && Fits(code, visible, taken, GuardOwn(i, true), ConditionName(c, Alternative(i, k), false).value)
            && InAlternatives(code, i, k + 1) && Shows(init) <= Shows(code)
  {
    var idx := Alternative(i, k);
    var code := ConditionCode(c, idx, false);
    AlternativeApart(i, k, k + 1);
    hide GuardOwn, Guarded, Ssa, Shows, Defs, ConditionCode, TermNeeds, OfAlternatives, ConditionName, Comparisons;
    ConditionFits(c, idx, false, visible + Shows(init), taken + Defs(init));
    Wider(code, visible + Shows(init), taken + Defs(init), Guarded(idx), GuardOwn(i, true));
    AppendFits(init, code, visible, taken, GuardOwn(i, true), ConditionName(c, idx, false).value);
    DefsConcat(init, code);
  }

  lemma EvaluatorRead(cs: seq<Option<Condition>>, n: nat, visible: set<Name>)
    requires n < Evaluable(cs) && TextsRead(cs, |cs|, visible)
    ensures cs[n].Some? && Comparisons(cs[n].value) != [] && TermNeeds(Comparisons(cs[n].value)) <= visible
  {
    assert HasEvaluator(cs[n]);
  }

  /** The results of the first `k` alternatives. */
  function AltResults(cs: seq<Option<Condition>>, i: nat, k: nat): set<Name>
    requires k <= Evaluable(cs)
  {
    if k == 0 then {} else AltResults(cs, i, k - 1) + {AltTermName(cs[k - 1], i, k - 1)}
  }

  lemma {:induction false} AltTermsFit(cs: seq<Option<Condition>>, i: nat, k: nat, visible: set<Name>, taken: set<Name>)
    requires k <= Evaluable(cs) && TextsRead(cs, |cs|, visible) && Avoids(taken, GuardOwn(i, true))
    ensures Formed(AltTermsCode(cs, i, k), visible, taken, GuardOwn(i, true))
    ensures InAlternatives(AltTermsCode(cs, i, k), i, k)
    ensures AltResults(cs, i, k) <= visible + Shows(AltTermsCode(cs, i, k))
  {
    hide GuardOwn, Ssa, Shows, Defs, ConditionCode, TermNeeds, Evaluable, ConditionName, Comparisons, TextsRead, Formed,
         InAlternatives, Avoids, HasEvaluator;
    if k == 0 {
      EmptyFormed(visible, taken, GuardOwn(i, true));
      NothingIn(i);
    } else {
      AltTermsFit(cs, i, k - 1, visible, taken);
      EvaluatorRead(cs, k - 1, visible);
      AltTermStep(cs[k - 1].value, AltTermsCode(cs, i, k - 1), i, k - 1, visible, taken);
      assert AltTermName(cs[k - 1], i, k - 1) == ConditionName(cs[k - 1].value, Alternative(i, k - 1), false).value;
    }
  }

  lemma NothingIn(i: nat)
    ensures InAlternatives([], i, 0)
  {
  }

  lemma AlternativeApart(i: nat, n: nat, k: nat)
    requires k == n + 1
    ensures forall x :: OfAlternatives(x, i, n) ==> OfAlternatives(x, i, k)
    ensures forall x :: Guarded(Alternative(i, n))(x) ==> GuardOwn(i, true)(x)
    ensures forall x :: Guarded(Alternative(i, n))(x) ==> OfAlternatives(x, i, k)
    ensures forall x :: Guarded(Alternative(i, n))(x) ==> !OfAlternatives(x, i, n)
  {
  }

  predicate OnlyOrFolds(code: Code, i: nat, k: nat) {
    forall x :: x in Defs(code) ==> x.OrFold? && x.i == i && x.n < k
  }

  lemma AltFoldStep(init: Code, i: nat, k: nat, l: Name, r: Name, visible: set<Name>, taken: set<Name>)
    requires Fits(init, visible, taken, GuardOwn(i, true), l) && r in visible && OnlyOrFolds(init, i, k)
    requires Avoids(taken, x => x == OrFold(i, k))
    ensures var code := init + [Do(Logic(OrFold(i, k), OrI, l, r))];
            Fits(code, visible, taken, GuardOwn(i, true), OrFold(i, k)) && OnlyOrFolds(code, i, k + 1)
  {
    var last := Logic(OrFold(i, k), OrI, l, r);
    assert GuardOwn(i, true)(last.d);
    OneLine(Do(last));
    hide GuardOwn, Ssa, Shows, Defs;
    LineFits(last, visible + Shows(init), taken + Defs(init), GuardOwn(i, true));
    AppendFits(init, [Do(last)], visible, taken, GuardOwn(i, true), last.d);
    DefsConcat(init, [Do(last)]);
  }

  lemma {:induction false} AltFoldFits(cs: seq<Option<Condition>>, i: nat, k: nat, visible: set<Name>, taken: set<Name>)
    requires AllHaveEvaluator(cs) && 0 < k <= |cs| && AltResults(cs, i, k) <= visible
    requires forall n :: OrFold(i, n) !in taken
    ensures Fits(AltFoldCode(cs, i, k), visible, taken, GuardOwn(i, true), AltFoldName(cs, i, k - 1))
    ensures OnlyOrFolds(AltFoldCode(cs, i, k), i, k)
  {
    if k == 1 {
      NoCodeFits(visible, taken, GuardOwn(i, true), AltFoldName(cs, i, 0));
    } else {
      hide GuardOwn, Ssa, Shows, Defs, OnlyOrFolds, AltTermName, Fits;
      AltFoldFits(cs, i, k - 1, visible, taken);
      AltFoldStep(AltFoldCode(cs, i, k - 1), i, k - 1, AltFoldName(cs, i, k - 2), AltTermName(cs[k - 1], i, k - 1),
                  visible, taken);
    }
  }

  lemma OrFoldsApart(i: nat, k: nat)
    ensures forall n :: GuardOwn(i, true)(OrFold(i, n))
    ensures forall n :: !OfAlternatives(OrFold(i, n), i, k)
  {
  }

  lemma AltFits(cs: seq<Option<Condition>>, i: nat, visible: set<Name>, taken: set<Name>)
    requires cs != [] && TextsRead(cs, |cs|, visible) && Avoids(taken, GuardOwn(i, true))
    ensures Formed(AltCode(cs, i), visible, taken, GuardOwn(i, true))
    ensures AltName(cs, i).Some? ==> AltName(cs, i).value in visible + Shows(AltCode(cs, i))
  {
    hide GuardOwn, OfAlternatives, Ssa, Shows, Defs, AltTermsCode, AltTermName, Evaluable, TextsRead, AltResults,
         AltFoldCode, AltFoldName, Comparisons, TermNeeds, HasEvaluator;
    var k := Evaluable(cs);
    var tc := AltTermsCode(cs, i, k);
    OrFoldsApart(i, k);
    AltTermsFit(cs, i, k, visible, taken);
    if AllHaveEvaluator(cs) {
      AltFoldFits(cs, i, k, visible + Shows(tc), taken + Defs(tc));
      AppendFits(tc, AltFoldCode(cs, i, k), visible, taken, GuardOwn(i, true), AltFoldName(cs, i, k - 1));
    } else {
      assert tc + [] == tc;
    }
  }

  // ---- Guards --------------------------------------------------------------------------

  function Alternatively(g: Guard): bool {
    g.mode.When? && g.alternatives != []
  }

  /** What a guard's texts read is visible, and the constant true where it is needed. */
  predicate GuardReads(u: CharClass, g: Guard, visible: set<Name>) {
    && TextsRead(ParsedAll(u, [g.condition] + g.alternatives), |g.alternatives| + 1, visible)
    && (g.mode.Until? && Parsed(u, g.condition).Some? && Parsed(u, g.condition).value.And? ==> TrueI1 in visible)
  }

  lemma PlainIsOwn(i: nat)
    ensures forall x :: Guarded(Idx.Plain(i))(x) ==> GuardOwn(i, false)(x)
  {
  }

  lemma GuardIsSsa(u: CharClass, g: Guard, i: nat, visible: set<Name>, taken: set<Name>)
    requires GuardReads(u, g, visible) && Avoids(taken, GuardOwn(i, Alternatively(g)))
    ensures Formed(GuardCode(u, g, i), visible, taken, GuardOwn(i, Alternatively(g)))
    ensures GuardName(u, g, i).Some? ==> GuardName(u, g, i).value in visible + Shows(GuardCode(u, g, i))
  {
    hide Parsed, Ssa, Shows, Defs, AltCode, AltName, ConditionCode, ConditionName, GuardOwn, Guarded;
    if Alternatively(g) {
      AltFits(ParsedAll(u, [g.condition] + g.alternatives), i, visible, taken);
    } else {
      var c := Parsed(u, g.condition);
      if c.Some? && Comparisons(c.value) != [] {
        assert ParsedAll(u, [g.condition] + g.alternatives)[0] == c;
        PlainIsOwn(i);
        ConditionFits(c.value, Idx.Plain(i), g.mode.Until?, visible, taken);
        Wider(ConditionCode(c.value, Idx.Plain(i), g.mode.Until?), visible, taken, Guarded(Idx.Plain(i)),
              GuardOwn(i, false));
      } else {
        if c.Some? {
          NoEvaluator(c.value, Idx.Plain(i), g.mode.Until?);
        }
        EmptyFormed(visible, taken, GuardOwn(i, Alternatively(g)));
      }
    }
  }

  lemma NoEvaluator(c: Condition, idx: Idx, negate: bool)
    requires Comparisons(c) == []
    ensures ConditionCode(c, idx, negate) == [] && ConditionName(c, idx, negate).None?
  {
  }

  lemma EmptyFormed(visible: set<Name>, taken: set<Name>, mine: Name -> bool)
    ensures Formed([], visible, taken, mine)
  {
  }

  // ---- Steps ---------------------------------------------------------------------------

  lemma {:induction false} BodyConcat(a: Render.Body, b: Render.Body, visible: set<Name>, taken: set<Name>)
    ensures BodyOk(a + b, visible, taken)
       <==> BodyOk(a, visible, taken) && BodyOk(b, visible + BodyDefs(a), taken + BodyDefs(a))
    ensures BodyDefs(a + b) == BodyDefs(a) + BodyDefs(b)
  {
    hide InstrOk, DefsOf;
    if a == [] {
      assert a + b == b && visible + {} == visible && taken + {} == taken;
    } else {
      assert (a + b)[1..] == a[1..] + b;
      var v, t := visible + DefsOf(a[0]), taken + DefsOf(a[0]);
      BodyConcat(a[1..], b, v, t);
      assert v + BodyDefs(a[1..]) == visible + BodyDefs(a) && t + BodyDefs(a[1..]) == taken + BodyDefs(a);
    }
  }

  predicate BodyFits(body: Render.Body, visible: set<Name>, taken: set<Name>, mine: Name -> bool) {
    BodyOk(body, visible, taken) && forall x :: x in BodyDefs(body) ==> mine(x)
  }

  /** The names the body of step `i` defines. */
  function Calls(i: nat): Name -> bool {
    (x: Name) => (x.StepResult? || x.KindPtr?) && x.i == i
  }

  lemma EffectFits(op: Op, globals: seq<string>, n: nat, visible: set<Name>, taken: set<Name>)
    requires n < |op.effects| && StepPtr(op.index) in visible && KindPtr(op.index, n) !in taken
    ensures var pair := [AddressOf(KindPtr(op.index, n), Position(globals, op.effects[n].Kind())),
                         CallEffect(StepPtr(op.index), KindPtr(op.index, n))];
            BodyOk(pair, visible, taken) && BodyDefs(pair) == {KindPtr(op.index, n)}
  {
    var a := AddressOf(KindPtr(op.index, n), Position(globals, op.effects[n].Kind()));
    var c := CallEffect(StepPtr(op.index), KindPtr(op.index, n));
    assert [a, c][1..] == [c] && [c][1..] == [];
    assert BodyOk([c], visible + DefsOf(a), taken + DefsOf(a));
    assert BodyDefs([c]) == {};
  }

  lemma {:induction false} EffectsFit(op: Op, globals: seq<string>, n: nat, visible: set<Name>, taken: set<Name>)
    requires n <= |op.effects| && StepPtr(op.index) in visible && forall k :: KindPtr(op.index, k) !in taken
    ensures BodyOk(EffectCalls(op, globals, n), visible, taken)
    ensures forall x :: x in BodyDefs(EffectCalls(op, globals, n)) ==> x.KindPtr? && x.i == op.index && x.n < n
  {
    if n > 0 {
      var init := EffectCalls(op, globals, n - 1);
      var pair := [AddressOf(KindPtr(op.index, n - 1), Position(globals, op.effects[n - 1].Kind())),
                   CallEffect(StepPtr(op.index), KindPtr(op.index, n - 1))];
      assert EffectCalls(op, globals, n) == init + pair;
      hide BodyOk, BodyDefs, EffectCalls;
      EffectsFit(op, globals, n - 1, visible, taken);
      EffectFits(op, globals, n - 1, visible + BodyDefs(init), taken + BodyDefs(init));
      BodyConcat(init, pair, visible, taken);
    }
  }

  lemma OneInstr(i: Instr<Name>)
    ensures BodyDefs([i]) == DefsOf(i)
  {
    assert [i][1..] == [] && BodyDefs([]) == {};
    assert DefsOf(i) + {} == DefsOf(i);
  }

  lemma OpBodyFits(op: Op, globals: seq<string>, visible: set<Name>, taken: set<Name>)
    requires StepPtr(op.index) in visible && StepIndex(op.index) in visible && Avoids(taken, Calls(op.index))
    ensures BodyFits(OpBody(op, globals), visible, taken, Calls(op.index))
  {
    var call := CallStep(StepResult(op.index), StepPtr(op.index), StepIndex(op.index));
    assert [call][1..] == [];
    assert Calls(op.index)(StepResult(op.index)) && forall k :: Calls(op.index)(KindPtr(op.index, k));
    OneInstr(call);
    assert BodyOk([call], visible, taken);
    hide BodyOk, BodyDefs, EffectCalls;
    EffectsFit(op, globals, |op.effects|, visible + BodyDefs([call]), taken + BodyDefs([call]));
    BodyConcat([call], EffectCalls(op, globals, |op.effects|), visible, taken);
  }

  lemma {:induction false} DoAllSsa(body: Render.Body, visible: set<Name>, taken: set<Name>)
    requires BodyOk(body, visible, taken)
    ensures Ssa(DoAll(body), visible, taken) && Defs(DoAll(body)) == BodyDefs(body)
  {
    if body != [] {
      hide InstrOk, DefsOf;
      assert DoAll(body)[1..] == DoAll(body[1..]) && DoAll(body)[0] == Do(body[0]);
      DoAllSsa(body[1..], visible + DefsOf(body[0]), taken + DefsOf(body[0]));
    }
  }

  /** In form, and defining only names of `mine`. */
  predicate Placed(code: Code, visible: set<Name>, taken: set<Name>, mine: Name -> bool) {
    Ssa(code, visible, taken) && forall x :: x in Defs(code) ==> mine(x)
  }

  lemma AppendPlaced(a: Code, b: Code, visible: set<Name>, taken: set<Name>, mine: Name -> bool)
    requires Placed(a, visible, taken, mine) && Placed(b, visible + Shows(a), taken + Defs(a), mine)
    ensures Placed(a + b, visible, taken, mine)
  {
    hide Ssa, Shows, Defs;
    SsaConcat(a, b, visible, taken);
    DefsConcat(a, b);
  }

  lemma CallsAreOwn(i: nat, alt: bool)
    ensures forall x :: Calls(i)(x) ==> Own(i, alt)(x)
  {
  }

  lemma IfPlaced(c: Name, op: Op, alt: bool, globals: seq<string>, visible: set<Name>, taken: set<Name>)
    requires c in visible && StepPtr(op.index) in visible && StepIndex(op.index) in visible
             && Avoids(taken, Calls(op.index))
    ensures Placed([If(c, OpBody(op, globals))], visible, taken, Own(op.index, alt))
  {
    CallsAreOwn(op.index, alt);
    hide Own, Calls, BodyOk, BodyDefs, OpBody;
    OpBodyFits(op, globals, visible, taken);
    OneLine(If(c, OpBody(op, globals)));
  }

  lemma GuardedPlaced(op: Op, mode: GuardMode, name: Option<Name>, alt: bool, globals: seq<string>,
                      visible: set<Name>, taken: set<Name>)
    requires StepPtr(op.index) in visible && StepIndex(op.index) in visible && Skip in visible && C0 in visible
    requires name.Some? ==> name.value in visible
    requires Avoids(taken, Calls(op.index)) && SkipFlag(op.index) !in taken
    ensures Placed(GuardedCode(mode, name, op.index, OpBody(op, globals)), visible, taken, Own(op.index, alt))
  {
    var i := op.index;
    assert Own(i, alt)(SkipFlag(i)) && !Calls(i)(SkipFlag(i));
    CallsAreOwn(i, alt);
    hide Own, Calls, OpBody, Ssa, Shows, Defs, BodyOk, BodyDefs;
    if name.Some? {
      IfPlaced(name.value, op, alt, globals, visible, taken);
    } else if mode.When? {
      var flag := EqualI32(SkipFlag(i), Skip, C0);
      OneLine(Do(flag));
      assert InstrOk(flag, visible, taken);
      IfPlaced(SkipFlag(i), op, alt, globals, visible + {SkipFlag(i)}, taken + {SkipFlag(i)});
      AppendPlaced([Do(flag)], [If(SkipFlag(i), OpBody(op, globals))], visible, taken, Own(i, alt));
      assert [Do(flag)] + [If(SkipFlag(i), OpBody(op, globals))] == [Do(flag), If(SkipFlag(i), OpBody(op, globals))];
    } else {
      OpBodyFits(op, globals, visible, taken);
      DoAllSsa(OpBody(op, globals), visible, taken);
    }
  }

  lemma HeadPlaced(op: Op, alt: bool, globals: seq<string>, visible: set<Name>, taken: set<Name>)
    requires StepPtr(op.index) !in taken && StepIndex(op.index) !in taken
    ensures Placed(OpHead(op, globals), visible, taken, Own(op.index, alt))
    ensures Shows(OpHead(op, globals)) == Defs(OpHead(op, globals)) == {StepPtr(op.index), StepIndex(op.index)}
  {
    var a := Do(AddressOf(StepPtr(op.index), Position(globals, op.name)));
    var b := Do(Const32(StepIndex(op.index), op.index));
    assert OpHead(op, globals) == [a] + [b];
    OneLine(a);
    OneLine(b);
    DefsConcat([a], [b]);
    SsaConcat([a], [b], visible, taken);
  }

  /** The base: the skip flag, zero, and what the op's guard reads. */
  predicate OpReads(u: CharClass, op: Op, visible: set<Name>) {
    Skip in visible && C0 in visible && (op.guard.Some? ==> GuardReads(u, op.guard.value, visible))
  }

  predicate AltOp(op: Op) {
    op.guard.Some? && Alternatively(op.guard.value)
  }

  lemma ReadsMore(u: CharClass, op: Op, visible: set<Name>, more: set<Name>)
    requires OpReads(u, op, visible) && visible <= more
    ensures OpReads(u, op, more)
  {
    hide TermNeeds, Parsed, Comparisons;
  }

  lemma OwnParts(i: nat, alt: bool)
    ensures forall x :: GuardOwn(i, alt)(x) ==>
              Own(i, alt)(x) && !Calls(i)(x) && x != SkipFlag(i) && x != StepPtr(i) && x != StepIndex(i)
    ensures Own(i, alt)(SkipFlag(i)) && !Calls(i)(SkipFlag(i)) && !Calls(i)(StepPtr(i)) && !Calls(i)(StepIndex(i))
  {
  }

  lemma TailPlaced(u: CharClass, op: Op, globals: seq<string>, visible: set<Name>, taken: set<Name>)
    requires OpReads(u, op, visible) && StepPtr(op.index) in visible && StepIndex(op.index) in visible
    requires Avoids(taken, Calls(op.index)) && Avoids(taken, GuardOwn(op.index, AltOp(op)))
             && SkipFlag(op.index) !in taken
    ensures Placed(OpTail(u, op, globals), visible, taken, Own(op.index, AltOp(op)))
  {
    var i, alt := op.index, AltOp(op);
    CallsAreOwn(i, alt);
    OwnParts(i, alt);
    hide Own, Calls, GuardOwn, OpBody, Ssa, Defs, Shows, BodyOk, BodyDefs, GuardCode, GuardName, GuardedCode,
         GuardReads;
    if op.guard.None? {
      OpBodyFits(op, globals, visible, taken);
      DoAllSsa(OpBody(op, globals), visible, taken);
    } else {
      var g := op.guard.value;
      var gc := GuardCode(u, g, i);
      GuardIsSsa(u, g, i, visible, taken);
      GuardedPlaced(op, g.mode, GuardName(u, g, i), alt, globals, visible + Shows(gc), taken + Defs(gc));
      AppendPlaced(gc, GuardedCode(g.mode, GuardName(u, g, i), i, OpBody(op, globals)), visible, taken, Own(i, alt));
    }
  }

  /** The code of one op, given what its guard reads and that no name of its own is taken. */
  lemma OpPlaced(u: CharClass, op: Op, globals: seq<string>, visible: set<Name>, taken: set<Name>)
    requires OpReads(u, op, visible) && Avoids(taken, Own(op.index, AltOp(op)))
    ensures Placed(OpCode(u, op, globals), visible, taken, Own(op.index, AltOp(op)))
  {
    var i, alt := op.index, AltOp(op);
    var head := OpHead(op, globals);
    OwnParts(i, alt);
    CallsAreOwn(i, alt);
    assert Own(i, alt)(StepPtr(i)) && Own(i, alt)(StepIndex(i));
    hide Own, Calls, GuardOwn, OpTail, OpHead, Ssa, Defs, Shows, OpReads, AltOp;
    HeadPlaced(op, alt, globals, visible, taken);
    ReadsMore(u, op, visible, visible + Shows(head));
    TailPlaced(u, op, globals, visible + Shows(head), taken + Defs(head));
    AppendPlaced(head, OpTail(u, op, globals), visible, taken, Own(i, alt));
  }

  // ---- The whole function --------------------------------------------------------------

  /** A name of one of the first `k` ops. */
  ghost predicate OfOps(x: Name, ops: seq<Op>, k: nat)
    requires k <= |ops|
  {
    exists j :: 0 <= j < k && Belongs(x, ops[j].index, AltOp(ops[j]))
  }

  ghost function FirstOps(ops: seq<Op>, k: nat): Name -> bool
    requires k <= |ops|
  {
    x => OfOps(x, ops, k)
  }

  lemma OpsApart(ops: seq<Op>, k: nat)
    requires k < |ops| && forall j :: 0 <= j < |ops| ==> ops[j].index == j + 1
    ensures forall x :: FirstOps(ops, k)(x) ==> FirstOps(ops, k + 1)(x)
    ensures forall x :: Own(ops[k].index, AltOp(ops[k]))(x) ==> FirstOps(ops, k + 1)(x)
    ensures forall x :: Own(ops[k].index, AltOp(ops[k]))(x) ==> !FirstOps(ops, k)(x)
  {
    forall x | Own(ops[k].index, AltOp(ops[k]))(x) ensures !FirstOps(ops, k)(x) {
      assert forall j :: 0 <= j < k ==> ops[j].index != ops[k].index;
    }
  }

  lemma FirstOpsGrow(ops: seq<Op>, j: nat, k: nat)
    requires j <= k <= |ops|
    ensures forall x :: FirstOps(ops, j)(x) ==> FirstOps(ops, k)(x)
  {
  }

  lemma OpsStep(u: CharClass, ops: seq<Op>, globals: seq<string>, k: nat, visible: set<Name>, taken: set<Name>)
    requires k < |ops| && forall j :: 0 <= j < |ops| ==> ops[j].index == j + 1
    requires OpReads(u, ops[k], visible) && Avoids(taken, FirstOps(ops, |ops|))
    requires Placed(OpsCode(u, ops, globals, k), visible, taken, FirstOps(ops, k))
    ensures Placed(OpsCode(u, ops, globals, k + 1), visible, taken, FirstOps(ops, k + 1))
  {
    var init, code := OpsCode(u, ops, globals, k), OpCode(u, ops[k], globals);
    var own := Own(ops[k].index, AltOp(ops[k]));
    assert OpsCode(u, ops, globals, k + 1) == init + code;
    OpsApart(ops, k);
    FirstOpsGrow(ops, k + 1, |ops|);
    hide Own, FirstOps, Ssa, Shows, Defs, OpReads, OpCode, OpsCode, AltOp;
    ReadsMore(u, ops[k], visible, visible + Shows(init));
    OpPlaced(u, ops[k], globals, visible + Shows(init), taken + Defs(init));
    AppendPlaced(init, code, visible, taken, FirstOps(ops, k + 1));
  }

  lemma NoOpsPlaced(u: CharClass, ops: seq<Op>, globals: seq<string>, visible: set<Name>, taken: set<Name>)
    ensures Placed(OpsCode(u, ops, globals, 0), visible, taken, FirstOps(ops, 0))
  {
    hide OpReads, Avoids, OpCode;
  }

  lemma {:induction false} OpsPlaced(u: CharClass, ops: seq<Op>, globals: seq<string>, k: nat, visible: set<Name>,
                                     taken: set<Name>)
    requires k <= |ops| && forall j :: 0 <= j < |ops| ==> ops[j].index == j + 1
    requires (forall j :: 0 <= j < |ops| ==> OpReads(u, ops[j], visible)) && Avoids(taken, FirstOps(ops, |ops|))
    ensures Placed(OpsCode(u, ops, globals, k), visible, taken, FirstOps(ops, k))
  {
    hide Placed, OpReads, Avoids, FirstOps, OpsCode;
    if k == 0 {
      NoOpsPlaced(u, ops, globals, visible, taken);
    } else {
      OpsPlaced(u, ops, globals, k - 1, visible, taken);
      OpsStep(u, ops, globals, k - 1, visible, taken);
    }
  }

  // ---- The prelude ---------------------------------------------------------------------

  function ConstNames(values: seq<int>): set<Name> {
    set v | v in values :: LitConst(v)
  }

  lemma {:induction false} ConstsSsa(values: seq<int>, visible: set<Name>, taken: set<Name>)
    requires Ascending(values) && forall v :: v in values ==> LitConst(v) !in taken
    ensures Ssa(ConstCode(values), visible, taken)
    ensures Shows(ConstCode(values)) == Defs(ConstCode(values)) == ConstNames(values)
  {
    if values != [] {
      var line := Do(Const64(LitConst(values[0]), values[0]));
      assert ConstCode(values)[0] == line && ConstCode(values)[1..] == ConstCode(values[1..]);
      assert values == [values[0]] + values[1..];
      assert ConstNames(values) == {LitConst(values[0])} + ConstNames(values[1..]);
      assert values[0] !in values[1..];
      ConstsSsa(values[1..], visible + {LitConst(values[0])}, taken + {LitConst(values[0])});
    }
  }

  /** The fixed names and the constants. */
  function PreludeNames(values: seq<int>, needsTrue: bool): set<Name> {
    {C0, C1} + ConstNames(values) + if needsTrue then {TrueI1} else {}
  }

  lemma TwoConsts(visible: set<Name>, taken: set<Name>)
    requires C0 !in taken && C1 !in taken
    ensures var head := [Do(Const32(C0, 0)), Do(Const32(C1, 1))];
            Ssa(head, visible, taken) && Shows(head) == Defs(head) == {C0, C1}
  {
    var a, b := Do(Const32(C0, 0)), Do(Const32(C1, 1));
    assert [a, b] == [a] + [b];
    OneLine(a);
    OneLine(b);
    DefsConcat([a], [b]);
    SsaConcat([a], [b], visible, taken);
  }

  lemma PreludeShows(values: seq<int>, needsTrue: bool, visible: set<Name>)
    requires Ascending(values) && forall x :: x in visible ==> x == Skip || x.Field?
    ensures Shows(PreludeCode(values, needsTrue)) == Defs(PreludeCode(values, needsTrue))
            == PreludeNames(values, needsTrue)
  {
    var head, consts := [Do(Const32(C0, 0)), Do(Const32(C1, 1))], ConstCode(values);
    var last := if needsTrue then [Do(ConstTrue(TrueI1))] else [];
    TwoConsts(visible, visible);
    ConstsSsa(values, visible + {C0, C1}, visible + {C0, C1});
    LastShows(needsTrue);
    hide Ssa, Shows, Defs, ConstCode;
    DefsConcat(head + consts, last);
    DefsConcat(head, consts);
  }

  lemma LastShows(needsTrue: bool)
    ensures var last: Code := if needsTrue then [Do(ConstTrue(TrueI1))] else [];
            Shows(last) == Defs(last) == if needsTrue then {TrueI1} else {}
  {
    if needsTrue {
      OneLine(Do(ConstTrue(TrueI1)));
    }
  }

  lemma LastSsa(needsTrue: bool, visible: set<Name>, taken: set<Name>)
    requires TrueI1 !in taken
    ensures Ssa(if needsTrue then [Do(ConstTrue(TrueI1))] else [], visible, taken)
  {
    if needsTrue {
      OneLine(Do(ConstTrue(TrueI1)));
    }
  }

  lemma PreludeSsa(values: seq<int>, needsTrue: bool, visible: set<Name>)
    requires Ascending(values) && forall x :: x in visible ==> x == Skip || x.Field?
    ensures Ssa(PreludeCode(values, needsTrue), visible, visible)
    ensures Shows(PreludeCode(values, needsTrue)) == Defs(PreludeCode(values, needsTrue))
            == PreludeNames(values, needsTrue)
  {
    var head, consts := [Do(Const32(C0, 0)), Do(Const32(C1, 1))], ConstCode(values);
    var last := if needsTrue then [Do(ConstTrue(TrueI1))] else [];
    PreludeShows(values, needsTrue, visible);
    TwoConsts(visible, visible);
    ConstsSsa(values, visible + {C0, C1}, visible + {C0, C1});
    LastSsa(needsTrue, visible + Shows(head + consts), visible + {C0, C1} + ConstNames(values));
    hide Ssa, Shows, Defs, ConstCode;
    DefsConcat(head, consts);
    SsaConcat(head + consts, last, visible, visible);
    SsaConcat(head, consts, visible, visible);
    assert visible + ({C0, C1} + ConstNames(values)) == visible + {C0, C1} + ConstNames(values);
  }

  // ---- What guards read ----------------------------------------------------------------

  /** The references of the parsable texts. */
  function TextRefs(u: CharClass, texts: seq<string>): set<string> {
    if texts == [] then {}
    else
      var c := Parsed(u, texts[0]);
      (if c.Some? then (set r | r in References(c.value)) else {}) + TextRefs(u, texts[1..])
  }

  /** `condition_field_names`: the references of every guard. */
  function FieldNames(u: CharClass, ops: seq<Op>): set<string> {
    if ops == [] then {} else TextRefs(u, OpConditions(ops[0])) + FieldNames(u, ops[1..])
  }

  /** The parameters of the emitted function. */
  function Params(fields: set<string>): set<Name> {
    {Skip} + set r | r in fields :: Field(r)
  }

  lemma {:induction false} ValueRead(v: Value)
    ensures forall x :: x in Needs(v) ==>
              || (x.Field? && x.ref in ValueReferences(v))
              || (x.LitConst? && x.value in ValueLiterals(v))
  {
    if v.Arith? {
      ValueRead(v.left);
      ValueRead(v.right);
    }
  }

  lemma {:induction false} TermsRead(terms: seq<Condition>)
    requires forall i :: 0 <= i < |terms| ==> terms[i].Comparison?
    ensures forall x :: x in TermNeeds(terms) ==>
              || (x.Field? && x.ref in TermReferences(terms))
              || (x.LitConst? && x.value in TermLiterals(terms))
  {
    if terms != [] {
      ValueRead(terms[0].left);
      ValueRead(terms[0].right);
      TermsRead(terms[1..]);
    }
  }

  lemma {:induction false} OnlyComparisonsRefs(terms: seq<Condition>)
    ensures forall r :: r in TermReferences(OnlyComparisons(terms)) ==> r in TermReferences(terms)
  {
    if terms != [] {
      OnlyComparisonsRefs(terms[1..]);
      var rest := OnlyComparisons(terms[1..]);
      assert ([terms[0]] + rest)[1..] == rest && [] + rest == rest;
    }
  }

  lemma ConditionRead(c: Condition)
    ensures forall x :: x in TermNeeds(Comparisons(c)) ==>
              || (x.Field? && x.ref in References(c))
              || (x.LitConst? && x.value in Literals(c))
  {
    TermsRead(Comparisons(c));
    match c
    case Comparison(_, _, _) =>
      assert Comparisons(c) == [c] && [c][1..] == [];
      assert TermReferences([c]) == References(c) + TermReferences([]);
    case And(terms) => OnlyComparisonsRefs(terms);
    case _ =>
  }

  lemma {:induction false} TextsAreRead(u: CharClass, texts: seq<string>, k: nat)
    requires k < |texts| && Parsed(u, texts[k]).Some?
    ensures forall x :: x in TermNeeds(Comparisons(Parsed(u, texts[k]).value)) ==>
              || (x.Field? && x.ref in TextRefs(u, texts))
              || (x.LitConst? && x.value in TextLiterals(u, texts))
  {
    hide ParseCondition, TermNeeds, Comparisons, Literals, References;
    if k == 0 {
      ConditionRead(Parsed(u, texts[0]).value);
    } else {
      TextsAreRead(u, texts[1..], k - 1);
    }
  }

  lemma {:induction false} OpsAreRead(u: CharClass, ops: seq<Op>, k: nat)
    requires k < |ops|
    ensures TextRefs(u, OpConditions(ops[k])) <= FieldNames(u, ops)
    ensures TextLiterals(u, OpConditions(ops[k])) <= AllLiterals(u, ops)
  {
    hide TextRefs, TextLiterals, OpConditions;
    if k > 0 {
      OpsAreRead(u, ops[1..], k - 1);
    }
  }

  lemma OpReadsBase(u: CharClass, ops: seq<Op>, k: nat, values: seq<int>, visible: set<Name>)
    requires k < |ops| && forall v :: v in AllLiterals(u, ops) ==> v in values
    requires Params(FieldNames(u, ops)) + PreludeNames(values, NeedsTrue(u, ops)) <= visible
    ensures OpReads(u, ops[k], visible)
  {
    var op := ops[k];
    assert Skip in Params(FieldNames(u, ops)) && C0 in PreludeNames(values, NeedsTrue(u, ops));
    if op.guard.Some? {
      var texts := OpConditions(op);
      var cs := ParsedAll(u, texts);
      OpsAreRead(u, ops, k);
      assert NegatesConjunction(u, op) ==> NeedsTrue(u, ops);
      forall n | 0 <= n < |cs| && cs[n].Some? ensures TermNeeds(Comparisons(cs[n].value)) <= visible {
        NeedsVisible(u, ops, texts, n, values, visible);
      }
    }
  }

  lemma NeedsVisible(u: CharClass, ops: seq<Op>, texts: seq<string>, n: nat, values: seq<int>, visible: set<Name>)
    requires n < |texts| && Parsed(u, texts[n]).Some?
    requires TextRefs(u, texts) <= FieldNames(u, ops) && TextLiterals(u, texts) <= AllLiterals(u, ops)
    requires forall v :: v in AllLiterals(u, ops) ==> v in values
    requires Params(FieldNames(u, ops)) + PreludeNames(values, NeedsTrue(u, ops)) <= visible
    ensures TermNeeds(Comparisons(Parsed(u, texts[n]).value)) <= visible
  {
    hide TextRefs, TextLiterals, FieldNames, AllLiterals, Parsed, TermNeeds, Comparisons, NeedsTrue;
    TextsAreRead(u, texts, n);
    forall x | x in TermNeeds(Comparisons(Parsed(u, texts[n]).value)) ensures x in visible {
      if x.Field? {
        assert x in Params(FieldNames(u, ops));
      } else {
        assert x in ConstNames(values);
      }
    }
  }

  // ---- Main results --------------------------------------------------------------------

  lemma BaseIsNoOp(fields: set<string>, values: seq<int>, needsTrue: bool, ops: seq<Op>)
    ensures Avoids(Params(fields) + PreludeNames(values, needsTrue), FirstOps(ops, |ops|))
  {
    hide AltOp;
  }

  lemma MoreParams(small: set<string>, fields: set<string>)
    requires small <= fields
    ensures Params(small) <= Params(fields)
  {
  }

  /** The code of the ops, over the parameters and what the prelude defines. */
  lemma OpsInModule(u: CharClass, ops: seq<Op>, fields: set<string>, values: seq<int>, base: set<Name>)
    requires FieldNames(u, ops) <= fields && forall v :: v in AllLiterals(u, ops) ==> v in values
    requires forall j :: 0 <= j < |ops| ==> ops[j].index == j + 1
    requires base == Params(fields) + PreludeNames(values, NeedsTrue(u, ops))
    ensures Placed(OpsCode(u, ops, Globals([], ops), |ops|), base, base, FirstOps(ops, |ops|))
  {
    hide OpReads, Params, PreludeNames, FieldNames, AllLiterals, NeedsTrue, Placed, OpsCode, Globals, FirstOps, Avoids;
    BaseIsNoOp(fields, values, NeedsTrue(u, ops), ops);
    MoreParams(FieldNames(u, ops), fields);
    forall k | 0 <= k < |ops| ensures OpReads(u, ops[k], base) {
      OpReadsBase(u, ops, k, values, base);
    }
    OpsPlaced(u, ops, Globals([], ops), |ops|, base, base);
  }

  /** A stream as `_render_std` gets it: its ops numbered from 1, the fields of the whole plan, which
      hold those its guards read, and the constants in ascending order. */
  ghost predicate Renders(u: CharClass, fields: set<string>, stream: Stream, values: seq<int>) {
    && (forall j :: 0 <= j < |stream.ops| ==> stream.ops[j].index == j + 1)
    && FieldNames(u, stream.ops) <= fields
    && Ascending(values) && forall v :: v in values <==> v in AllLiterals(u, stream.ops)
  }

  /** Whatever the guards are, the emitted function is in SSA form over its parameters: every name
      is defined once and before its uses, every constant is declared, every reference is a
      parameter, and the constant true is there when it is used. */
  lemma ModuleIsSsa(u: CharClass, fields: set<string>, stream: Stream, values: seq<int>)
    requires Renders(u, fields, stream, values)
    ensures var params := Params(fields);
            && Ssa(ModuleOf(u, stream, values).code, params, params)
            && forall x :: x in Defs(ModuleOf(u, stream, values).code) ==>
                 x in PreludeNames(values, NeedsTrue(u, stream.ops)) || FirstOps(stream.ops, |stream.ops|)(x)
  {
    hide Ssa, Shows, Defs, PreludeCode, OpsCode, FieldNames, AllLiterals, NeedsTrue, PreludeNames, Globals, FirstOps,
         Ascending;
    var ops, params := stream.ops, Params(fields);
    var prelude, code := PreludeCode(values, NeedsTrue(u, ops)), OpsCode(u, ops, Globals([], ops), |ops|);
    PreludeSsa(values, NeedsTrue(u, ops), params);
    hide Params;
    OpsInModule(u, ops, fields, values, params + PreludeNames(values, NeedsTrue(u, ops)));
    SsaConcat(prelude, code, params, params);
    DefsConcat(prelude, code);
  }

  // ---- What the guards' texts hold -----------------------------------------------------

  lemma {:induction false} ValueHolds(u: CharClass, v: Value)
    requires ConditionRoundTrip.WellFormedValue(u, v)
    ensures forall r :: r in ValueReferences(v) ==> IsReference(u, r)
    ensures forall n :: n in ValueLiterals(v) ==> n >= 0
  {
    if v.Arith? {
      assert ValueReferences(v) == ValueReferences(v.left) + ValueReferences(v.right);
    }
  }

  lemma TermHolds(u: CharClass, c: Condition)
    requires ConditionRoundTrip.WellFormedTerm(u, c)
    ensures forall r :: r in References(c) ==> IsReference(u, r)
    ensures c.Comparison? ==> forall n :: n in ValueLiterals(c.left) + ValueLiterals(c.right) ==> n >= 0
  {
    if c.Comparison? {
      ValueHolds(u, c.left);
      ValueHolds(u, c.right);
    }
  }

  lemma {:induction false} TermsHold(u: CharClass, terms: seq<Condition>)
    requires forall i :: 0 <= i < |terms| ==> ConditionRoundTrip.WellFormedTerm(u, terms[i])
    ensures forall r :: r in TermReferences(terms) ==> IsReference(u, r)
    ensures forall n :: n in TermLiterals(OnlyComparisons(terms)) ==> n >= 0
  {
    if terms != [] {
      hide IsReference;
      TermHolds(u, terms[0]);
      TermsHold(u, terms[1..]);
      var rest := OnlyComparisons(terms[1..]);
      assert ([terms[0]] + rest)[1..] == rest && [] + rest == rest;
    }
  }

  /** What a parsed condition refers to are references, and its constants have no sign. */
  lemma ParsedHolds(u: CharClass, text: string)
    requires Parsed(u, text).Some?
    ensures forall r :: r in References(Parsed(u, text).value) ==> IsReference(u, r)
    ensures forall n :: n in Literals(Parsed(u, text).value) ==> n >= 0
  {
    hide ParseCondition, IsReference;
    ConditionRoundTrip.ParsesWellFormed(u, text);
    var c := Parsed(u, text).value;
    match c
    case And(terms) => TermsHold(u, terms);
    case Comparison(l, _, r) =>
      TermHolds(u, c);
      assert Comparisons(c) == [c] && [c][1..] == [];
      assert TermLiterals([c]) == ValueLiterals(l) + ValueLiterals(r) + TermLiterals([]);
    case _ =>
  }

  lemma {:induction false} TextsHold(u: CharClass, texts: seq<string>)
    ensures forall r :: r in TextRefs(u, texts) ==> IsReference(u, r)
    ensures forall n :: n in TextLiterals(u, texts) ==> n >= 0
  {
    hide IsReference, Parsed, References, Literals;
    if texts != [] {
      TextsHold(u, texts[1..]);
      if Parsed(u, texts[0]).Some? {
        ParsedHolds(u, texts[0]);
      }
    }
  }

  lemma {:induction false} OpsHold(u: CharClass, ops: seq<Op>)
    ensures forall r :: r in FieldNames(u, ops) ==> IsReference(u, r)
    ensures forall n :: n in AllLiterals(u, ops) ==> n >= 0
  {
    hide IsReference, TextRefs, TextLiterals, OpConditions;
    if ops != [] {
      OpsHold(u, ops[1..]);
      TextsHold(u, OpConditions(ops[0]));
    }
  }

  // ---- Spellings -----------------------------------------------------------------------

  function AltSteps(ops: seq<Op>): set<nat> {
    set k | 0 <= k < |ops| && AltOp(ops[k]) :: ops[k].index
  }

  lemma OpNamesNumbered(ops: seq<Op>, x: Name)
    requires FirstOps(ops, |ops|)(x) && forall j :: 0 <= j < |ops| ==> ops[j].index == j + 1
    ensures Indexed(x, AltSteps(ops)) && Wellformed(x) && SlotGiven(x) && !x.Field?
  {
    var j :| 0 <= j < |ops| && Belongs(x, ops[j].index, AltOp(ops[j]));
    if ops[j].index in AltSteps(ops) {
      var k :| 0 <= k < |ops| && AltOp(ops[k]) && ops[k].index == ops[j].index;
      assert k == j;
    } else {
      assert !AltOp(ops[j]);
    }
  }

  /** The names the emitter makes up for a module: the skip flag and what the code defines. */
  function MadeUp(u: CharClass, stream: Stream, values: seq<int>): set<Name> {
    {Skip} + Defs(ModuleOf(u, stream, values).code)
  }

  /** Every name of the emitted function, parameters included. */
  function AllNames(u: CharClass, fields: set<string>, stream: Stream, values: seq<int>): set<Name> {
    Params(fields) + MadeUp(u, stream, values)
  }

  lemma MadeUpName(u: CharClass, fields: set<string>, stream: Stream, values: seq<int>, x: Name)
    requires Renders(u, fields, stream, values) && x in MadeUp(u, stream, values)
    ensures !x.Field? && Indexed(x, AltSteps(stream.ops)) && Wellformed(x) && SlotGiven(x)
  {
    hide FieldNames, AllLiterals, Defs, ModuleOf, AltSteps, Indexed, NeedsTrue, FirstOps;
    ModuleIsSsa(u, fields, stream, values);
    OpsHold(u, stream.ops);
    if x == Skip {
      SkipNumbered(AltSteps(stream.ops));
    } else if FirstOps(stream.ops, |stream.ops|)(x) {
      OpNamesNumbered(stream.ops, x);
    } else {
      PreludeNumbered(values, NeedsTrue(u, stream.ops), x, AltSteps(stream.ops));
    }
  }

  lemma PreludeNumbered(values: seq<int>, needsTrue: bool, x: Name, alternatives: set<nat>)
    requires x in PreludeNames(values, needsTrue) && forall v :: v in values ==> v >= 0
    ensures !x.Field? && Indexed(x, alternatives) && Wellformed(x) && SlotGiven(x)
  {
  }

  lemma SkipNumbered(alternatives: set<nat>)
    ensures Indexed(Skip, alternatives) && Wellformed(Skip) && SlotGiven(Skip)
  {
  }

  /** No two of the names are spelled alike. */
  ghost predicate Apart(names: set<Name>) {
    forall x, y :: x in names && y in names && Spell(x) == Spell(y) ==> x == y
  }

  /** A bare condition field is spelled like a name the emitter makes up for this module. */
  ghost predicate Collides(u: CharClass, fields: set<string>, stream: Stream, values: seq<int>) {
    exists r, x :: r in fields && !Qualified(r) && x in MadeUp(u, stream, values) && Spell(x) == r
  }

  lemma BareIsItself(u: CharClass, r: string)
    requires u.Sane() && IsReference(u, r) && !Qualified(r)
    ensures FieldIdent(r) == r
  {
    FieldSpelling(u, r);
    assert FieldParts(r) == [r];
  }

  lemma ApartFromField(u: CharClass, fields: set<string>, stream: Stream, values: seq<int>, r: string, x: Name)
    requires u.Sane() && Renders(u, fields, stream, values) && !Collides(u, fields, stream, values)
    requires r in fields && IsReference(u, r) && x in MadeUp(u, stream, values)
    ensures Spell(x) != FieldIdent(r)
  {
    hide FieldNames, AllLiterals, MadeUp, Indexed, Wellformed, SlotGiven, IsReference, CharClass.Sane, FieldIdent,
         Spell, Renders;
    MadeUpName(u, fields, stream, values, x);
    if Qualified(r) {
      QualifiedNeverCollides(u, r, x);
    } else {
      BareIsItself(u, r);
    }
  }

  lemma InNames(u: CharClass, fields: set<string>, stream: Stream, values: seq<int>, x: Name)
    ensures x in AllNames(u, fields, stream, values)
       <==> x in MadeUp(u, stream, values) || (x.Field? && x.ref in fields)
  {
    hide ModuleOf, Defs;
  }

  lemma PairApart(u: CharClass, fields: set<string>, stream: Stream, values: seq<int>, x: Name, y: Name)
    requires u.Sane() && Renders(u, fields, stream, values) && !Collides(u, fields, stream, values)
    requires forall r :: r in fields ==> IsReference(u, r)
    requires x in AllNames(u, fields, stream, values) && y in AllNames(u, fields, stream, values)
             && Spell(x) == Spell(y)
    ensures x == y
  {
    hide FieldNames, AllLiterals, AllNames, MadeUp, AltSteps, Indexed, Wellformed, SlotGiven, KeyOf, IsReference,
         CharClass.Sane, FieldIdent, Renders, Collides;
    InNames(u, fields, stream, values, x);
    InNames(u, fields, stream, values, y);
    if x in MadeUp(u, stream, values) && y in MadeUp(u, stream, values) {
      MadeUpName(u, fields, stream, values, x);
      MadeUpName(u, fields, stream, values, y);
      SpellingInjective(x, y, AltSteps(stream.ops));
    } else if x in MadeUp(u, stream, values) {
      ApartFromField(u, fields, stream, values, y.ref, x);
    } else if y in MadeUp(u, stream, values) {
      ApartFromField(u, fields, stream, values, x.ref, y);
    } else {
      FieldIdentInjective(u, x.ref, y.ref);
    }
  }

  /** Two names of the emitted function are spelled alike if and only if a bare condition field is
      spelled like a name that this very function defines or takes. */
  lemma ApartExactly(u: CharClass, fields: set<string>, stream: Stream, values: seq<int>)
    requires u.Sane() && Renders(u, fields, stream, values) && forall r :: r in fields ==> IsReference(u, r)
    ensures Apart(AllNames(u, fields, stream, values)) <==> !Collides(u, fields, stream, values)
  {
    hide FieldNames, AllLiterals, AllNames, MadeUp, Indexed, Wellformed, SlotGiven, KeyOf, IsReference, CharClass.Sane,
         FieldIdent, Renders;
    if Collides(u, fields, stream, values) {
      var r, x :| r in fields && !Qualified(r) && x in MadeUp(u, stream, values) && Spell(x) == r;
      MadeUpName(u, fields, stream, values, x);
      BareIsItself(u, r);
      InNames(u, fields, stream, values, x);
      InNames(u, fields, stream, values, Field(r));
    } else {
      hide Collides;
      forall x, y | x in AllNames(u, fields, stream, values) && y in AllNames(u, fields, stream, values)
          && Spell(x) == Spell(y)
        ensures x == y
      {
        PairApart(u, fields, stream, values, x, y);
      }
    }
  }

  /** When every condition field is qualified nothing collides. */
  lemma QualifiedIsApart(u: CharClass, fields: set<string>, stream: Stream, values: seq<int>)
    requires u.Sane() && Renders(u, fields, stream, values)
    requires forall r :: r in fields ==> IsReference(u, r) && Qualified(r)
    ensures Apart(AllNames(u, fields, stream, values))
  {
    hide FieldNames, AllLiterals, AllNames, MadeUp, Apart, Renders, CharClass.Sane;
    ApartExactly(u, fields, stream, values);
  }

  // ---- The parameters of a plan --------------------------------------------------------

  /** `condition_field_names`: what the guards of the whole plan refer to. */
  function PlanFields(u: CharClass, flats: seq<Flat>): set<string> {
    FieldNames(u, Numbered(flats, |flats|))
  }

  lemma {:induction false} FieldsOfGuards(u: CharClass, ops: seq<Op>, r: string)
    ensures r in FieldNames(u, ops) <==> exists k :: 0 <= k < |ops| && r in TextRefs(u, OpConditions(ops[k]))
  {
    hide TextRefs, OpConditions;
    if ops != [] {
      FieldsOfGuards(u, ops[1..], r);
      if r in FieldNames(u, ops[1..]) {
        var k :| 0 <= k < |ops| - 1 && r in TextRefs(u, OpConditions(ops[1..][k]));
        assert ops[k + 1] == ops[1..][k];
      }
      if k :| 0 <= k < |ops| && r in TextRefs(u, OpConditions(ops[k])) {
        assert k > 0 ==> ops[1..][k - 1] == ops[k];
      }
    }
  }

  /** The compiled stream of a plan renders over the plan's fields, whatever its deadline cuts off. */
  lemma StreamRenders(u: CharClass, flats: seq<Flat>, seeded: Attempts.Store, cfg: Attempts.Config, values: seq<int>)
    requires var stream := StreamOf(flats, seeded, cfg);
             Ascending(values) && forall v :: v in values <==> v in AllLiterals(u, stream.ops)
    ensures Renders(u, PlanFields(u, flats), StreamOf(flats, seeded, cfg), values)
  {
    hide FirstFailure, StaticAttempts, RoundOf, Times, FieldNames, AllLiterals, TextRefs;
    var stream := StreamOf(flats, seeded, cfg);
    forall r | r in FieldNames(u, stream.ops) ensures r in PlanFields(u, flats) {
      FieldsOfGuards(u, stream.ops, r);
      FieldsOfGuards(u, Numbered(flats, |flats|), r);
      var k :| 0 <= k < |stream.ops| && r in TextRefs(u, OpConditions(stream.ops[k]));
      assert OpConditions(stream.ops[k]) == OpConditions(Numbered(flats, |flats|)[k]);
    }
  }

  // ---- A guard that takes a made-up name -----------------------------------------------

  /** `word > 3`, as a guard is written. */
  function WordGuard(word: string): Guard {
    Guard(When, ConditionText(Comparison(Ref(word), Gt, Lit(3, false))), [])
  }

  lemma SkipIsReference(u: CharClass)
    requires u.Sane()
    ensures IsReference(u, "skip") && !Qualified("skip")
  {
    assert DotAt("skip") == |"skip"|;
    assert "skip"[..4] == "skip";
  }

  lemma OneGuardFields(u: CharClass, step: Step, g: Guard)
    ensures PlanFields(u, [Flat(step, Some(g))]) == TextRefs(u, [g.condition] + g.alternatives)
  {
    hide TextRefs, RoundOf;
    var flats := [Flat(step, Some(g))];
    var ops := Numbered(flats, 1);
    assert ops == [OpOf(flats, 0)] && ops[1..] == [];
    assert FieldNames(u, ops) == TextRefs(u, OpConditions(ops[0])) + FieldNames(u, []);
  }

  lemma RefsOfText(u: CharClass, text: string, c: Condition)
    requires Parsed(u, text) == Some(c)
    ensures TextRefs(u, [text]) == set r | r in References(c)
  {
    hide Parsed, References;
    assert [text][1..] == [];
  }

  lemma WordIsField(u: CharClass, step: Step, word: string)
    requires u.Sane() && IsReference(u, word)
    ensures word in PlanFields(u, [Flat(step, Some(WordGuard(word)))])
  {
    var c := Comparison(Ref(word), Gt, Lit(3, false));
    hide CharClass.Sane, IsReference, ConditionText, ParseCondition, PlanFields, TextRefs;
    ConditionRoundTrip.ConditionRoundTrip(u, c);
    OneGuardFields(u, step, WordGuard(word));
    RefsOfText(u, ConditionText(c), c);
    assert [ConditionText(c)] + [] == [ConditionText(c)];
    assert References(c)[0] == word;
  }

  /** A bare field that is spelled like a made-up name collides. */
  lemma FieldIsTaken(u: CharClass, fields: set<string>, stream: Stream, values: seq<int>, r: string, x: Name)
    requires u.Sane() && r in fields && IsReference(u, r) && !Qualified(r) && x in MadeUp(u, stream, values)
             && !x.Field?
    requires Spell(x) == r
    ensures Collides(u, fields, stream, values) && !Apart(AllNames(u, fields, stream, values))
  {
    BareIsItself(u, r);
    hide CharClass.Sane, IsReference, MadeUp, AllNames, FieldIdent;
    InNames(u, fields, stream, values, x);
    InNames(u, fields, stream, values, Field(r));
    assert Spell(Field(r)) == FieldIdent(r);
  }

  lemma SkipSpelled()
    ensures Spell(Skip) == "skip"
  {
    assert KeyOf(Skip) == Key("skip", "", []);
    LonePart("skip");
  }

  /** The guard `skip > 3` makes the function take a parameter of the skip flag's name. */
  lemma SkipGuardCollides(u: CharClass, step: Step, stream: Stream, values: seq<int>)
    requires u.Sane()
    ensures var fields := PlanFields(u, [Flat(step, Some(WordGuard("skip")))]);
            Collides(u, fields, stream, values) && !Apart(AllNames(u, fields, stream, values))
  {
    SkipIsReference(u);
    WordIsField(u, step, "skip");
    SkipSpelled();
    hide CharClass.Sane, IsReference, ModuleOf, Defs, PlanFields, Spell, Collides, Apart;
    FieldIsTaken(u, PlanFields(u, [Flat(step, Some(WordGuard("skip")))]), stream, values, "skip", Skip);
  }
}
