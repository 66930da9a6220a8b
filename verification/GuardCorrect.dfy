/** Guard compilation preserves meaning: running the emitted instructions computes what the
    interpreter's evaluation says, and never divides by zero whatever the inputs. The one way it can
    stop is a quotient that does not fit 64 bits, and the inputs that lead there are exactly those an
    evaluated division meets it at. */
module GuardCorrect {
  import opened Wrappers
  import opened Text
  import opened Conditions
  import opened Evaluation
  import opened Machine
  import opened GuardEmit

  type Env = map<Name, Val>

  // What the 64-bit code computes: a word, or the one quotient that does not fit.
  datatype Compiled = Word(n: int) | Overflows

  function CompiledArith(op: ArithOp, a: int, b: int): Compiled {
    match op
    case Add => Word(Wrap(a + b))
    case Sub => Word(Wrap(a - b))
    case Mul => Word(Wrap(a * b))
    case Div =>
      var divisor := if b == 0 then 1 else b;
      if a == INT64_MIN && divisor == -1 then Overflows else Word(Wrap(Quotient(a, divisor)))
  }

  /** The meaning of a compiled value over arbitrary 64-bit words for its references; a parameter
      nobody supplies is 0. */
  function CompiledValue(v: Value, words: Scope): Compiled {
    match v
    case Ref(name) => Word(if name in words then words[name] else 0)
    case Lit(n, _) => Word(n)
    case Arith(l, op, r) =>
      var a := CompiledValue(l, words);
      if a.Overflows? then Overflows
      else
        var b := CompiledValue(r, words);
        if b.Overflows? then Overflows else CompiledArith(op, a.n, b.n)
  }

  /** Every reference of the value resolves to a 64-bit word. */
  predicate Covers(v: Value, words: Scope) {
    match v
    case Ref(name) => name in words && InInt64(words[name])
    case Lit(_, _) => true
    case Arith(l, _, r) => Covers(l, words) && Covers(r, words)
  }

  /** Where the interpreter gets a number, the compiled code gets the same number. */
  lemma {:induction false} CompiledAgrees(v: Value, words: Scope)
    requires Covers(v, words) && EvalValue(v, words).Number?
    ensures CompiledValue(v, words) == Word(EvalValue(v, words).n)
  {
    match v
    case Arith(l, op, r) =>
      CompiledAgrees(l, words);
      CompiledAgrees(r, words);
    case _ =>
  }

  // ---- Running an operand --------------------------------------------------------------

  predicate DeclaresConst(env: Env, n: int) {
    LitConst(n) in env && env[LitConst(n)] == I64(n)
  }

  /** The parameters hold the words and the constants a value needs are declared. */
  predicate DeclaresValue(env: Env, v: Value, words: Scope) {
    match v
    case Ref(name) => name in words && Field(name) in env && env[Field(name)] == I64(words[name])
    case Lit(n, _) => DeclaresConst(env, n)
    case Arith(l, op, r) =>
      && DeclaresValue(env, l, words) && DeclaresValue(env, r, words)
      && (op == Div ==> DeclaresConst(env, 0) && DeclaresConst(env, 1))
  }

  /** Nothing is lost but names the emitter makes up for a guard. */
  predicate KeepsInputs(env: Env, after: Env) {
    forall x :: x in env && (x.Field? || x.LitConst?) ==> x in after && after[x] == env[x]
  }

  lemma {:induction false} DeclaredStays(env: Env, after: Env, v: Value, words: Scope)
    requires DeclaresValue(env, v, words) && KeepsInputs(env, after)
    ensures DeclaresValue(after, v, words)
  {
    match v
    case Ref(name) => assert Field(name).Field?;
    case Lit(n, _) => assert LitConst(n).LitConst?;
    case Arith(l, op, r) =>
      DeclaredStays(env, after, l, words);
      DeclaredStays(env, after, r, words);
      assert LitConst(0).LitConst? && LitConst(1).LitConst?;
  }

  /** The names the code of the operand at `slot` may define. */
  predicate Owned(x: Name, idx: Idx, slot: string) {
    match x
    case Tmp(i, s) => i == idx && slot <= s
    case IsZero(i, s) => i == idx && slot <= s
    case SafeRight(i, s) => i == idx && slot <= s
    case _ => false
  }

  predicate KeepsOthers(env: Env, after: Env, idx: Idx, slot: string) {
    forall x :: x in env && !Owned(x, idx, slot) ==> x in after && after[x] == env[x]
  }

  lemma OwnedBelow(x: Name, idx: Idx, slot: string, longer: string)
    requires slot <= longer && Owned(x, idx, longer)
    ensures Owned(x, idx, slot)
  {
  }

  /** Running `code` leaves word `c` in `name`, or stops on the quotient that does not fit. */
  predicate Computes(code: Code, globals: seq<string>, env: Env, out: seq<string>, c: Compiled, name: Name,
                     after: Env) {
    && Exec(code, globals, Running(env, out)) == (if c.Word? then Running(after, out) else QuotientOverflow)
    && (c.Word? ==> name in after && after[name] == I64(c.n))
  }

  lemma DivisionRuns(env: Env, out: seq<string>, globals: seq<string>, left: Name, right: Name, idx: Idx, slot: string)
    returns (after: Env)
    requires HasI64(env, left) && HasI64(env, right)
    requires left != IsZero(idx, slot) && left != SafeRight(idx, slot) && right != IsZero(idx, slot)
    requires DeclaresConst(env, 0) && DeclaresConst(env, 1)
    ensures Computes(DivisionCode(left, right, idx, slot), globals, env, out,
                     CompiledArith(Div, env[left].n, env[right].n), Tmp(idx, slot), after)
    ensures KeepsOthers(env, after, idx, slot)
  {
    var e2 := SafeDivisor(env, out, globals, right, idx, slot);
    var divide := Do(Binary(Tmp(idx, slot), Div, left, SafeRight(idx, slot)));
    ExecConcat(DivisionCode(left, right, idx, slot)[..2], [divide], globals, Running(env, out));
    assert DivisionCode(left, right, idx, slot) == DivisionCode(left, right, idx, slot)[..2] + [divide];
    ExecOne(divide, globals, Running(e2, out));
    after := DivideRuns(env[left].n, e2[SafeRight(idx, slot)].n, left, SafeRight(idx, slot), Tmp(idx, slot), e2, out,
                        globals);
  }

  lemma SafeDivisor(env: Env, out: seq<string>, globals: seq<string>, right: Name, idx: Idx, slot: string)
    returns (after: Env)
    requires HasI64(env, right) && right != IsZero(idx, slot)
    requires DeclaresConst(env, 0) && DeclaresConst(env, 1)
    ensures forall left ::
              Exec(DivisionCode(left, right, idx, slot)[..2], globals, Running(env, out)) == Running(after, out)
    ensures after == env[IsZero(idx, slot) := Bit(env[right].n == 0)]
                        [SafeRight(idx, slot) := I64(if env[right].n == 0 then 1 else env[right].n)]
  {
    var b := env[right].n;
    var isZero := Do(CompareI(IsZero(idx, slot), Eq, right, LitConst(0)));
    var select := Do(Select(SafeRight(idx, slot), IsZero(idx, slot), LitConst(1), right));
    var e1 := env[IsZero(idx, slot) := Bit(b == 0)];
    after := e1[SafeRight(idx, slot) := I64(if b == 0 then 1 else b)];
    assert forall left :: DivisionCode(left, right, idx, slot)[..2] == [isZero] + [select];
    ExecConcat([isZero], [select], globals, Running(env, out));
    ExecOne(isZero, globals, Running(env, out));
    ExecOne(select, globals, Running(e1, out));
  }

  lemma DivideRuns(a: int, divisor: int, l: Name, r: Name, d: Name, env: Env, out: seq<string>, globals: seq<string>)
    returns (after: Env)
    requires divisor != 0 && l in env && env[l] == I64(a) && r in env && env[r] == I64(divisor)
    ensures ExecLine(Do(Binary(d, Div, l, r)), globals, Running(env, out))
         == if a == INT64_MIN && divisor == -1 then QuotientOverflow else Running(after, out)
    ensures after == if a == INT64_MIN && divisor == -1 then env else env[d := I64(Wrap(Quotient(a, divisor)))]
  {
    after := if a == INT64_MIN && divisor == -1 then env else env[d := I64(Wrap(Quotient(a, divisor)))];
  }

  lemma LastRuns(env: Env, out: seq<string>, globals: seq<string>, op: ArithOp, ln: Name, rn: Name, idx: Idx,
                 slot: string)
    returns (after: Env)
    requires HasI64(env, ln) && HasI64(env, rn)
    requires ln != IsZero(idx, slot) && ln != SafeRight(idx, slot) && rn != IsZero(idx, slot)
    requires op == Div ==> DeclaresConst(env, 0) && DeclaresConst(env, 1)
    ensures Computes(LastCode(op, ln, rn, idx, slot), globals, env, out,
                     CompiledArith(op, env[ln].n, env[rn].n), Tmp(idx, slot), after)
    ensures KeepsOthers(env, after, idx, slot)
  {
    if op == Div {
      after := DivisionRuns(env, out, globals, ln, rn, idx, slot);
    } else {
      ExecOne(Do(Binary(Tmp(idx, slot), op, ln, rn)), globals, Running(env, out));
      after := env[Tmp(idx, slot) := I64(CompiledArith(op, env[ln].n, env[rn].n).n)];
    }
  }

  /** The code of a value computes its compiled meaning, for all inputs, and touches only its
      own names. In particular it never divides by zero. */
  lemma {:induction false} OperandRuns(v: Value, idx: Idx, slot: string, words: Scope,
                                       env: Env, out: seq<string>, globals: seq<string>)
    returns (after: Env)
    requires DeclaresValue(env, v, words)
    ensures Computes(OperandCode(v, idx, slot), globals, env, out, CompiledValue(v, words), OperandName(v, idx, slot),
                     after)
    ensures KeepsOthers(env, after, idx, slot)
    decreases v, 1
  {
    after := env;
    if v.Arith? {
      after := ArithRuns(v.left, v.op, v.right, idx, slot, words, env, out, globals);
    }
  }

  lemma {:induction false} ArithRuns(l: Value, op: ArithOp, r: Value, idx: Idx, slot: string, words: Scope,
                                     env: Env, out: seq<string>, globals: seq<string>)
    returns (after: Env)
    requires DeclaresValue(env, Arith(l, op, r), words)
    ensures Computes(OperandCode(Arith(l, op, r), idx, slot), globals, env, out,
                     CompiledValue(Arith(l, op, r), words), Tmp(idx, slot), after)
    ensures KeepsOthers(env, after, idx, slot)
    decreases Arith(l, op, r), 0
  {
    var v := Arith(l, op, r);
    var ls, rs := slot + "l", slot + "r";
    var lc, rc := OperandCode(l, idx, ls), OperandCode(r, idx, rs);
    var ln, rn := OperandName(l, idx, ls), OperandName(r, idx, rs);
    var last := LastCode(op, ln, rn, idx, slot);
    ExecConcat(lc + rc, last, globals, Running(env, out));
    ExecConcat(lc, rc, globals, Running(env, out));
    var e1 := OperandRuns(l, idx, ls, words, env, out, globals);
    WidenKeeps(env, e1, idx, slot, ls);
    after := e1;
    if CompiledValue(l, words).Overflows? {
      ExecHalted(rc, globals, QuotientOverflow);
      ExecHalted(last, globals, QuotientOverflow);
      return;
    }
    DeclaredStays(env, e1, v, words);
    var e2 := OperandRuns(r, idx, rs, words, e1, out, globals);
    WidenKeeps(e1, e2, idx, slot, rs);
    after := e2;
    if CompiledValue(r, words).Overflows? {
      ExecHalted(last, globals, QuotientOverflow);
      return;
    }
    NotBothSides(slot);
    assert !Owned(ln, idx, rs);
    DeclaredStays(e1, e2, v, words);
    SlotIsNotLonger(slot);
    after := LastRuns(e2, out, globals, op, ln, rn, idx, slot);
  }

  lemma NotBothSides(slot: string)
    ensures !(slot + "r" <= slot + "l")
  {
    assert (slot + "r")[|slot|] == 'r' && (slot + "l")[|slot|] == 'l';
  }

  lemma SlotIsNotLonger(slot: string)
    ensures slot != slot + "l" && slot != slot + "r"
  {
    assert |slot + "l"| == |slot| + 1 && |slot + "r"| == |slot| + 1;
  }

  lemma WidenKeeps(env: Env, after: Env, idx: Idx, slot: string, longer: string)
    requires KeepsOthers(env, after, idx, longer) && slot <= longer
    ensures KeepsOthers(env, after, idx, slot)
  {
    forall x | x in env && !Owned(x, idx, slot) ensures x in after && after[x] == env[x] {
      if Owned(x, idx, longer) { OwnedBelow(x, idx, slot, longer); }
    }
  }

  // ---- Running a condition -------------------------------------------------------------

  datatype CompiledVerdict = Truth(b: bool) | Halts

  predicate TermsCovered(terms: seq<Condition>, words: Scope) {
    forall k :: 0 <= k < |terms| ==>
      terms[k].Comparison? && Covers(terms[k].left, words) && Covers(terms[k].right, words)
  }

  function CompiledComparison(l: Value, op: Comparator, r: Value, words: Scope): CompiledVerdict {
    var a, b := CompiledValue(l, words), CompiledValue(r, words);
    if a.Overflows? || b.Overflows? then Halts else Truth(Compare(op, a.n, b.n))
  }

  function CompiledTerm(t: Condition, words: Scope): CompiledVerdict {
    if t.Comparison? then CompiledComparison(t.left, t.op, t.right, words) else Halts
  }

  /** The truth values of the first `k` terms, or `None` when one of them stops the machine. */
  function Bits(terms: seq<Condition>, k: nat, words: Scope): (o: Option<seq<bool>>)
    requires k <= |terms|
    ensures o.Some? ==> |o.value| == k
  {
    if k == 0 then Some([])
    else
      var init := Bits(terms, k - 1, words);
      if init.None? then None
      else
        var last := CompiledTerm(terms[k - 1], words);
        if last.Halts? then None else Some(init.value + [last.b])
  }

  predicate AllOf(bits: seq<bool>, k: nat)
    requires k <= |bits|
    ensures AllOf(bits, k) <==> forall n :: 0 <= n < k ==> bits[n]
  {
    k == 0 || (AllOf(bits, k - 1) && bits[k - 1])
  }

  predicate DeclaresTerms(env: Env, terms: seq<Condition>, k: nat, words: Scope)
    requires k <= |terms|
  {
    k == 0 || (
      && DeclaresTerms(env, terms, k - 1, words)
      && terms[k - 1].Comparison?
      && DeclaresValue(env, terms[k - 1].left, words) && DeclaresValue(env, terms[k - 1].right, words))
  }

  predicate Scratch(x: Name, idx: Idx) {
    (x.Tmp? || x.IsZero? || x.SafeRight?) && x.idx == idx
  }

  /** The names a guard's code may define. */
  predicate GuardOwned(x: Name, idx: Idx) {
    || Scratch(x, idx)
    || ((x.Cond? || x.UntilCond? || x.TermCond? || x.AndFold?) && x.idx == idx)
  }

  predicate KeepsNames(env: Env, after: Env, idx: Idx) {
    forall x :: x in env && !GuardOwned(x, idx) ==> x in after && after[x] == env[x]
  }

  predicate KeepsBut(env: Env, after: Env, idx: Idx, d: Name) {
    forall x :: x in env && !Scratch(x, idx) && x != d ==> x in after && after[x] == env[x]
  }

  lemma {:induction false} TermsStayDeclared(env: Env, after: Env, terms: seq<Condition>, k: nat, words: Scope)
    requires k <= |terms| && DeclaresTerms(env, terms, k, words) && KeepsInputs(env, after)
    ensures DeclaresTerms(after, terms, k, words)
  {
    if k > 0 {
      TermsStayDeclared(env, after, terms, k - 1, words);
      DeclaredStays(env, after, terms[k - 1].left, words);
      DeclaredStays(env, after, terms[k - 1].right, words);
    }
  }

  /** Running `code` leaves the truth value in `name`, or stops. */
  predicate Decides(code: Code, globals: seq<string>, env: Env, out: seq<string>, c: CompiledVerdict, name: Name,
                    after: Env) {
    && Exec(code, globals, Running(env, out)) == (if c.Truth? then Running(after, out) else QuotientOverflow)
    && (c.Truth? ==> name in after && after[name] == Bit(c.b))
  }

  lemma TermRuns(t: Condition, pred: Comparator, idx: Idx, n: nat, d: Name, words: Scope,
                 env: Env, out: seq<string>, globals: seq<string>)
    returns (after: Env)
    requires t.Comparison? && GuardOwned(d, idx) && !Scratch(d, idx)
    requires DeclaresValue(env, t.left, words) && DeclaresValue(env, t.right, words)
    ensures Decides(TermCode(t, pred, idx, n, d), globals, env, out,
                    CompiledComparison(t.left, pred, t.right, words), d, after)
    ensures KeepsBut(env, after, idx, d)
  {
    var lc, rc := OperandCode(t.left, idx, LeftSlot(n)), OperandCode(t.right, idx, RightSlot(n));
    var ln, rn := OperandName(t.left, idx, LeftSlot(n)), OperandName(t.right, idx, RightSlot(n));
    var last := [Do(CompareI(d, pred, ln, rn))];
    ExecConcat(lc + rc, last, globals, Running(env, out));
    ExecConcat(lc, rc, globals, Running(env, out));
    var e1 := OperandRuns(t.left, idx, LeftSlot(n), words, env, out, globals);
    after := e1;
    if CompiledValue(t.left, words).Overflows? {
      ExecHalted(rc, globals, QuotientOverflow);
      ExecHalted(last, globals, QuotientOverflow);
      return;
    }
    DeclaredStays(env, e1, t.right, words);
    var e2 := OperandRuns(t.right, idx, RightSlot(n), words, e1, out, globals);
    after := e2;
    if CompiledValue(t.right, words).Overflows? {
      ExecHalted(last, globals, QuotientOverflow);
      return;
    }
    assert !(RightSlot(n) <= LeftSlot(n)) by {
      assert RightSlot(n)[|Decimal(n)|] == 'r' && LeftSlot(n)[|Decimal(n)|] == 'l';
    }
    assert !Owned(ln, idx, RightSlot(n));
    ExecOne(last[0], globals, Running(e2, out));
    after := e2[d := Bit(Compare(pred, CompiledValue(t.left, words).n, CompiledValue(t.right, words).n))];
  }

  predicate HoldsBits(env: Env, idx: Idx, bits: seq<bool>) {
    forall n :: 0 <= n < |bits| ==> TermCond(idx, n) in env && env[TermCond(idx, n)] == Bit(bits[n])
  }

  /** The first `k` terms of a conjunction leave their truth values in their own names. */
  lemma {:induction false} TermsRun(terms: seq<Condition>, k: nat, idx: Idx, words: Scope,
                                    env: Env, out: seq<string>, globals: seq<string>)
    returns (after: Env)
    requires k <= |terms| && (forall n :: 0 <= n < |terms| ==> terms[n].Comparison?)
             && DeclaresTerms(env, terms, k, words)
    ensures Exec(TermsCode(terms, idx, k), globals, Running(env, out))
         == if Bits(terms, k, words).Some? then Running(after, out) else QuotientOverflow
    ensures Bits(terms, k, words).Some? ==> HoldsBits(after, idx, Bits(terms, k, words).value)
    ensures KeepsNames(env, after, idx)
  {
    after := env;
    if k > 0 {
      var t := terms[k - 1];
      var code := TermCode(t, t.op, idx, k - 1, TermCond(idx, k - 1));
      ExecConcat(TermsCode(terms, idx, k - 1), code, globals, Running(env, out));
      var e1 := TermsRun(terms, k - 1, idx, words, env, out, globals);
      after := e1;
      if Bits(terms, k - 1, words).None? {
        ExecHalted(code, globals, QuotientOverflow);
      } else {
        TermsStayDeclared(env, e1, terms, k, words);
        after := LastTermRuns(terms, k, idx, words, e1, out, globals);
        KeepsBoth(env, e1, after, idx, TermCond(idx, k - 1));
      }
    }
  }

  lemma LastTermRuns(terms: seq<Condition>, k: nat, idx: Idx, words: Scope, env: Env, out: seq<string>,
                     globals: seq<string>)
    returns (after: Env)
    requires 0 < k <= |terms| && DeclaresTerms(env, terms, k, words)
    requires Bits(terms, k - 1, words).Some? && HoldsBits(env, idx, Bits(terms, k - 1, words).value)
    ensures Exec(TermCode(terms[k - 1], terms[k - 1].op, idx, k - 1, TermCond(idx, k - 1)), globals, Running(env, out))
         == if Bits(terms, k, words).Some? then Running(after, out) else QuotientOverflow
    ensures Bits(terms, k, words).Some? ==> HoldsBits(after, idx, Bits(terms, k, words).value)
    ensures KeepsBut(env, after, idx, TermCond(idx, k - 1))
  {
    var t := terms[k - 1];
    after := TermRuns(t, t.op, idx, k - 1, TermCond(idx, k - 1), words, env, out, globals);
    if CompiledTerm(t, words).Truth? {
      BitsExtend(env, after, idx, Bits(terms, k - 1, words).value, CompiledTerm(t, words).b);
    }
  }

  lemma BitsExtend(env: Env, after: Env, idx: Idx, bits: seq<bool>, b: bool)
    requires HoldsBits(env, idx, bits) && KeepsBut(env, after, idx, TermCond(idx, |bits|))
    requires TermCond(idx, |bits|) in after && after[TermCond(idx, |bits|)] == Bit(b)
    ensures HoldsBits(after, idx, bits + [b])
  {
  }

  lemma KeepsBoth(env: Env, e1: Env, after: Env, idx: Idx, d: Name)
    requires KeepsNames(env, e1, idx) && KeepsBut(e1, after, idx, d) && GuardOwned(d, idx)
    ensures KeepsNames(env, after, idx)
  {
  }

  lemma {:induction false} FoldRuns(bits: seq<bool>, k: nat, idx: Idx, env: Env, out: seq<string>, globals: seq<string>)
    returns (after: Env)
    requires 0 < k <= |bits| && HoldsBits(env, idx, bits)
    ensures Decides(FoldCode(idx, k), globals, env, out, Truth(AllOf(bits, k)), FoldName(idx, k - 1), after)
    ensures KeepsNames(env, after, idx) && HoldsBits(after, idx, bits)
  {
    if k == 1 {
      after := env;
    } else {
      var line := Do(Logic(AndFold(idx, k - 1), AndI, FoldName(idx, k - 2), TermCond(idx, k - 1)));
      var e1 := FoldRuns(bits, k - 1, idx, env, out, globals);
      ExecConcat(FoldCode(idx, k - 1), [line], globals, Running(env, out));
      ExecOne(line, globals, Running(e1, out));
      after := e1[AndFold(idx, k - 1) := Bit(AllOf(bits, k))];
    }
  }

  /** What the compiled condition computes over arbitrary words: the conjunction, negated for
      `until`. */
  function CompiledCondition(c: Condition, words: Scope, negate: bool): CompiledVerdict {
    CompiledConjunction(Comparisons(c), words, negate)
  }

  function CompiledConjunction(terms: seq<Condition>, words: Scope, negate: bool): CompiledVerdict {
    var bits := Bits(terms, |terms|, words);
    if bits.Some? then Truth(AllOf(bits.value, |terms|) != negate) else Halts
  }

  predicate ConditionDeclared(env: Env, c: Condition, words: Scope, negate: bool) {
    && DeclaresTerms(env, Comparisons(c), |Comparisons(c)|, words)
    && (negate && |Comparisons(c)| > 1 ==> TrueI1 in env && env[TrueI1] == Bit(true))
  }

  lemma NegatedCompare(op: Comparator, a: int, b: int)
    ensures Compare(Negated(op), a, b) == !Compare(op, a, b)
  {
  }

  /** The code of a condition with an evaluator leaves its truth value (its negation for
      `until`) in the returned name, for all inputs; the only input it does not survive is the
      quotient that does not fit 64 bits. */
  lemma ConditionRuns(c: Condition, idx: Idx, negate: bool, words: Scope, env: Env, out: seq<string>,
                      globals: seq<string>)
    returns (after: Env)
    requires Comparisons(c) != [] && ConditionDeclared(env, c, words, negate)
    ensures Decides(ConditionCode(c, idx, negate), globals, env, out, CompiledCondition(c, words, negate),
                    ConditionName(c, idx, negate).value, after)
    ensures KeepsNames(env, after, idx)
  {
    var terms := Comparisons(c);
    if |terms| == 1 {
      var t := terms[0];
      var pred := if negate then Negated(t.op) else t.op;
      after := TermRuns(t, pred, idx, 0, SingleName(idx, negate), words, env, out, globals);
      assert Bits(terms, 0, words) == Some([]);
      if CompiledTerm(t, words).Truth? {
        NegatedCompare(t.op, CompiledValue(t.left, words).n, CompiledValue(t.right, words).n);
      }
    } else {
      after := ConjunctionRuns(terms, idx, negate, words, env, out, globals);
    }
  }

  function NegateCode(idx: Idx, k: nat, negate: bool): Code
    requires k > 0
  {
    if negate then [Do(Logic(UntilCond(idx), XorI, FoldName(idx, k - 1), TrueI1))] else []
  }

  lemma ConjunctionRuns(terms: seq<Condition>, idx: Idx, negate: bool, words: Scope,
                        env: Env, out: seq<string>, globals: seq<string>)
    returns (after: Env)
    requires |terms| > 1 && (forall n :: 0 <= n < |terms| ==> terms[n].Comparison?)
    requires DeclaresTerms(env, terms, |terms|, words)
    requires negate ==> TrueI1 in env && env[TrueI1] == Bit(true)
    ensures Decides(TermsCode(terms, idx, |terms|) + FoldCode(idx, |terms|) + NegateCode(idx, |terms|, negate),
                    globals, env, out, CompiledConjunction(terms, words, negate),
                    if negate then UntilCond(idx) else FoldName(idx, |terms| - 1), after)
    ensures KeepsNames(env, after, idx)
  {
    var k := |terms|;
    var tc, fc, last := TermsCode(terms, idx, k), FoldCode(idx, k), NegateCode(idx, k, negate);
    ExecConcat(tc + fc, last, globals, Running(env, out));
    ExecConcat(tc, fc, globals, Running(env, out));
    var e1 := TermsRun(terms, k, idx, words, env, out, globals);
    after := e1;
    if Bits(terms, k, words).None? {
      ExecHalted(fc, globals, QuotientOverflow);
      ExecHalted(last, globals, QuotientOverflow);
      return;
    }
    var e2 := FoldRuns(Bits(terms, k, words).value, k, idx, e1, out, globals);
    after := NegateRuns(AllOf(Bits(terms, k, words).value, k), k, idx, negate, e2, out, globals);
    assert TrueI1 in env ==> TrueI1 in e2;
  }

  lemma NegateRuns(b: bool, k: nat, idx: Idx, negate: bool, env: Env, out: seq<string>, globals: seq<string>)
    returns (after: Env)
    requires k > 0 && FoldName(idx, k - 1) in env && env[FoldName(idx, k - 1)] == Bit(b)
    requires negate ==> TrueI1 in env && env[TrueI1] == Bit(true)
    ensures Decides(NegateCode(idx, k, negate), globals, env, out, Truth(b != negate),
                    if negate then UntilCond(idx) else FoldName(idx, k - 1), after)
    ensures KeepsNames(env, after, idx)
  {
    after := env;
    if negate {
      ExecOne(NegateCode(idx, k, negate)[0], globals, Running(env, out));
      after := env[UntilCond(idx) := Bit(!b)];
    }
  }

  // ---- Main results --------------------------------------------------------------------

  lemma {:induction false} TermsAgree(terms: seq<Condition>, words: Scope)
    requires TermsCovered(terms, words) && EvalTerms(terms, words).Holds?
    ensures forall k :: 0 <= k < |terms| ==> CompiledTerm(terms[k], words).Truth?
    ensures EvalTerms(terms, words).truth <==> forall k :: 0 <= k < |terms| ==> CompiledTerm(terms[k], words).b
  {
    if terms != [] {
      var t := terms[0];
      Resolves(t.left, words);
      Resolves(t.right, words);
      CompiledAgrees(t.left, words);
      CompiledAgrees(t.right, words);
      TermsAgree(terms[1..], words);
      assert forall k :: 1 <= k < |terms| ==> terms[k] == terms[1..][k - 1];
    }
  }

  lemma {:induction false} Resolves(v: Value, words: Scope)
    requires Covers(v, words)
    ensures !EvalValue(v, words).Unresolved?
  {
    if v.Arith? {
      Resolves(v.left, words);
      Resolves(v.right, words);
    }
  }

  /** Whenever the interpreter's evaluation of a comparison or conjunction raises no fault, the
      emitted code computes its truth value, or the negation for `until`. */
  lemma CompiledMeaning(c: Condition, negate: bool, words: Scope)
    requires IsCompiled(c) && TermsCovered(Comparisons(c), words)
    requires EvalCondition(c, words).Holds?
    ensures CompiledCondition(c, words, negate) == Truth(EvalCondition(c, words).truth != negate)
  {
    var terms := Comparisons(c);
    assert terms == if c.And? then c.terms else [c];
    TermsAgree(terms, words);
    BitsAgree(terms, |terms|, words);
    var bits := Bits(terms, |terms|, words).value;
    assert forall k :: 0 <= k < |terms| ==> bits[k] == CompiledTerm(terms[k], words).b;
  }

  lemma {:induction false} BitsAgree(terms: seq<Condition>, k: nat, words: Scope)
    requires k <= |terms|
    requires forall n :: 0 <= n < |terms| ==> CompiledTerm(terms[n], words).Truth?
    ensures Bits(terms, k, words).Some?
    ensures forall n :: 0 <= n < k ==> Bits(terms, k, words).value[n] == CompiledTerm(terms[n], words).b
  {
    if k > 0 {
      BitsAgree(terms, k - 1, words);
    }
  }

  // ---- When the code stops -------------------------------------------------------------

  /** What 64-bit arithmetic makes of a value when every quotient wraps as well. */
  function WrappedValue(v: Value, words: Scope): int {
    match v
    case Ref(name) => if name in words then words[name] else 0
    case Lit(n, _) => n
    case Arith(l, op, r) =>
      var a, b := WrappedValue(l, words), WrappedValue(r, words);
      match op
      case Add => Wrap(a + b)
      case Sub => Wrap(a - b)
      case Mul => Wrap(a * b)
      case Div => Wrap(Quotient(a, if b == 0 then 1 else b))
  }

  /** The value holds a division of the least 64-bit word by minus one. */
  predicate DividesLeast(v: Value, words: Scope) {
    v.Arith? && (
      || DividesLeast(v.left, words) || DividesLeast(v.right, words)
      || (v.op == Div && WrappedValue(v.left, words) == INT64_MIN && WrappedValue(v.right, words) == -1))
  }

  predicate TermDividesLeast(t: Condition, words: Scope) {
    t.Comparison? && (DividesLeast(t.left, words) || DividesLeast(t.right, words))
  }

  predicate SomeTermDividesLeast(terms: seq<Condition>, words: Scope) {
    exists k :: 0 <= k < |terms| && TermDividesLeast(terms[k], words)
  }

  lemma {:induction false} OverflowsExactly(v: Value, words: Scope)
    ensures CompiledValue(v, words).Overflows? <==> DividesLeast(v, words)
    ensures !DividesLeast(v, words) ==> CompiledValue(v, words) == Word(WrappedValue(v, words))
  {
    if v.Arith? {
      OverflowsExactly(v.left, words);
      OverflowsExactly(v.right, words);
    }
  }

  lemma {:induction false} BitsStopExactly(terms: seq<Condition>, k: nat, words: Scope)
    requires k <= |terms| && forall n :: 0 <= n < |terms| ==> terms[n].Comparison?
    ensures Bits(terms, k, words).None? <==> exists n :: 0 <= n < k && TermDividesLeast(terms[n], words)
  {
    if k > 0 {
      BitsStopExactly(terms, k - 1, words);
      OverflowsExactly(terms[k - 1].left, words);
      OverflowsExactly(terms[k - 1].right, words);
    }
  }

  /** For every comparison or conjunction, every setting of `negate` and all inputs: the code runs
      on unless a division of the least word by minus one is among those it evaluates, and then it
      stops there; whenever the interpreter's evaluation raises no fault, it runs and leaves the
      truth value, or its negation for `until`. */
  lemma GuardCompilationPreservesMeaning(c: Condition, idx: Idx, negate: bool, words: Scope,
                                         env: Env, out: seq<string>, globals: seq<string>)
    requires IsCompiled(c) && TermsCovered(Comparisons(c), words) && ConditionDeclared(env, c, words, negate)
    ensures var m := Exec(ConditionCode(c, idx, negate), globals, Running(env, out));
            && (m.Running? || m.QuotientOverflow?)
            && (m.QuotientOverflow? <==> SomeTermDividesLeast(Comparisons(c), words))
            && (EvalCondition(c, words).Holds? ==>
                  m.Running? && m.out == out && ConditionName(c, idx, negate).Some?
                  && var name := ConditionName(c, idx, negate).value;
                     name in m.env && m.env[name] == Bit(EvalCondition(c, words).truth != negate))
  {
    var after := ConditionRuns(c, idx, negate, words, env, out, globals);
    BitsStopExactly(Comparisons(c), |Comparisons(c)|, words);
    if EvalCondition(c, words).Holds? {
      CompiledMeaning(c, negate, words);
    }
  }

  /** `a.x / b.y > 0` at the least word and minus one: the compiled code has no result, where the
      interpreter reports a fault. */
  lemma LeastByMinusOneStops(idx: Idx, out: seq<string>, globals: seq<string>)
    ensures var c := Comparison(Arith(Ref("a.x"), Div, Ref("b.y")), Gt, Lit(0, false));
            var words: Scope := map["a.x" := INT64_MIN, "b.y" := -1];
            var env: Env := map[Field("a.x") := I64(INT64_MIN), Field("b.y") := I64(-1),
                                LitConst(0) := I64(0), LitConst(1) := I64(1)];
            && Exec(ConditionCode(c, idx, false), globals, Running(env, out)).QuotientOverflow?
            && EvalCondition(c, words).GuardFault?
  {
    var c := Comparison(Arith(Ref("a.x"), Div, Ref("b.y")), Gt, Lit(0, false));
    var words: Scope := map["a.x" := INT64_MIN, "b.y" := -1];
    var env: Env := map[Field("a.x") := I64(INT64_MIN), Field("b.y") := I64(-1),
                        LitConst(0) := I64(0), LitConst(1) := I64(1)];
    assert Comparisons(c) == [c] && TermDividesLeast(Comparisons(c)[0], words);
    assert Covers(c.left.left, words) && Covers(c.left.right, words) && Covers(c.right, words);
    assert DeclaresValue(env, c.left.left, words) && DeclaresValue(env, c.left.right, words);
    assert DeclaresValue(env, c.left, words) && DeclaresValue(env, c.right, words);
    assert DeclaresTerms(env, [c], 0, words) && DeclaresTerms(env, [c], 1, words);
    GuardCompilationPreservesMeaning(c, idx, false, words, env, out, globals);
  }
}
