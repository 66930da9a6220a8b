/** The `or` of a guard's condition and its alternatives compiles to the disjunction the
    interpreter computes. Every alternative is evaluated, in order, under names of its own index,
    so an earlier truth value survives the code of the later ones and the final fold meets all of
    them; a fault in one alternative stops the run as it stops the interpreter. */
module AltGuardCorrect {
  import opened Wrappers
  import opened Text
  import opened Conditions
  import opened Evaluation
  import opened Machine
  import opened GuardEmit
  import opened GuardCorrect

  function Somes(cs: seq<Condition>): (os: seq<Option<Condition>>)
    ensures |os| == |cs| && forall n :: 0 <= n < |cs| ==> os[n] == Some(cs[n])
  {
    if cs == [] then [] else [Some(cs[0])] + Somes(cs[1..])
  }

  predicate AllCompiled(cs: seq<Condition>) {
    forall n :: 0 <= n < |cs| ==> IsCompiled(cs[n])
  }

  predicate AllEvaluable(cs: seq<Condition>) {
    forall n :: 0 <= n < |cs| ==> Comparisons(cs[n]) != []
  }

  predicate AllCovered(cs: seq<Condition>, words: Scope) {
    forall n :: 0 <= n < |cs| ==> TermsCovered(Comparisons(cs[n]), words)
  }

  predicate AllDeclared(env: Env, cs: seq<Condition>, words: Scope) {
    forall n :: 0 <= n < |cs| ==> DeclaresTerms(env, Comparisons(cs[n]), |Comparisons(cs[n])|, words)
  }

  /** The truth values of the first `k` alternatives, or `None` when one of them stops the machine. */
  function AltBits(cs: seq<Condition>, k: nat, words: Scope): (o: Option<seq<bool>>)
    requires k <= |cs|
    ensures o.Some? ==> |o.value| == k
  {
    if k == 0 then Some([])
    else
      var init := AltBits(cs, k - 1, words);
      if init.None? then None
      else
        var last := CompiledCondition(cs[k - 1], words, false);
        if last.Halts? then None else Some(init.value + [last.b])
  }

  predicate AnyOf(bits: seq<bool>, k: nat)
    requires k <= |bits|
    ensures AnyOf(bits, k) <==> exists n :: 0 <= n < k && bits[n]
  {
    k != 0 && (AnyOf(bits, k - 1) || bits[k - 1])
  }

  /** The names the evaluation of step `i`'s alternatives may define. */
  predicate AltOwned(x: Name, i: nat) {
    || (x.OrFold? && x.i == i)
    || ((x.Tmp? || x.IsZero? || x.SafeRight? || x.Cond? || x.UntilCond? || x.TermCond? || x.AndFold?)
        && x.idx.Alternative? && x.idx.i == i)
  }

  predicate KeepsAlt(env: Env, after: Env, i: nat) {
    forall x :: x in env && !AltOwned(x, i) ==> x in after && after[x] == env[x]
  }

  /** The names the alternatives' truth values are left in. */
  function Names(cs: seq<Condition>, i: nat): (names: seq<Name>)
    requires AllEvaluable(cs)
    ensures |names| == |cs|
  {
    CompiledHasEvaluator(cs);
    AltNames(Somes(cs), i, |cs|)
  }

  /** Each alternative's name carries that alternative's own index. */
  predicate OwnIndices(names: seq<Name>, i: nat) {
    forall n :: 0 <= n < |names| ==> GuardOwned(names[n], Alternative(i, n)) && !names[n].OrFold?
  }

  lemma NamesOwnIndices(cs: seq<Condition>, i: nat)
    requires AllEvaluable(cs)
    ensures OwnIndices(Names(cs, i), i)
    ensures forall n :: 0 <= n < |cs| ==> Names(cs, i)[n] == ConditionName(cs[n], Alternative(i, n), false).value
  {
    CompiledHasEvaluator(cs);
  }

  predicate HoldsAlts(env: Env, names: seq<Name>, bits: seq<bool>) {
    |bits| <= |names| && forall n :: 0 <= n < |bits| ==> names[n] in env && env[names[n]] == Bit(bits[n])
  }

  lemma CompiledHasEvaluator(cs: seq<Condition>)
    requires AllEvaluable(cs)
    ensures AllHaveEvaluator(Somes(cs)) && Evaluable(Somes(cs)) == |cs|
  {
  }

  lemma KeepsIntoAlt(env: Env, e1: Env, after: Env, i: nat, k: nat)
    requires KeepsAlt(env, e1, i) && KeepsNames(e1, after, Alternative(i, k))
    ensures KeepsAlt(env, after, i)
  {
  }

  lemma AltBitsStay(env: Env, after: Env, names: seq<Name>, i: nat, bits: seq<bool>, b: bool)
    requires OwnIndices(names, i) && |bits| < |names| && HoldsAlts(env, names, bits)
    requires KeepsNames(env, after, Alternative(i, |bits|))
    requires names[|bits|] in after && after[names[|bits|]] == Bit(b)
    ensures HoldsAlts(after, names, bits + [b])
  {
    forall n | 0 <= n < |bits| ensures names[n] in after && after[names[n]] == Bit(bits[n]) {
      assert GuardOwned(names[n], Alternative(i, n));
      assert !GuardOwned(names[n], Alternative(i, |bits|));
    }
  }

  /** The evaluations of the first `k` alternatives. */
  function CondsCode(cs: seq<Condition>, i: nat, k: nat): Code
    requires k <= |cs|
  {
    if k == 0 then [] else CondsCode(cs, i, k - 1) + ConditionCode(cs[k - 1], Alternative(i, k - 1), false)
  }

  lemma {:induction false} CondsCodeIs(cs: seq<Condition>, i: nat, k: nat)
    requires k <= |cs| == Evaluable(Somes(cs))
    ensures AltTermsCode(Somes(cs), i, k) == CondsCode(cs, i, k)
  {
    if k > 0 {
      CondsCodeIs(cs, i, k - 1);
    }
  }

  /** The first `k` alternatives have their operands declared and `names` for their results. */
  predicate Ready(cs: seq<Condition>, names: seq<Name>, i: nat, env: Env, words: Scope, k: nat)
    requires k <= |cs| == |names|
  {
    k == 0 || (
      && Ready(cs, names, i, env, words, k - 1)
      && Comparisons(cs[k - 1]) != [] && DeclaresTerms(env, Comparisons(cs[k - 1]), |Comparisons(cs[k - 1])|, words)
      && names[k - 1] == ConditionName(cs[k - 1], Alternative(i, k - 1), false).value)
  }

  lemma {:induction false} NamesReady(cs: seq<Condition>, i: nat, env: Env, words: Scope, k: nat)
    requires k <= |cs| && AllEvaluable(cs) && AllDeclared(env, cs, words)
    ensures Ready(cs, Names(cs, i), i, env, words, k)
  {
    hide DeclaresTerms, ConditionName, Comparisons, Names, OwnIndices;
    if k > 0 {
      NamesReady(cs, i, env, words, k - 1);
      NamesOwnIndices(cs, i);
    }
  }

  /** The run of the first `k` alternatives, as their truth values say. */
  ghost predicate AltsRan(cs: seq<Condition>, names: seq<Name>, k: nat, i: nat, words: Scope,
                          env: Env, out: seq<string>, globals: seq<string>, after: Env)
    requires k <= |cs| == |names|
  {
    && Exec(CondsCode(cs, i, k), globals, Running(env, out))
       == (if AltBits(cs, k, words).Some? then Running(after, out) else QuotientOverflow)
    && (AltBits(cs, k, words).Some? ==> HoldsAlts(after, names, AltBits(cs, k, words).value))
    && KeepsAlt(env, after, i)
  }

  lemma {:induction false} AltTermsRun(cs: seq<Condition>, names: seq<Name>, k: nat, i: nat, words: Scope,
                                       env: Env, out: seq<string>, globals: seq<string>)
    returns (after: Env)
    requires k <= |cs| == |names| && OwnIndices(names, i) && Ready(cs, names, i, env, words, k)
    ensures AltsRan(cs, names, k, i, words, env, out, globals, after)
  {
    hide OwnIndices, AltsRan, Ready;
    if k == 0 {
      after := env;
      NoAltsRan(cs, names, i, words, env, out, globals);
    } else {
      ReadyBefore(cs, names, i, env, words, k);
      var e1 := AltTermsRun(cs, names, k - 1, i, words, env, out, globals);
      after := LastAltTermRuns(cs, names, k, i, words, env, e1, out, globals);
    }
  }

  lemma NoAltsRan(cs: seq<Condition>, names: seq<Name>, i: nat, words: Scope, env: Env, out: seq<string>,
                  globals: seq<string>)
    requires |cs| == |names|
    ensures AltsRan(cs, names, 0, i, words, env, out, globals, env)
  {
  }

  lemma ReadyBefore(cs: seq<Condition>, names: seq<Name>, i: nat, env: Env, words: Scope, k: nat)
    requires 0 < k <= |cs| == |names| && Ready(cs, names, i, env, words, k)
    ensures Ready(cs, names, i, env, words, k - 1)
    ensures Comparisons(cs[k - 1]) != [] && DeclaresTerms(env, Comparisons(cs[k - 1]), |Comparisons(cs[k - 1])|, words)
    ensures names[k - 1] == ConditionName(cs[k - 1], Alternative(i, k - 1), false).value
  {
  }

  lemma LastAltTermRuns(cs: seq<Condition>, names: seq<Name>, k: nat, i: nat, words: Scope,
                        env: Env, e1: Env, out: seq<string>, globals: seq<string>)
    returns (after: Env)
    requires 0 < k <= |cs| == |names| && OwnIndices(names, i) && Ready(cs, names, i, env, words, k)
    requires AltsRan(cs, names, k - 1, i, words, env, out, globals, e1)
    ensures AltsRan(cs, names, k, i, words, env, out, globals, after)
  {
    hide ConditionCode, CompiledCondition, HoldsAlts, OwnIndices, DeclaresTerms, KeepsAlt, Exec, CondsCode, Comparisons,
         ConditionName, Ready;
    if AltBits(cs, k - 1, words).Some? {
      ReadyBefore(cs, names, i, env, words, k);
      SplitLast(cs, i, k, globals, Running(env, out));
      after := AltTermsStep(cs[k - 1], names, AltBits(cs, k - 1, words).value, k - 1, i, words, env, e1, out, globals);
    } else {
      after := e1;
      StaysHalted(cs, i, k, globals, Running(env, out));
    }
  }

  lemma AltTermsStep(c: Condition, names: seq<Name>, bits: seq<bool>, n: nat, i: nat, words: Scope,
                     env: Env, e1: Env, out: seq<string>, globals: seq<string>)
    returns (after: Env)
    requires Comparisons(c) != [] && DeclaresTerms(env, Comparisons(c), |Comparisons(c)|, words)
    requires OwnIndices(names, i) && |bits| == n < |names| && HoldsAlts(e1, names, bits)
    requires names[n] == ConditionName(c, Alternative(i, n), false).value
    requires KeepsAlt(env, e1, i)
    ensures Exec(ConditionCode(c, Alternative(i, n), false), globals, Running(e1, out))
         == if CompiledCondition(c, words, false).Truth? then Running(after, out) else QuotientOverflow
    ensures CompiledCondition(c, words, false).Truth? ==>
              HoldsAlts(after, names, bits + [CompiledCondition(c, words, false).b])
    ensures KeepsAlt(env, after, i)
  {
    TermsStayDeclared(env, e1, Comparisons(c), |Comparisons(c)|, words);
    after := LastAltRuns(c, names, bits, i, words, e1, out, globals);
    KeepsIntoAlt(env, e1, after, i, n);
  }

  lemma SplitLast(cs: seq<Condition>, i: nat, k: nat, globals: seq<string>, m: Machine<Name>)
    requires 0 < k <= |cs|
    ensures Exec(CondsCode(cs, i, k), globals, m)
         == Exec(ConditionCode(cs[k - 1], Alternative(i, k - 1), false), globals,
                 Exec(CondsCode(cs, i, k - 1), globals, m))
  {
    ExecConcat(CondsCode(cs, i, k - 1), ConditionCode(cs[k - 1], Alternative(i, k - 1), false), globals, m);
  }

  lemma LastAltRuns(c: Condition, names: seq<Name>, bits: seq<bool>, i: nat, words: Scope,
                    env: Env, out: seq<string>, globals: seq<string>)
    returns (after: Env)
    requires Comparisons(c) != [] && DeclaresTerms(env, Comparisons(c), |Comparisons(c)|, words)
    requires OwnIndices(names, i) && |bits| < |names| && HoldsAlts(env, names, bits)
    requires names[|bits|] == ConditionName(c, Alternative(i, |bits|), false).value
    ensures Exec(ConditionCode(c, Alternative(i, |bits|), false), globals, Running(env, out))
         == if CompiledCondition(c, words, false).Truth? then Running(after, out) else QuotientOverflow
    ensures CompiledCondition(c, words, false).Truth? ==>
              HoldsAlts(after, names, bits + [CompiledCondition(c, words, false).b])
    ensures KeepsNames(env, after, Alternative(i, |bits|))
  {
    after := ConditionRuns(c, Alternative(i, |bits|), false, words, env, out, globals);
    if CompiledCondition(c, words, false).Truth? {
      AltBitsStay(env, after, names, i, bits, CompiledCondition(c, words, false).b);
    }
  }

  lemma StaysHalted(cs: seq<Condition>, i: nat, k: nat, globals: seq<string>, m: Machine<Name>)
    requires 0 < k <= |cs| && Exec(CondsCode(cs, i, k - 1), globals, m) == QuotientOverflow
    ensures Exec(CondsCode(cs, i, k), globals, m) == QuotientOverflow
  {
    SplitLast(cs, i, k, globals, m);
    ExecHalted(ConditionCode(cs[k - 1], Alternative(i, k - 1), false), globals, QuotientOverflow);
  }

  function OrName(names: seq<Name>, i: nat, n: nat): Name
    requires n < |names|
  {
    if n == 0 then names[0] else OrFold(i, n)
  }

  function OrCode(names: seq<Name>, i: nat, k: nat): Code
    requires k <= |names|
  {
    if k <= 1 then []
    else OrCode(names, i, k - 1) + [Do(Logic(OrFold(i, k - 1), OrI, OrName(names, i, k - 2), names[k - 1]))]
  }

  lemma {:induction false} OrCodeIs(cs: seq<Condition>, i: nat, k: nat)
    requires AllEvaluable(cs) && AllHaveEvaluator(Somes(cs)) && k <= |cs|
    ensures AltFoldCode(Somes(cs), i, k) == OrCode(Names(cs, i), i, k)
    ensures k > 0 ==> AltFoldName(Somes(cs), i, k - 1) == OrName(Names(cs, i), i, k - 1)
  {
    NamesOwnIndices(cs, i);
    if k > 1 {
      OrCodeIs(cs, i, k - 1);
    }
  }

  lemma {:induction false} OrFoldRuns(names: seq<Name>, bits: seq<bool>, k: nat, i: nat,
                                      env: Env, out: seq<string>, globals: seq<string>)
    returns (after: Env)
    requires OwnIndices(names, i) && 0 < k <= |bits| == |names| && HoldsAlts(env, names, bits)
    ensures Decides(OrCode(names, i, k), globals, env, out, Truth(AnyOf(bits, k)), OrName(names, i, k - 1), after)
    ensures KeepsAlt(env, after, i) && HoldsAlts(after, names, bits)
  {
    if k == 1 {
      after := env;
      assert AnyOf(bits, 1) == bits[0];
    } else {
      var line := Do(Logic(OrFold(i, k - 1), OrI, OrName(names, i, k - 2), names[k - 1]));
      var e1 := OrFoldRuns(names, bits, k - 1, i, env, out, globals);
      ExecConcat(OrCode(names, i, k - 1), [line], globals, Running(env, out));
      ExecOne(line, globals, Running(e1, out));
      after := e1[OrFold(i, k - 1) := Bit(AnyOf(bits, k))];
    }
  }

  function CompiledAny(cs: seq<Condition>, words: Scope): CompiledVerdict {
    var bits := AltBits(cs, |cs|, words);
    if bits.Some? then Truth(AnyOf(bits.value, |cs|)) else Halts
  }

  /** The code of an alternative guard leaves the disjunction in the returned name. */
  lemma AltRuns(cs: seq<Condition>, i: nat, words: Scope, env: Env, out: seq<string>, globals: seq<string>)
    returns (after: Env)
    requires cs != [] && AllEvaluable(cs) && AllDeclared(env, cs, words)
    ensures AltName(Somes(cs), i).Some?
    ensures Decides(AltCode(Somes(cs), i), globals, env, out, CompiledAny(cs, words), AltName(Somes(cs), i).value,
                    after)
    ensures KeepsAlt(env, after, i)
  {
    CompiledHasEvaluator(cs);
    CondsCodeIs(cs, i, |cs|);
    OrCodeIs(cs, i, |cs|);
    NamesOwnIndices(cs, i);
    var fold := OrCode(Names(cs, i), i, |cs|);
    ExecConcat(CondsCode(cs, i, |cs|), fold, globals, Running(env, out));
    after := BothRun(cs, i, words, env, out, globals);
  }

  lemma KeepsAltTwice(env: Env, e1: Env, after: Env, i: nat)
    requires KeepsAlt(env, e1, i) && KeepsAlt(e1, after, i)
    ensures KeepsAlt(env, after, i)
  {
  }

  lemma BothRun(cs: seq<Condition>, i: nat, words: Scope, env: Env, out: seq<string>, globals: seq<string>)
    returns (after: Env)
    requires cs != [] && AllEvaluable(cs) && AllDeclared(env, cs, words)
    ensures Exec(OrCode(Names(cs, i), i, |cs|), globals, Exec(CondsCode(cs, i, |cs|), globals, Running(env, out)))
         == if CompiledAny(cs, words).Truth? then Running(after, out) else QuotientOverflow
    ensures CompiledAny(cs, words).Truth? ==>
      var d := OrName(Names(cs, i), i, |cs| - 1); d in after && after[d] == Bit(CompiledAny(cs, words).b)
    ensures KeepsAlt(env, after, i)
  {
    hide OwnIndices, HoldsAlts, KeepsAlt, AllDeclared, AllEvaluable, Ready, OrCode, Exec, CondsCode, AltBits, AnyOf,
         Names, ConditionName, OrName;
    NamesOwnIndices(cs, i);
    NamesReady(cs, i, env, words, |cs|);
    var names := Names(cs, i);
    var e1 := AltTermsRun(cs, names, |cs|, i, words, env, out, globals);
    after := e1;
    if AltBits(cs, |cs|, words).Some? {
      after := OrFoldRuns(names, AltBits(cs, |cs|, words).value, |cs|, i, e1, out, globals);
      KeepsAltTwice(env, e1, after, i);
    } else {
      ExecHalted(OrCode(Names(cs, i), i, |cs|), globals, QuotientOverflow);
    }
  }

  // ---- Main results --------------------------------------------------------------------

  /** The interpreter's evaluation of an alternative guard: no short circuit, and a fault in
      any alternative is a fault. */
  function EvalAny(cs: seq<Condition>, scope: Scope): Verdict {
    if cs == [] then Holds(false)
    else
      var first := EvalCondition(cs[0], scope);
      var rest := EvalAny(cs[1..], scope);
      if first.GuardFault? || rest.GuardFault? then GuardFault
      else Holds(first.truth || rest.truth)
  }

  function Truths(cs: seq<Condition>, scope: Scope): (truths: seq<bool>)
    requires EvalAny(cs, scope).Holds?
    ensures |truths| == |cs|
  {
    if cs == [] then [] else [EvalCondition(cs[0], scope).truth] + Truths(cs[1..], scope)
  }

  lemma {:induction false} TruthsAre(cs: seq<Condition>, words: Scope, n: nat)
    requires EvalAny(cs, words).Holds? && n < |cs|
    ensures EvalCondition(cs[n], words) == Holds(Truths(cs, words)[n])
  {
    if n > 0 {
      TruthsAre(cs[1..], words, n - 1);
    }
  }

  lemma {:induction false} AnyOfTruths(cs: seq<Condition>, words: Scope)
    requires EvalAny(cs, words).Holds?
    ensures EvalAny(cs, words).truth <==> AnyOf(Truths(cs, words), |cs|)
  {
    if cs != [] {
      AnyOfTruths(cs[1..], words);
      var ts, rest := Truths(cs, words), Truths(cs[1..], words);
      assert ts == [ts[0]] + rest;
      assert forall n :: 1 <= n < |cs| ==> ts[n] == rest[n - 1];
      assert ts[0] == EvalCondition(cs[0], words).truth;
      if exists n :: 0 <= n < |rest| && rest[n] {
        var n :| 0 <= n < |rest| && rest[n];
        assert ts[n + 1];
      }
    }
  }

  lemma {:induction false} BitsAgree(cs: seq<Condition>, k: nat, words: Scope)
    requires k <= |cs| && AllCompiled(cs) && AllCovered(cs, words) && EvalAny(cs, words).Holds?
    ensures AltBits(cs, k, words) == Some(Truths(cs, words)[..k])
  {
    if k > 0 {
      BitsAgree(cs, k - 1, words);
      TruthsAre(cs, words, k - 1);
      CompiledMeaning(cs[k - 1], false, words);
      assert Truths(cs, words)[..k] == Truths(cs, words)[..k - 1] + [Truths(cs, words)[k - 1]];
    }
  }

  /** Whenever no alternative faults, the compiled `or` is the interpreter's. */
  lemma CompiledAnyMeaning(cs: seq<Condition>, words: Scope)
    requires AllCompiled(cs) && AllCovered(cs, words) && EvalAny(cs, words).Holds?
    ensures CompiledAny(cs, words) == Truth(EvalAny(cs, words).truth)
  {
    BitsAgree(cs, |cs|, words);
    AnyOfTruths(cs, words);
    assert Truths(cs, words)[..|cs|] == Truths(cs, words);
  }

  /** Some term of alternative `n` divides the least word by minus one. */
  predicate AltDividesLeast(cs: seq<Condition>, n: nat, words: Scope)
    requires n < |cs|
  {
    SomeTermDividesLeast(Comparisons(cs[n]), words)
  }

  predicate SomeAltDividesLeast(cs: seq<Condition>, words: Scope) {
    exists n :: 0 <= n < |cs| && AltDividesLeast(cs, n, words)
  }

  lemma {:induction false} AltBitsStopExactly(cs: seq<Condition>, k: nat, words: Scope)
    requires k <= |cs|
    ensures AltBits(cs, k, words).None? <==> exists n :: 0 <= n < k && AltDividesLeast(cs, n, words)
  {
    hide CompiledCondition, AltDividesLeast;
    if k > 0 {
      AltBitsStopExactly(cs, k - 1, words);
      AltStopsExactly(cs, k - 1, words);
    }
  }

  lemma AltStopsExactly(cs: seq<Condition>, n: nat, words: Scope)
    requires n < |cs|
    ensures CompiledCondition(cs[n], words, false).Halts? <==> AltDividesLeast(cs, n, words)
  {
    hide Bits, SomeTermDividesLeast;
    BitsStopExactly(Comparisons(cs[n]), |Comparisons(cs[n])|, words);
    StopsSomewhere(Comparisons(cs[n]), words);
  }

  lemma StopsSomewhere(terms: seq<Condition>, words: Scope)
    ensures SomeTermDividesLeast(terms, words) <==> exists n :: 0 <= n < |terms| && TermDividesLeast(terms[n], words)
  {
  }

  /** The disjunction of any list of alternatives, every one of them evaluated: the code stops
      exactly at a division of the least word by minus one, and computes the interpreter's truth
      value whenever that is not a fault. */
  lemma AltCompilationPreservesMeaning(cs: seq<Condition>, i: nat, words: Scope, env: Env, out: seq<string>,
                                       globals: seq<string>)
    requires cs != [] && AllCompiled(cs) && AllCovered(cs, words) && AllDeclared(env, cs, words)
    ensures var m := Exec(AltCode(Somes(cs), i), globals, Running(env, out));
            && (m.Running? || m.QuotientOverflow?)
            && (m.QuotientOverflow? <==> SomeAltDividesLeast(cs, words))
            && (EvalAny(cs, words).Holds? ==>
                  m.Running? && m.out == out && AltName(Somes(cs), i).Some?
                  && var name := AltName(Somes(cs), i).value;
                     name in m.env && m.env[name] == Bit(EvalAny(cs, words).truth))
  {
    var after := AltRuns(cs, i, words, env, out, globals);
    AltBitsStopExactly(cs, |cs|, words);
    if EvalAny(cs, words).Holds? {
      CompiledAnyMeaning(cs, words);
    }
  }
}
