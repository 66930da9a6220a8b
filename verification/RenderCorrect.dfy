/** Executing a rendered module prints exactly the lines of the steps whose guard is taken. The
    prelude binds the parameters, the interned strings and the constants; from there each op's
    code is followed instruction by instruction, and what later ops need (the prelude's names)
    is shown to survive it, so the lines of the first k ops add up by induction on k. */
module RenderCorrect {
  import opened Wrappers
  import opened Text
  import opened Conditions
  import opened ConditionSyntax
  import opened Evaluation
  import opened Machine
  import opened GuardEmit
  import opened GuardCorrect
  import opened AltGuardCorrect
  import opened Workflow
  import opened Flattening
  import opened Attempts
  import opened Blocks
  import opened Interp
  import opened Events
  import opened Ops
  import opened StreamRun
  import opened Render
  import opened Trace

  // ---- The compiled fragment -----------------------------------------------------------

  /** The text is a comparison or a conjunction of comparisons over references that have 64-bit
      values. */
  predicate Compiles(u: CharClass, text: string, words: Scope) {
    var c := Parsed(u, text);
    c.Some? && IsCompiled(c.value) && TermsCovered(Comparisons(c.value), words)
  }

  predicate AllCompile(u: CharClass, texts: seq<string>, words: Scope) {
    forall k :: 0 <= k < |texts| ==> Compiles(u, texts[k], words)
  }

  /** A guard mode B has an evaluator for, and whose evaluation does not fault. */
  predicate GuardFits(u: CharClass, g: Guard, words: Scope) {
    && AllCompile(u, GuardTexts(g), words)
    && (g.mode.Until? ==> g.alternatives == [])
    && GuardVerdict(u, g, words).Holds?
  }

  /** The conditions of texts that compile. */
  function Conds(u: CharClass, texts: seq<string>, words: Scope): (cs: seq<Condition>)
    requires AllCompile(u, texts, words)
    ensures |cs| == |texts| && forall k :: 0 <= k < |texts| ==> Parsed(u, texts[k]) == Some(cs[k])
  {
    if texts == [] then []
    else
      assert Compiles(u, texts[0], words);
      [Parsed(u, texts[0]).value] + Conds(u, texts[1..], words)
  }

  lemma {:induction false} VerdictIsAny(u: CharClass, texts: seq<string>, words: Scope)
    requires AllCompile(u, texts, words)
    ensures TextsVerdict(u, texts, words) == EvalAny(Conds(u, texts, words), words)
    ensures ParsedAll(u, texts) == Somes(Conds(u, texts, words))
  {
    if texts != [] {
      hide ParseCondition, EvalCondition, IsCompiled, TermsCovered, Comparisons;
      assert AllCompile(u, texts[1..], words);
      VerdictIsAny(u, texts[1..], words);
      assert Conds(u, texts, words)[1..] == Conds(u, texts[1..], words);
    }
  }

  // ---- What the prelude declares -------------------------------------------------------

  /** The parameters: the skip flag and one word per condition field. */
  function ParamEnv(words: Scope, skip: int): Env {
    (map r | r in words :: Field(r) := I64(words[r]))[Skip := I32(skip)]
  }

  ghost predicate Holds64(env: Env, words: Scope, values: seq<int>) {
    && (forall r :: r in words ==> Field(r) in env && env[Field(r)] == I64(words[r]))
    && (forall v :: v in values ==> DeclaresConst(env, v))
  }

  predicate HasTrue(env: Env) {
    TrueI1 in env && env[TrueI1] == Bit(true)
  }

  /** What every op may rely on: parameters and constants are never rebound. */
  predicate KeepsBase(base: Env, env: Env) {
    forall x :: x in base && (x.Field? || x.LitConst? || x.TrueI1?) ==> x in env && env[x] == base[x]
  }

  lemma {:induction false} ConstsRun(values: seq<int>, words: Scope, env: Env, globals: seq<string>)
      returns (after: Env)
    requires Holds64(env, words, [])
    ensures Exec(ConstCode(values), globals, Running(env, [])) == Running(after, [])
    ensures Holds64(after, words, values) && KeepsBut64(env, after)
    decreases values
  {
    after := env;
    if values != [] {
      var line := Do(Const64(LitConst(values[0]), values[0]));
      var e1 := env[LitConst(values[0]) := I64(values[0])];
      assert ConstCode(values) == [line] + ConstCode(values[1..]) && [line][0] == line;
      assert ConstCode(values)[1..] == ConstCode(values[1..]);
      after := ConstsRun(values[1..], words, e1, globals);
      assert LitConst(values[0]) in after;
    }
  }

  /** Only constants of their own value are bound. */
  ghost predicate KeepsBut64(env: Env, after: Env) {
    && (forall x :: x in env && !x.LitConst? ==> x in after && after[x] == env[x])
    && (forall n :: LitConst(n) in env && env[LitConst(n)] == I64(n) ==> DeclaresConst(after, n))
  }

  lemma HeadRuns(words: Scope, skip: int, globals: seq<string>) returns (after: Env)
    ensures Exec([Do(Const32(C0, 0)), Do(Const32(C1, 1))], globals, Running(ParamEnv(words, skip), []))
            == Running(after, [])
    ensures Holds64(after, words, [])
  {
    var e0 := ParamEnv(words, skip);
    TwoRun(Do(Const32(C0, 0)), Do(Const32(C1, 1)), globals, Running(e0, []));
    after := e0[C0 := I32(0)][C1 := I32(1)];
  }

  lemma TrueRuns(needsTrue: bool, words: Scope, values: seq<int>, env: Env, globals: seq<string>) returns (after: Env)
    requires Holds64(env, words, values)
    ensures Exec(if needsTrue then [Do(ConstTrue(TrueI1))] else [], globals, Running(env, [])) == Running(after, [])
    ensures Holds64(after, words, values) && (needsTrue ==> HasTrue(after))
  {
    after := env;
    if needsTrue {
      ExecOne(Do(ConstTrue(TrueI1)), globals, Running(env, []));
      after := env[TrueI1 := Bit(true)];
    }
  }

  /** The prelude binds every constant and keeps the parameters. */
  lemma PreludeRuns(values: seq<int>, needsTrue: bool, words: Scope, skip: int, globals: seq<string>)
      returns (after: Env)
    ensures Exec(PreludeCode(values, needsTrue), globals, Running(ParamEnv(words, skip), [])) == Running(after, [])
    ensures Holds64(after, words, values) && (needsTrue ==> HasTrue(after))
  {
    hide Holds64, HasTrue, Exec, ParamEnv, ConstCode, KeepsBut64;
    var head := [Do(Const32(C0, 0)), Do(Const32(C1, 1))];
    var tail := if needsTrue then [Do(ConstTrue(TrueI1))] else [];
    var e1 := HeadRuns(words, skip, globals);
    var e2 := ConstsRun(values, words, e1, globals);
    ExecConcat(head + ConstCode(values), tail, globals, Running(ParamEnv(words, skip), []));
    ExecConcat(head, ConstCode(values), globals, Running(ParamEnv(words, skip), []));
    after := TrueRuns(needsTrue, words, values, e2, globals);
  }

  lemma TwoRun(a: Line<Name>, b: Line<Name>, globals: seq<string>, m: Machine<Name>)
    ensures Exec([a, b], globals, m) == ExecLine(b, globals, ExecLine(a, globals, m))
  {
    assert [a, b][1..] == [b];
    ExecOne(b, globals, ExecLine(a, globals, m));
  }

  lemma {:induction false} ValueDeclared(v: Value, env: Env, words: Scope, values: seq<int>)
    requires Holds64(env, words, values) && Covers(v, words) && forall n :: n in ValueLiterals(v) ==> n in values
    ensures DeclaresValue(env, v, words)
  {
    if v.Arith? {
      ValueDeclared(v.left, env, words, values);
      ValueDeclared(v.right, env, words, values);
    }
  }

  lemma {:induction false} TermLiteral(terms: seq<Condition>, k: nat, n: int)
    requires (forall i :: 0 <= i < |terms| ==> terms[i].Comparison?) && k < |terms|
    requires n in ValueLiterals(terms[k].left) || n in ValueLiterals(terms[k].right)
    ensures n in TermLiterals(terms)
  {
    if k > 0 {
      TermLiteral(terms[1..], k - 1, n);
    }
  }

  lemma {:induction false} TermsDeclared(terms: seq<Condition>, k: nat, env: Env, words: Scope, values: seq<int>)
    requires k <= |terms| && Holds64(env, words, values) && TermsCovered(terms, words)
    requires forall n :: n in TermLiterals(terms) ==> n in values
    ensures DeclaresTerms(env, terms, k, words)
  {
    if k > 0 {
      hide Holds64, Covers, ValueLiterals, DeclaresValue;
      TermsDeclared(terms, k - 1, env, words, values);
      var t := terms[k - 1];
      forall n | n in ValueLiterals(t.left) || n in ValueLiterals(t.right) ensures n in values {
        TermLiteral(terms, k - 1, n);
      }
      ValueDeclared(t.left, env, words, values);
      ValueDeclared(t.right, env, words, values);
    }
  }

  /** The constants of every condition of the op are among `values`. */
  predicate Declared(u: CharClass, op: Op, values: seq<int>) {
    forall n :: n in TextLiterals(u, OpConditions(op)) ==> n in values
  }

  lemma {:induction false} TextLiteral(u: CharClass, texts: seq<string>, k: nat, n: int)
    requires k < |texts| && Parsed(u, texts[k]).Some? && n in Literals(Parsed(u, texts[k]).value)
    ensures n in TextLiterals(u, texts)
  {
    hide Parsed, Literals;
    if k > 0 {
      TextLiteral(u, texts[1..], k - 1, n);
    }
  }

  lemma {:induction false} OpDeclared(u: CharClass, ops: seq<Op>, k: nat, values: seq<int>)
    requires k < |ops| && forall n :: n in AllLiterals(u, ops) ==> n in values
    ensures Declared(u, ops[k], values)
  {
    hide TextLiterals, OpConditions;
    if k > 0 {
      OpDeclared(u, ops[1..], k - 1, values);
    }
  }

  // ---- A guard -------------------------------------------------------------------------

  /** Names the evaluation of a guard makes up. */
  predicate Evaluator(x: Name) {
    x.Tmp? || x.IsZero? || x.SafeRight? || x.Cond? || x.UntilCond? || x.TermCond? || x.AndFold? || x.OrFold?
  }

  predicate KeepsRest(env: Env, after: Env) {
    forall x :: x in env && !Evaluator(x) ==> x in after && after[x] == env[x]
  }

  lemma ConditionDeclaredFor(u: CharClass, op: Op, k: nat, env: Env, words: Scope, values: seq<int>)
    requires Holds64(env, words, values) && Declared(u, op, values) && k < |OpConditions(op)|
    requires Compiles(u, OpConditions(op)[k], words)
    ensures var terms := Comparisons(Parsed(u, OpConditions(op)[k]).value);
            DeclaresTerms(env, terms, |terms|, words)
  {
    hide Holds64, Parsed, IsCompiled, TermsCovered, DeclaresTerms, OpConditions;
    var text := OpConditions(op)[k];
    var c := Parsed(u, text).value;
    forall n | n in TermLiterals(Comparisons(c)) ensures n in values {
      assert n in Literals(c);
      TextLiteral(u, OpConditions(op), k, n);
    }
    TermsDeclared(Comparisons(c), |Comparisons(c)|, env, words, values);
  }

  /** The text of a `when` without alternatives or of an `until`. */
  lemma SingleVerdict(u: CharClass, text: string, words: Scope)
    requires Compiles(u, text, words)
    ensures TextsVerdict(u, [text], words) == EvalCondition(Parsed(u, text).value, words)
  {
    hide ParseCondition, EvalCondition, IsCompiled, TermsCovered;
    assert [text][1..] == [];
    assert TextsVerdict(u, [], words) == Holds(false);
  }

  lemma CompiledHasTerms(c: Condition)
    requires IsCompiled(c)
    ensures Comparisons(c) != [] && (|Comparisons(c)| > 1 ==> c.And?)
  {
  }

  lemma SingleGuardRuns(u: CharClass, op: Op, words: Scope, values: seq<int>, env: Env, out: seq<string>,
                        globals: seq<string>)
    returns (after: Env)
    requires op.guard.Some? && GuardFits(u, op.guard.value, words) && Declared(u, op, values)
    requires op.guard.value.mode.When? ==> op.guard.value.alternatives == []
    requires Holds64(env, words, values) && (NegatesConjunction(u, op) ==> HasTrue(env))
    ensures GuardName(u, op.guard.value, op.index).Some?
    ensures Decides(GuardCode(u, op.guard.value, op.index), globals, env, out,
                    Truth(TakesGuard(u, op.guard.value, words)),
                    GuardName(u, op.guard.value, op.index).value, after)
    ensures KeepsRest(env, after)
  {
    var g := op.guard.value;
    assert GuardTexts(g) == [g.condition] && OpConditions(op) == [g.condition];
    assert Compiles(u, GuardTexts(g)[0], words);
    hide Holds64, ParseCondition, Declared, Exec, EvalCondition, TermsCovered, DeclaresTerms, CompiledCondition,
         TextsVerdict, ConditionCode;
    var c := Parsed(u, g.condition).value;
    ConditionDeclaredFor(u, op, 0, env, words, values);
    SingleVerdict(u, g.condition, words);
    CompiledHasTerms(c);
    hide IsCompiled, Comparisons;
    after := ConditionRuns(c, Idx.Plain(op.index), g.mode.Until?, words, env, out, globals);
    CompiledMeaning(c, g.mode.Until?, words);
    NameFor(c, Idx.Plain(op.index), g.mode.Until?);
    hide ConditionName;
    KeepsNamesRest(env, after, Idx.Plain(op.index));
  }

  lemma NameFor(c: Condition, idx: Idx, negate: bool)
    requires Comparisons(c) != []
    ensures ConditionName(c, idx, negate).Some?
  {
  }

  lemma KeepsNamesRest(env: Env, after: Env, idx: Idx)
    requires KeepsNames(env, after, idx)
    ensures KeepsRest(env, after)
  {
  }

  lemma AltConditionsDeclared(u: CharClass, op: Op, env: Env, words: Scope, values: seq<int>)
    requires op.guard.Some? && AllCompile(u, OpConditions(op), words)
    requires Holds64(env, words, values) && Declared(u, op, values)
    ensures AllDeclared(env, Conds(u, OpConditions(op), words), words)
    ensures AllCompiled(Conds(u, OpConditions(op), words)) && AllCovered(Conds(u, OpConditions(op), words), words)
  {
    hide Holds64, Parsed, IsCompiled, TermsCovered, DeclaresTerms, OpConditions, Comparisons;
    var texts := OpConditions(op);
    var cs := Conds(u, texts, words);
    forall k | 0 <= k < |cs|
      ensures DeclaresTerms(env, Comparisons(cs[k]), |Comparisons(cs[k])|, words)
      ensures IsCompiled(cs[k]) && TermsCovered(Comparisons(cs[k]), words)
    {
      assert Compiles(u, texts[k], words);
      ConditionDeclaredFor(u, op, k, env, words, values);
    }
  }

  lemma CompiledEvaluable(cs: seq<Condition>)
    requires AllCompiled(cs)
    ensures AllEvaluable(cs)
  {
    forall n | 0 <= n < |cs| ensures Comparisons(cs[n]) != [] {
      CompiledHasTerms(cs[n]);
    }
  }

  lemma AltGuardRuns(u: CharClass, op: Op, words: Scope, values: seq<int>, env: Env, out: seq<string>,
                     globals: seq<string>)
    returns (after: Env)
    requires op.guard.Some? && GuardFits(u, op.guard.value, words) && Declared(u, op, values)
    requires op.guard.value.mode.When? && op.guard.value.alternatives != []
    requires Holds64(env, words, values)
    ensures GuardName(u, op.guard.value, op.index).Some?
    ensures Decides(GuardCode(u, op.guard.value, op.index), globals, env, out,
                    Truth(TakesGuard(u, op.guard.value, words)),
                    GuardName(u, op.guard.value, op.index).value, after)
    ensures KeepsRest(env, after)
  {
    var g := op.guard.value;
    assert GuardTexts(g) == OpConditions(op) == [g.condition] + g.alternatives;
    hide Holds64, AllCompile, Declared, Exec, CompiledAny, TextsVerdict, OpConditions, AltCode, AltName;
    AltConditionsDeclared(u, op, env, words, values);
    VerdictIsAny(u, OpConditions(op), words);
    var cs := Conds(u, OpConditions(op), words);
    CompiledEvaluable(cs);
    hide AllCompiled, AllEvaluable, AllDeclared, AllCovered;
    after := AltRuns(cs, op.index, words, env, out, globals);
    CompiledAnyMeaning(cs, words);
    hide Conds;
    KeepsAltRest(env, after, op.index);
  }

  lemma KeepsAltRest(env: Env, after: Env, i: nat)
    requires KeepsAlt(env, after, i)
    ensures KeepsRest(env, after)
  {
  }

  /** The code of a guard leaves in its name whether the guard is taken. */
  lemma GuardRuns(u: CharClass, op: Op, words: Scope, values: seq<int>, env: Env, out: seq<string>,
                  globals: seq<string>)
    returns (after: Env)
    requires op.guard.Some? && GuardFits(u, op.guard.value, words) && Declared(u, op, values)
    requires Holds64(env, words, values) && (NegatesConjunction(u, op) ==> HasTrue(env))
    ensures GuardName(u, op.guard.value, op.index).Some?
    ensures Decides(GuardCode(u, op.guard.value, op.index), globals, env, out,
                    Truth(TakesGuard(u, op.guard.value, words)),
                    GuardName(u, op.guard.value, op.index).value, after)
    ensures KeepsRest(env, after)
  {
    hide Holds64, Declared, GuardFits, Decides, GuardCode, GuardName, NegatesConjunction, TakesGuard;
    if op.guard.value.mode.When? && op.guard.value.alternatives != [] {
      after := AltGuardRuns(u, op, words, values, env, out, globals);
    } else {
      after := SingleGuardRuns(u, op, words, values, env, out, globals);
    }
  }

  // ---- The body of a step --------------------------------------------------------------

  /** The lines of a step that runs. */
  function OpLines(op: Op): seq<string> {
    ShownLines(Shown(op.index, Span(op.name, Kinds(op.effects))))
  }

  /** What a step prints: its line, with its number and name, and one line for each of its effects. */
  lemma {:induction false} PrintedLines(op: Op)
    ensures |OpLines(op)| == 1 + |op.effects|
    ensures OpLines(op)[0] == "step " + Decimal(op.index) + " " + op.name
    ensures forall k :: 0 <= k < |op.effects| ==>
              OpLines(op)[1 + k] == "effect " + op.name + " " + op.effects[k].Kind()
  {
    hide Effect.Kind;
    PrintedEffects(op.name, op.effects);
  }

  lemma {:induction false} PrintedEffects(name: string, effects: seq<Effect>)
    ensures |EffectLines(name, Kinds(effects))| == |effects|
    ensures forall k :: 0 <= k < |effects| ==>
              EffectLines(name, Kinds(effects))[k] == "effect " + name + " " + effects[k].Kind()
  {
    hide Effect.Kind;
    if effects != [] {
      var n := |effects| - 1;
      PrintedEffects(name, effects[..n]);
      KindsNext(effects, n);
      assert effects[..n + 1] == effects;
    }
  }

  /** C strings end at the first NUL. */
  predicate Printable(op: Op) {
    '\0' !in op.name && forall k :: 0 <= k < |op.effects| ==> '\0' !in op.effects[k].Kind()
  }

  predicate Interned(op: Op, globals: seq<string>) {
    op.name in globals && forall k :: 0 <= k < |op.effects| ==> op.effects[k].Kind() in globals
  }

  /** The step's name and index are at hand. */
  predicate AtHand(op: Op, globals: seq<string>, env: Env) {
    && StepPtr(op.index) in env && env[StepPtr(op.index)] == Ptr(Position(globals, op.name))
    && StepIndex(op.index) in env && env[StepIndex(op.index)] == I32(op.index)
  }

  /** Only results and kind pointers are bound. */
  predicate KeepsCalls(env: Env, after: Env) {
    forall x :: x in env && !x.StepResult? && !x.KindPtr? ==> x in after && after[x] == env[x]
  }

  lemma KindsNext(effects: seq<Effect>, k: nat)
    requires k < |effects|
    ensures Kinds(effects[..k + 1]) == Kinds(effects[..k]) + [effects[k].Kind()]
  {
    OneKind(effects[k]);
    hide Kinds, Effect.Kind;
    KindsConcat(effects[..k], [effects[k]]);
    assert effects[..k + 1] == effects[..k] + [effects[k]];
  }

  lemma OneKind(effect: Effect)
    ensures Kinds([effect]) == [effect.Kind()]
  {
    assert [effect][1..] == [];
  }

  lemma EffectRuns(op: Op, globals: seq<string>, n: nat, env: Env, out: seq<string>) returns (after: Env)
    requires n < |op.effects| && Printable(op) && Interned(op, globals) && AtHand(op, globals, env)
    ensures ExecInstrs([AddressOf(KindPtr(op.index, n), Position(globals, op.effects[n].Kind())),
                        CallEffect(StepPtr(op.index), KindPtr(op.index, n))], globals, Running(env, out))
         == Running(after, out + [EffectLine(op.name, op.effects[n].Kind())])
    ensures KeepsCalls(env, after)
  {
    hide CText, Effect.Kind, EffectLine, ExecInstrs;
    var kind := op.effects[n].Kind();
    var address := AddressOf(KindPtr(op.index, n), Position(globals, kind));
    var call := CallEffect(StepPtr(op.index), KindPtr(op.index, n));
    CTextWhole(op.name);
    CTextWhole(kind);
    after := env[KindPtr(op.index, n) := Ptr(Position(globals, kind))];
    TwoInstrs(address, call, globals, Running(env, out));
    assert HasString(after, StepPtr(op.index), globals) && HasString(after, KindPtr(op.index, n), globals);
  }

  lemma TwoInstrs(a: Instr<Name>, b: Instr<Name>, globals: seq<string>, m: Machine<Name>)
    ensures ExecInstrs([a, b], globals, m) == ExecInstr(b, globals, ExecInstr(a, globals, m))
  {
    hide ExecInstr;
    var next := ExecInstr(a, globals, m);
    assert [a, b][1..] == [b] && [b][1..] == [];
    assert ExecInstrs([b], globals, next) == ExecInstrs([], globals, ExecInstr(b, globals, next));
  }

  lemma KeepsAtHand(op: Op, globals: seq<string>, env: Env, after: Env)
    requires AtHand(op, globals, env) && KeepsCalls(env, after)
    ensures AtHand(op, globals, after)
  {
  }

  lemma KeepsCallsTwice(env: Env, e1: Env, after: Env)
    requires KeepsCalls(env, e1) && KeepsCalls(e1, after)
    ensures KeepsCalls(env, after)
  {
  }

  lemma EffectLinesNext(name: string, effects: seq<Effect>, n: nat)
    requires n < |effects|
    ensures EffectLines(name, Kinds(effects[..n + 1]))
         == EffectLines(name, Kinds(effects[..n])) + [EffectLine(name, effects[n].Kind())]
  {
    KindsNext(effects, n);
    var kinds := Kinds(effects[..n + 1]);
    assert kinds[..|kinds| - 1] == Kinds(effects[..n]);
  }

  lemma {:induction false} EffectsRun(op: Op, globals: seq<string>, n: nat, env: Env, out: seq<string>)
      returns (after: Env)
    requires n <= |op.effects| && Printable(op) && Interned(op, globals) && AtHand(op, globals, env)
    ensures ExecInstrs(EffectCalls(op, globals, n), globals, Running(env, out))
         == Running(after, out + EffectLines(op.name, Kinds(op.effects[..n])))
    ensures KeepsCalls(env, after)
  {
    after := env;
    if n == 0 {
      assert op.effects[..0] == [] && EffectLines(op.name, []) == [] && out + [] == out;
    } else {
      hide Printable, Interned, AtHand, KeepsCalls, ExecInstrs, Kinds, EffectLines;
      var e1 := EffectsRun(op, globals, n - 1, env, out);
      var so := out + EffectLines(op.name, Kinds(op.effects[..n - 1]));
      KeepsAtHand(op, globals, env, e1);
      after := EffectRuns(op, globals, n - 1, e1, so);
      KeepsCallsTwice(env, e1, after);
      ExecInstrsConcat(EffectCalls(op, globals, n - 1),
                       [AddressOf(KindPtr(op.index, n - 1), Position(globals, op.effects[n - 1].Kind())),
                        CallEffect(StepPtr(op.index), KindPtr(op.index, n - 1))], globals, Running(env, out));
      EffectLinesNext(op.name, op.effects, n - 1);
      Assoc(out, EffectLines(op.name, Kinds(op.effects[..n - 1])), [EffectLine(op.name, op.effects[n - 1].Kind())]);
    }
  }

  lemma CallRuns(op: Op, globals: seq<string>, env: Env, out: seq<string>) returns (after: Env)
    requires Printable(op) && Interned(op, globals) && AtHand(op, globals, env)
    ensures ExecInstrs([CallStep(StepResult(op.index), StepPtr(op.index), StepIndex(op.index))], globals,
                       Running(env, out))
         == Running(after, out + [StepLine(op.index, op.name)])
    ensures KeepsCalls(env, after)
  {
    var call := CallStep(StepResult(op.index), StepPtr(op.index), StepIndex(op.index));
    assert [call][1..] == [];
    CTextWhole(op.name);
    after := env[StepResult(op.index) := I32(0)];
  }

  /** The body of a step prints its lines. */
  lemma BodyRuns(op: Op, globals: seq<string>, env: Env, out: seq<string>) returns (after: Env)
    requires Printable(op) && Interned(op, globals) && AtHand(op, globals, env)
    ensures ExecInstrs(OpBody(op, globals), globals, Running(env, out)) == Running(after, out + OpLines(op))
    ensures KeepsCalls(env, after)
  {
    hide Printable, Interned, AtHand, KeepsCalls, ExecInstrs, Kinds, EffectLines, EffectCalls;
    var call := [CallStep(StepResult(op.index), StepPtr(op.index), StepIndex(op.index))];
    var e1 := CallRuns(op, globals, env, out);
    KeepsAtHand(op, globals, env, e1);
    var so := out + [StepLine(op.index, op.name)];
    after := EffectsRun(op, globals, |op.effects|, e1, so);
    assert op.effects[..|op.effects|] == op.effects;
    KeepsCallsTwice(env, e1, after);
    ExecInstrsConcat(call, EffectCalls(op, globals, |op.effects|), globals, Running(env, out));
    Assoc(out, [StepLine(op.index, op.name)], EffectLines(op.name, Kinds(op.effects)));
  }

  lemma {:induction false} DoAllRuns(body: Render.Body, globals: seq<string>, m: Machine<Name>)
    ensures Exec(DoAll(body), globals, m) == ExecInstrs(body, globals, m)
  {
    if body != [] {
      hide ExecInstr;
      assert DoAll(body)[1..] == DoAll(body[1..]);
      var next := ExecInstr(body[0], globals, m);
      DoAllRuns(body[1..], globals, next);
      HaltedInstr(body[0], globals, m);
    }
  }

  lemma HaltedInstr(i: Instr<Name>, globals: seq<string>, m: Machine<Name>)
    ensures ExecLine(Do(i), globals, m) == ExecInstr(i, globals, m)
  {
  }

  // ---- One op --------------------------------------------------------------------------

  lemma HeadOfOpRuns(op: Op, globals: seq<string>, env: Env, out: seq<string>) returns (after: Env)
    ensures Exec(OpHead(op, globals), globals, Running(env, out)) == Running(after, out)
    ensures AtHand(op, globals, after)
    ensures forall x :: x in env && !x.StepPtr? && !x.StepIndex? ==> x in after && after[x] == env[x]
  {
    TwoRun(Do(AddressOf(StepPtr(op.index), Position(globals, op.name))), Do(Const32(StepIndex(op.index), op.index)),
           globals, Running(env, out));
    after := env[StepPtr(op.index) := Ptr(Position(globals, op.name))][StepIndex(op.index) := I32(op.index)];
  }

  /** An op that fits the fragment. */
  predicate OpFits(u: CharClass, op: Op, words: Scope, values: seq<int>, globals: seq<string>) {
    && Printable(op) && Interned(op, globals)
    && (op.guard.Some? ==> GuardFits(u, op.guard.value, words) && Declared(u, op, values))
  }

  predicate OpTaken(u: CharClass, op: Op, words: Scope) {
    op.guard.None? || TakesGuard(u, op.guard.value, words)
  }

  lemma UnguardedRuns(u: CharClass, op: Op, globals: seq<string>, env: Env, out: seq<string>) returns (after: Env)
    requires op.guard.None? && Printable(op) && Interned(op, globals) && AtHand(op, globals, env)
    ensures Exec(OpTail(u, op, globals), globals, Running(env, out)) == Running(after, out + OpLines(op))
    ensures KeepsBase(env, after)
  {
    hide Printable, Interned, AtHand, OpBody, DoAll, OpLines;
    after := BodyRuns(op, globals, env, out);
    DoAllRuns(OpBody(op, globals), globals, Running(env, out));
  }

  lemma IfRuns(name: Name, op: Op, globals: seq<string>, taken: bool, env: Env, out: seq<string>)
    requires Printable(op) && Interned(op, globals) && AtHand(op, globals, env)
    requires name in env && env[name] == Bit(taken)
    ensures Exec([If(name, OpBody(op, globals))], globals, Running(env, out))
         == Running(env, if taken then out + OpLines(op) else out)
  {
    hide Printable, Interned, AtHand, OpBody, OpLines, ExecInstrs;
    ExecOne(If(name, OpBody(op, globals)), globals, Running(env, out));
    var inner := BodyRuns(op, globals, env, out);
  }

  lemma KeepsRestAtHand(op: Op, globals: seq<string>, env: Env, after: Env)
    requires AtHand(op, globals, env) && KeepsRest(env, after)
    ensures AtHand(op, globals, after) && KeepsBase(env, after)
  {
  }

  lemma GuardedRuns(u: CharClass, op: Op, words: Scope, values: seq<int>, globals: seq<string>, env: Env,
                    out: seq<string>)
    returns (after: Env)
    requires op.guard.Some? && OpFits(u, op, words, values, globals) && AtHand(op, globals, env)
    requires Holds64(env, words, values) && (NegatesConjunction(u, op) ==> HasTrue(env))
    ensures Exec(OpTail(u, op, globals), globals, Running(env, out))
         == Running(after, if OpTaken(u, op, words) then out + OpLines(op) else out)
    ensures KeepsBase(env, after)
  {
    hide Printable, Interned, AtHand, OpBody, OpLines, GuardFits, Declared, Holds64, NegatesConjunction, GuardCode,
         GuardName, KeepsRest, KeepsBase, Exec, TakesGuard;
    var g := op.guard.value;
    after := GuardRuns(u, op, words, values, env, out, globals);
    KeepsRestAtHand(op, globals, env, after);
    var name := GuardName(u, g, op.index);
    IfRuns(name.value, op, globals, TakesGuard(u, g, words), after, out);
    ExecConcat(GuardCode(u, g, op.index), [If(name.value, OpBody(op, globals))], globals, Running(env, out));
  }

  lemma OpRuns(u: CharClass, op: Op, words: Scope, values: seq<int>, globals: seq<string>, env: Env, out: seq<string>)
    returns (after: Env)
    requires OpFits(u, op, words, values, globals)
    requires Holds64(env, words, values) && (NegatesConjunction(u, op) ==> HasTrue(env))
    ensures Exec(OpCode(u, op, globals), globals, Running(env, out))
         == Running(after, if OpTaken(u, op, words) then out + OpLines(op) else out)
    ensures KeepsBase(env, after)
  {
    hide Printable, Interned, AtHand, OpLines, GuardFits, Declared, NegatesConjunction, OpTail, OpHead, Exec,
         TakesGuard;
    var e1 := HeadOfOpRuns(op, globals, env, out);
    assert KeepsBase(env, e1);
    BaseHolds(env, e1, words, values);
    hide KeepsBase, Holds64, HasTrue;
    if op.guard.None? {
      after := UnguardedRuns(u, op, globals, e1, out);
    } else {
      after := GuardedRuns(u, op, words, values, globals, e1, out);
    }
    KeepsBaseTwice(env, e1, after);
    ExecConcat(OpHead(op, globals), OpTail(u, op, globals), globals, Running(env, out));
  }

  lemma BaseHolds(env: Env, after: Env, words: Scope, values: seq<int>)
    requires KeepsBase(env, after) && Holds64(env, words, values)
    ensures Holds64(after, words, values) && (HasTrue(env) ==> HasTrue(after))
  {
    forall r | r in words ensures Field(r) in after && after[Field(r)] == I64(words[r]) {
      assert Field(r).Field?;
    }
    forall v | v in values ensures DeclaresConst(after, v) {
      assert LitConst(v).LitConst?;
    }
  }

  lemma KeepsBaseTwice(env: Env, e1: Env, after: Env)
    requires KeepsBase(env, e1) && KeepsBase(e1, after)
    ensures KeepsBase(env, after)
  {
  }

  // ---- The module ----------------------------------------------------------------------

  predicate AllFit(u: CharClass, ops: seq<Op>, words: Scope, values: seq<int>, globals: seq<string>) {
    forall k :: 0 <= k < |ops| ==> OpFits(u, ops[k], words, values, globals)
  }

  /** What the first `k` ops print. */
  function OutLines(u: CharClass, ops: seq<Op>, words: Scope, k: nat): seq<string>
    requires k <= |ops|
  {
    if k == 0 then []
    else OutLines(u, ops, words, k - 1) + if OpTaken(u, ops[k - 1], words) then OpLines(ops[k - 1]) else []
  }

  lemma NoOpsRun(u: CharClass, ops: seq<Op>, words: Scope, globals: seq<string>, env: Env)
    ensures Exec(OpsCode(u, ops, globals, 0), globals, Running(env, [])) == Running(env, OutLines(u, ops, words, 0))
    ensures KeepsBase(env, env)
  {
  }

  lemma LastOpRuns(u: CharClass, ops: seq<Op>, k: nat, words: Scope, values: seq<int>, globals: seq<string>, env: Env,
                   e1: Env)
    returns (after: Env)
    requires 0 < k <= |ops| && AllFit(u, ops, words, values, globals)
    requires Holds64(env, words, values) && (NeedsTrue(u, ops) ==> HasTrue(env))
    requires Exec(OpsCode(u, ops, globals, k - 1), globals, Running(env, []))
             == Running(e1, OutLines(u, ops, words, k - 1))
    requires KeepsBase(env, e1)
    ensures Exec(OpsCode(u, ops, globals, k), globals, Running(env, [])) == Running(after, OutLines(u, ops, words, k))
    ensures KeepsBase(env, after)
  {
    hide OpFits, Holds64, HasTrue, KeepsBase, OpCode, OpLines, OpTaken, Exec, NegatesConjunction;
    var op, out := ops[k - 1], OutLines(u, ops, words, k - 1);
    BaseHolds(env, e1, words, values);
    assert NegatesConjunction(u, op) ==> NeedsTrue(u, ops);
    after := OpRuns(u, op, words, values, globals, e1, out);
    KeepsBaseTwice(env, e1, after);
    ExecConcat(OpsCode(u, ops, globals, k - 1), OpCode(u, op, globals), globals, Running(env, []));
    assert out + [] == out;
  }

  lemma {:induction false} OpsRun(u: CharClass, ops: seq<Op>, k: nat, words: Scope, values: seq<int>,
                                  globals: seq<string>, env: Env)
    returns (after: Env)
    requires k <= |ops| && AllFit(u, ops, words, values, globals)
    requires Holds64(env, words, values) && (NeedsTrue(u, ops) ==> HasTrue(env))
    ensures Exec(OpsCode(u, ops, globals, k), globals, Running(env, [])) == Running(after, OutLines(u, ops, words, k))
    ensures KeepsBase(env, after)
  {
    hide *;
    if k == 0 {
      NoOpsRun(u, ops, words, globals, env);
      after := env;
    } else {
      var e1 := OpsRun(u, ops, k - 1, words, values, globals, env);
      after := LastOpRuns(u, ops, k, words, values, globals, env, e1);
    }
  }
}
