/** Mode A and mode B observed side by side (`verify`, `observe_mode_a`, `observe_mode_b` and
    `compare_observations` in `impl/lnpl/differential.py`), and the equivalence of the two. Mode A
    plays the compiled stream (`StreamTellsTree`), mode B reads the compiled stream (`StreamRead`),
    and the two meet in `ModesAgree`. `ObserveModeB` is the code of mode B from the node table to
    the parsed output. */
module Differential {
  import opened Wrappers
  import opened Text
  import opened Conditions
  import opened ConditionSyntax
  import opened Evaluation
  import opened Machine
  import opened GuardEmit
  import opened GuardCorrect
  import opened Workflow
  import opened Flattening
  import opened Attempts
  import opened Blocks
  import opened Interp
  import opened Events
  import opened SkipGrain
  import opened GuardMeaning
  import opened Ownership
  import opened TableWalk
  import opened Retry
  import opened RetryTrace
  import opened Ops
  import opened Prediction
  import opened StreamRun
  import opened AttemptClock
  import opened Deadline
  import opened Render
  import opened RenderCorrect
  import opened Trace
  import opened SsaForm
  import opened SpelledRun
  import opened Build

  // ---- The two observations ------------------------------------------------------------

  /** What the two modes are compared on. */
  datatype Compared = Compared(order: seq<string>, effects: Effects, status: string, skips: seq<SkipEntry>)

  function StatusWord(failed: bool): string {
    if failed then "failed" else "completed"
  }

  /** `observe_mode_a`, of a run that has a result. */
  function ObserveA(run: Run): Compared {
    var o := AddSpans(NOTHING, run.spans);
    Compared(o.order, o.effects, StatusWord(run.status.Failed?), NormaliseSkips(run.skips))
  }

  /** What a compiled stream says would be observed. */
  function ObserveStream(stream: Stream, takes: Outcomes): Compared {
    var o := AddSpans(NOTHING, OpSpans(stream.ops, takes));
    Compared(o.order, o.effects, StatusWord(stream.failed), OpSkips(stream.ops, takes))
  }

  /** The lines of the binary's standard output: the trace that the emitted text prints, its
      parameters bound by position, and the shim's status line. `None` when there is no binary, because
      text and shim do not build, and when the run faults. `reserved` are the words that the compiler's
      dialect and headers take besides the keywords. */
  function RunBinary(m: StdModule, fields: seq<string>, words: Scope, skip: int, brk: char -> bool,
                     reserved: set<string>): Option<seq<string>> {
    var end := Exec(SpellCode(m.code), m.globals, Running(BoundParams(fields, Args(fields, words), skip), []));
    if !Builds(SpellCode(m.code), fields, reserved) || !end.Running? then None
    else Some(SplitLines(Stdout(end.out + ["status " + StatusWord(m.failed)]), brk))
  }

  /** `observe_mode_b`. */
  function ObserveB(ops: seq<Op>, lines: seq<string>): Option<Compared> {
    var o := ReadLines(NOTHING, lines);
    if o.status.None? then None
    else Some(Compared(o.order, o.effects, o.status.value, Restored(ops, RanOf(lines))))
  }

  // ---- The conditions ------------------------------------------------------------------

  /** Every guard of the body has a compiled evaluator and does not fault. */
  predicate AllGuardsFit(body: Workflow.Body, u: CharClass, words: Scope) {
    match body
    case Done => true
    case StepItem(_, rest) => AllGuardsFit(rest, u, words)
    case GroupItem(kids, rest) => AllGuardsFit(kids, u, words) && AllGuardsFit(rest, u, words)
    case ParallelItem(kids, rest) => AllGuardsFit(kids, u, words) && AllGuardsFit(rest, u, words)
    case RepeatItem(_, kids, rest) => AllGuardsFit(kids, u, words) && AllGuardsFit(rest, u, words)
    case GuardItem(g, kids, rest) =>
      GuardFits(u, g, words) && AllGuardsFit(kids, u, words) && AllGuardsFit(rest, u, words)
  }

  /** The line boundaries: newline, and none of the characters the trace is written with. */
  ghost predicate SaneBreaks(brk: char -> bool) {
    && brk('\n') && !brk(' ')
    && (forall c :: 'a' <= c <= 'z' || IsDigit(c) ==> !brk(c))
  }

  /** Text that survives C strings and lines. */
  predicate OneLine(s: string, brk: char -> bool) {
    '\0' !in s && NoneOf(s, brk)
  }

  predicate CleanStep(step: Step, brk: char -> bool) {
    && OneLine(step.name, brk)
    && forall k :: 0 <= k < |step.effects| ==>
         OneLine(step.effects[k].Kind(), brk) && ' ' !in step.effects[k].Kind()
  }

  predicate CleanSteps(steps: seq<Step>, brk: char -> bool) {
    forall k :: 0 <= k < |steps| ==> CleanStep(steps[k], brk)
  }

  // ---- From the body to the op stream --------------------------------------------------

  lemma {:induction false} FitDecided(body: Workflow.Body, inp: Inputs)
    requires AllGuardsFit(body, inp.u, inp.scope)
    ensures Decided(body, inp)
  {
    match body
    case Done =>
    case StepItem(_, rest) => FitDecided(rest, inp);
    case GroupItem(kids, rest) => FitDecided(kids, inp); FitDecided(rest, inp);
    case ParallelItem(kids, rest) => FitDecided(kids, inp); FitDecided(rest, inp);
    case RepeatItem(_, kids, rest) => FitDecided(kids, inp); FitDecided(rest, inp);
    case GuardItem(_, kids, rest) => FitDecided(kids, inp); FitDecided(rest, inp);
  }

  predicate FlatsFit(flats: seq<Flat>, u: CharClass, words: Scope) {
    forall k :: 0 <= k < |flats| ==> flats[k].guard.Some? ==> GuardFits(u, flats[k].guard.value, words)
  }

  lemma {:induction false} TimesFit(flats: seq<Flat>, n: nat, u: CharClass, words: Scope)
    requires FlatsFit(flats, u, words)
    ensures FlatsFit(Times(flats, n), u, words)
  {
    if n > 0 {
      TimesFit(flats, n - 1, u, words);
    }
  }

  lemma {:induction false} FlattenFits(body: Workflow.Body, u: CharClass, words: Scope)
    requires AllGuardsFit(body, u, words)
    ensures FlatsFit(Flatten(body), u, words)
  {
    hide GuardFits;
    match body
    case Done =>
    case StepItem(_, rest) =>
      FlattenFits(rest, u, words);
    case GroupItem(kids, rest) =>
      FlattenFits(kids, u, words);
      FlattenFits(rest, u, words);
    case ParallelItem(kids, rest) =>
      FlattenFits(kids, u, words);
      FlattenFits(rest, u, words);
    case RepeatItem(count, kids, rest) =>
      FlattenFits(kids, u, words);
      FlattenFits(rest, u, words);
      TimesFit(Flatten(kids), count, u, words);
    case GuardItem(g, kids, rest) =>
      FlattenFits(rest, u, words);
      TimesFit(Tag(Flatten(kids), g), GuardCopies(g), u, words);
  }

  /** An op of the stream is its entry, with effects of that entry only. */
  predicate FromEntry(op: Op, f: Flat) {
    && op.name == f.step.name && op.guard == f.guard
    && forall k :: 0 <= k < |op.effects| ==> op.effects[k] in f.step.effects
  }

  lemma {:induction false} TimesMember<T>(xs: seq<T>, n: nat)
    ensures forall k :: 0 <= k < |Times(xs, n)| ==> Times(xs, n)[k] in xs
  {
    if n > 0 {
      TimesMember(xs, n - 1);
    }
  }

  lemma StreamFromPlan(flats: seq<Flat>, seeded: Store, cfg: Config)
    ensures var ops := StreamOf(flats, seeded, cfg).ops;
            |ops| <= |flats| && forall k :: 0 <= k < |ops| ==> FromEntry(ops[k], flats[k])
  {
    hide FirstFailure, StaticAttempts, RoundOf, Times;
    var cut := FirstFailure(flats, 0, seeded, cfg);
    if cut.Some? {
      var effects := flats[cut.value.entry].step.effects;
      var attempts := StaticAttempts(effects, cut.value.failAt, cut.value.entry, cfg.retry, cfg.timeout);
      TimesMember(effects[..cut.value.failAt + 1], attempts);
    }
  }

  // ---- Strings of the module -----------------------------------------------------------

  lemma {:induction false} AddTextsHolds(texts: seq<string>, more: seq<string>)
    ensures forall t :: t in texts || t in more ==> t in AddTexts(texts, more)
    decreases more
  {
    if more != [] {
      AddTextsHolds(AddText(texts, more[0]), more[1..]);
      assert more == [more[0]] + more[1..];
    }
  }

  lemma {:induction false} GlobalsHold(texts: seq<string>, ops: seq<Op>)
    ensures forall t :: t in texts ==> t in Globals(texts, ops)
    ensures forall k, t :: 0 <= k < |ops| && t in OpTexts(ops[k]) ==> t in Globals(texts, ops)
    decreases ops
  {
    if ops != [] {
      hide OpTexts, AddTexts;
      var next := AddTexts(texts, OpTexts(ops[0]));
      AddTextsHolds(texts, OpTexts(ops[0]));
      GlobalsHold(next, ops[1..]);
      forall k, t | 0 <= k < |ops| && t in OpTexts(ops[k]) ensures t in Globals(texts, ops) {
        if k > 0 {
          assert ops[k] == ops[1..][k - 1];
        }
      }
    }
  }

  lemma {:induction false} KindIsText(effects: seq<Effect>, k: nat)
    requires k < |effects|
    ensures effects[k].Kind() in Kinds(effects)
  {
    hide Effect.Kind;
    if k > 0 {
      KindIsText(effects[1..], k - 1);
    }
  }

  lemma OpInterned(ops: seq<Op>, k: nat)
    requires k < |ops|
    ensures Interned(ops[k], Globals([], ops))
  {
    hide Globals, Effect.Kind;
    GlobalsHold([], ops);
    assert ops[k].name in OpTexts(ops[k]);
    forall j | 0 <= j < |ops[k].effects| ensures ops[k].effects[j].Kind() in Globals([], ops) {
      KindIsText(ops[k].effects, j);
      assert ops[k].effects[j].Kind() in OpTexts(ops[k]);
    }
  }

  lemma OpIsPrintable(op: Op, f: Flat, brk: char -> bool)
    requires FromEntry(op, f) && CleanStep(f.step, brk)
    ensures Printable(op) && SpaceFree(Kinds(op.effects)) && OneLine(op.name, brk)
    ensures forall k :: 0 <= k < |op.effects| ==> OneLine(Kinds(op.effects)[k], brk)
  {
    hide Effect.Kind, OneLine;
    forall k | 0 <= k < |op.effects|
      ensures OneLine(op.effects[k].Kind(), brk) && ' ' !in op.effects[k].Kind()
      ensures Kinds(op.effects)[k] == op.effects[k].Kind()
    {
      var j :| 0 <= j < |f.step.effects| && f.step.effects[j] == op.effects[k];
      assert OneLine(f.step.effects[j].Kind(), brk);
      KindAt(op.effects, k);
    }
    NoNul(op, brk);
  }

  lemma NoNul(op: Op, brk: char -> bool)
    requires OneLine(op.name, brk) && forall k :: 0 <= k < |op.effects| ==> OneLine(op.effects[k].Kind(), brk)
    ensures Printable(op)
  {
  }

  lemma {:induction false} KindAt(effects: seq<Effect>, k: nat)
    requires k < |effects|
    ensures Kinds(effects)[k] == effects[k].Kind()
  {
    hide Effect.Kind;
    if k > 0 {
      KindAt(effects[1..], k - 1);
    }
  }

  // ---- The lines of a run --------------------------------------------------------------

  /** The steps that the first `k` ops show. */
  function ShownOps(ops: seq<Op>, takes: Outcomes, k: nat): seq<Shown>
    requires k <= |ops|
  {
    if k == 0 then []
    else
      ShownOps(ops, takes, k - 1)
      + if Taken(ops[k - 1], takes) then [Shown(ops[k - 1].index, Span(ops[k - 1].name, Kinds(ops[k - 1].effects)))]
          else []
  }

  lemma ShownSnoc(run: seq<Shown>, last: Shown)
    ensures AllLines(run + [last]) == AllLines(run) + ShownLines(last)
    ensures SpansOf(run + [last]) == SpansOf(run) + [last.span]
    ensures IndicesOf(run + [last]) == IndicesOf(run) + {Decimal(last.index)}
  {
    assert (run + [last])[..|run|] == run;
  }

  lemma TakenAlike(op: Op, inp: Inputs)
    ensures OpTaken(inp.u, op, inp.scope) == Taken(op, Takes(inp))
  {
    hide GuardVerdict;
  }

  lemma LinesOfNext(ops: seq<Op>, takes: Outcomes, k: nat)
    requires 0 < k <= |ops|
    ensures AllLines(ShownOps(ops, takes, k))
         == AllLines(ShownOps(ops, takes, k - 1)) + if Taken(ops[k - 1], takes) then OpLines(ops[k - 1]) else []
  {
    hide AllLines, ShownLines, Kinds, Taken;
    var op, run := ops[k - 1], ShownOps(ops, takes, k - 1);
    if Taken(op, takes) {
      ShownSnoc(run, Shown(op.index, Span(op.name, Kinds(op.effects))));
    } else {
      assert run + [] == run && AllLines(run) + [] == AllLines(run);
    }
  }

  lemma OutNext(u: CharClass, ops: seq<Op>, words: Scope, k: nat)
    requires 0 < k <= |ops|
    ensures OutLines(u, ops, words, k)
         == OutLines(u, ops, words, k - 1) + if OpTaken(u, ops[k - 1], words) then OpLines(ops[k - 1]) else []
  {
    hide OpLines, OpTaken;
  }

  lemma OutFirst(u: CharClass, ops: seq<Op>, words: Scope, takes: Outcomes)
    ensures OutLines(u, ops, words, 0) == AllLines(ShownOps(ops, takes, 0))
  {
    assert AllLines([]) == [];
  }

  lemma {:induction false} OutIsShown(ops: seq<Op>, inp: Inputs, k: nat)
    requires k <= |ops|
    ensures OutLines(inp.u, ops, inp.scope, k) == AllLines(ShownOps(ops, Takes(inp), k))
  {
    hide *;
    if k > 0 {
      OutIsShown(ops, inp, k - 1);
      OutNext(inp.u, ops, inp.scope, k);
      TakenAlike(ops[k - 1], inp);
      LinesOfNext(ops, Takes(inp), k);
    } else {
      OutFirst(inp.u, ops, inp.scope, Takes(inp));
    }
  }

  lemma {:induction false} OpSpansSnoc(ops: seq<Op>, op: Op, takes: Outcomes)
    ensures OpSpans(ops + [op], takes)
         == OpSpans(ops, takes) + if Taken(op, takes) then [Span(op.name, Kinds(op.effects))] else []
  {
    hide Taken, Kinds;
    if ops == [] {
      assert [] + [op] == [op] && [op][1..] == [];
    } else {
      assert (ops + [op])[1..] == ops[1..] + [op];
      OpSpansSnoc(ops[1..], op, takes);
      Assoc(if Taken(ops[0], takes) then [Span(ops[0].name, Kinds(ops[0].effects))] else [],
            OpSpans(ops[1..], takes), if Taken(op, takes) then [Span(op.name, Kinds(op.effects))] else []);
    }
  }

  lemma {:induction false} ShownSpans(ops: seq<Op>, takes: Outcomes, k: nat)
    requires k <= |ops|
    ensures SpansOf(ShownOps(ops, takes, k)) == OpSpans(ops[..k], takes)
  {
    if k > 0 {
      hide Taken, Kinds, SpansOf, OpSpans;
      ShownSpans(ops, takes, k - 1);
      assert ops[..k] == ops[..k - 1] + [ops[k - 1]];
      OpSpansSnoc(ops[..k - 1], ops[k - 1], takes);
      var run := ShownOps(ops, takes, k - 1);
      assert run + [] == run && SpansOf(run) + [] == SpansOf(run);
      ShownSnoc(run, Shown(ops[k - 1].index, Span(ops[k - 1].name, Kinds(ops[k - 1].effects))));
    } else {
      assert ops[..0] == [] && SpansOf([]) == [];
    }
  }

  lemma {:induction false} ShownIndices(ops: seq<Op>, takes: Outcomes, k: nat)
    requires k <= |ops|
    ensures IndicesOf(ShownOps(ops, takes, k)) == Printed(ops[..k], takes)
  {
    if k > 0 {
      hide Taken, Kinds, IndicesOf;
      ShownIndices(ops, takes, k - 1);
      PrintedSnoc(ops, takes, k);
      var run := ShownOps(ops, takes, k - 1);
      assert run + [] == run;
      ShownSnoc(run, Shown(ops[k - 1].index, Span(ops[k - 1].name, Kinds(ops[k - 1].effects))));
    }
  }

  lemma PrintedSnoc(ops: seq<Op>, takes: Outcomes, k: nat)
    requires 0 < k <= |ops|
    ensures Printed(ops[..k], takes)
         == Printed(ops[..k - 1], takes) + if Taken(ops[k - 1], takes) then {Decimal(ops[k - 1].index)} else {}
  {
    hide Taken;
    var all, init := ops[..k], ops[..k - 1];
    assert forall j :: 0 <= j < k - 1 ==> all[j] == init[j];
    assert all[k - 1] == ops[k - 1];
    forall s | s in Printed(init, takes) ensures s in Printed(all, takes) {
      var j :| 0 <= j < |init| && Taken(init[j], takes) && Decimal(init[j].index) == s;
      assert Taken(all[j], takes);
    }
  }

  // ---- Lines without boundaries --------------------------------------------------------

  lemma NoneOfConcat(a: string, b: string, brk: char -> bool)
    requires NoneOf(a, brk) && NoneOf(b, brk)
    ensures NoneOf(a + b, brk)
  {
  }

  lemma WordHasNoBreak(s: string, brk: char -> bool)
    requires SaneBreaks(brk) && forall k :: 0 <= k < |s| ==> s[k] == ' ' || 'a' <= s[k] <= 'z' || IsDigit(s[k])
    ensures NoneOf(s, brk)
  {
  }

  lemma StepLineClean(index: nat, name: string, brk: char -> bool)
    requires SaneBreaks(brk) && NoneOf(name, brk)
    ensures NoneOf(StepLine(index, name), brk)
  {
    WordHasNoBreak("step ", brk);
    WordHasNoBreak(Decimal(index), brk);
    WordHasNoBreak(" ", brk);
    NoneOfConcat("step ", Decimal(index), brk);
    NoneOfConcat("step " + Decimal(index), " ", brk);
    NoneOfConcat("step " + Decimal(index) + " ", name, brk);
  }

  lemma EffectLineClean(name: string, kind: string, brk: char -> bool)
    requires SaneBreaks(brk) && NoneOf(name, brk) && NoneOf(kind, brk)
    ensures NoneOf(EffectLine(name, kind), brk)
  {
    WordHasNoBreak("effect ", brk);
    WordHasNoBreak(" ", brk);
    NoneOfConcat("effect ", name, brk);
    NoneOfConcat("effect " + name, " ", brk);
    NoneOfConcat("effect " + name + " ", kind, brk);
  }

  predicate AllNoneOf(lines: seq<string>, brk: char -> bool) {
    forall k :: 0 <= k < |lines| ==> NoneOf(lines[k], brk)
  }

  lemma {:induction false} EffectLinesClean(name: string, kinds: seq<string>, brk: char -> bool)
    requires SaneBreaks(brk) && NoneOf(name, brk) && AllNoneOf(kinds, brk)
    ensures AllNoneOf(EffectLines(name, kinds), brk)
  {
    if kinds != [] {
      hide SaneBreaks, NoneOf, EffectLine;
      EffectLinesClean(name, kinds[..|kinds| - 1], brk);
      EffectLineClean(name, kinds[|kinds| - 1], brk);
    }
  }

  predicate CleanShown(shown: Shown, brk: char -> bool) {
    NoneOf(shown.span.name, brk) && AllNoneOf(shown.span.kinds, brk) && SpaceFree(shown.span.kinds)
  }

  lemma {:induction false} LinesClean(run: seq<Shown>, brk: char -> bool)
    requires SaneBreaks(brk) && forall k :: 0 <= k < |run| ==> CleanShown(run[k], brk)
    ensures AllNoneOf(AllLines(run), brk)
  {
    if run != [] {
      hide SaneBreaks, NoneOf, EffectLines, StepLine;
      var last := run[|run| - 1];
      LinesClean(run[..|run| - 1], brk);
      assert CleanShown(last, brk);
      StepLineClean(last.index, last.span.name, brk);
      EffectLinesClean(last.span.name, last.span.kinds, brk);
    }
  }

  lemma ShownOpClean(op: Op, f: Flat, brk: char -> bool)
    requires FromEntry(op, f) && CleanStep(f.step, brk)
    ensures CleanShown(Shown(op.index, Span(op.name, Kinds(op.effects))), brk)
  {
    hide FromEntry, CleanStep, SpaceFree, Kinds;
    OpIsPrintable(op, f, brk);
  }

  lemma {:induction false} ShownClean(ops: seq<Op>, flats: seq<Flat>, takes: Outcomes, brk: char -> bool, k: nat)
    requires k <= |ops| <= |flats|
    requires forall j :: 0 <= j < |ops| ==> FromEntry(ops[j], flats[j]) && CleanStep(flats[j].step, brk)
    ensures forall j :: 0 <= j < |ShownOps(ops, takes, k)| ==> CleanShown(ShownOps(ops, takes, k)[j], brk)
  {
    if k > 0 {
      hide FromEntry, CleanStep, Taken, CleanShown, Kinds;
      ShownClean(ops, flats, takes, brk, k - 1);
      ShownOpClean(ops[k - 1], flats[k - 1], brk);
    }
  }

  // ---- Mode A --------------------------------------------------------------------------

  /** What mode A needs to play the compiled stream: a body of permitted shape, an executor that
      finishes its blocks, no failing step in a block, a run the scan foresees, its driver faults and
      rewritten rows included, a failing step that leaves the same trace every time, and a run that is
      on time. */
  ghost predicate Tellable(body: Workflow.Body, inp: Inputs, store: Store) {
    && WellShaped(body) && Settles(inp)
    && BlocksCalm(body, Takes(inp), inp.cfg, Observe(Started(store)))
    && Predictable(Flatten(body), 0, store, {}, inp.cfg) && CutRepeats(Flatten(body), 0, store, inp.cfg)
    && OnTime(Flatten(body), 0, store, 0, Takes(inp), inp.cfg)
  }

  /** The interpreter's run of the tree is what the compiled stream tells. */
  lemma StreamTellsTree(body: Workflow.Body, inp: Inputs, store: Store)
    requires Decided(body, inp) && Tellable(body, inp, store)
    ensures ObserveA(RunWorkflow(body, inp, store))
            == ObserveStream(StreamOf(Flatten(body), store, inp.cfg), Takes(inp))
  {
    hide Decided, Predictable, CutRepeats, OnTime, Takes, StreamOf, OpSpans, OpSkips, Flatten, RunBody, BlocksCalm,
         Settles, WellShaped, AddSpans;
    DeadlineExactly(body, inp, store);
  }

  // ---- Mode B --------------------------------------------------------------------------

  /** The stream's ops print their lines. */
  lemma StreamPrints(ops: seq<Op>, failed: bool, inp: Inputs, values: seq<int>, skip: int)
    requires AllFit(inp.u, ops, inp.scope, values, Globals([], ops))
    ensures var m := ModuleOf(inp.u, Stream(ops, failed), values);
            var end := Exec(m.code, m.globals, Running(ParamEnv(inp.scope, skip), []));
            end.Running? && end.out == AllLines(ShownOps(ops, Takes(inp), |ops|))
  {
    hide AllFit, Globals, Exec, PreludeCode, OpsCode, NeedsTrue, ParamEnv, AllLines, ShownOps, Takes, OutLines, Holds64,
         HasTrue;
    var globals := Globals([], ops);
    var env := PreludeRuns(values, NeedsTrue(inp.u, ops), inp.scope, skip, globals);
    var after := OpsRun(inp.u, ops, |ops|, inp.scope, values, globals, env);
    ExecConcat(PreludeCode(values, NeedsTrue(inp.u, ops)), OpsCode(inp.u, ops, globals, |ops|), globals,
               Running(ParamEnv(inp.scope, skip), []));
    OutIsShown(ops, inp, |ops|);
  }

  lemma StreamFits(flats: seq<Flat>, store: Store, inp: Inputs, values: seq<int>, brk: char -> bool)
    requires FlatsFit(flats, inp.u, inp.scope) && forall k :: 0 <= k < |flats| ==> CleanStep(flats[k].step, brk)
    requires forall v :: v in AllLiterals(inp.u, StreamOf(flats, store, inp.cfg).ops) ==> v in values
    ensures var ops := StreamOf(flats, store, inp.cfg).ops;
            AllFit(inp.u, ops, inp.scope, values, Globals([], ops))
  {
    hide StreamOf, GuardFits, CleanStep, AllLiterals, Globals, Printable, Interned, Declared;
    var ops := StreamOf(flats, store, inp.cfg).ops;
    StreamFromPlan(flats, store, inp.cfg);
    forall k | 0 <= k < |ops| ensures OpFits(inp.u, ops[k], inp.scope, values, Globals([], ops)) {
      assert FromEntry(ops[k], flats[k]);
      OpIsPrintable(ops[k], flats[k], brk);
      OpInterned(ops, k);
      OpDeclared(inp.u, ops, k, values);
    }
  }

  lemma StatusLine(failed: bool, brk: char -> bool)
    requires SaneBreaks(brk)
    ensures NoneOf("status " + StatusWord(failed), brk) && ' ' !in StatusWord(failed)
    ensures RanOf(["status " + StatusWord(failed)]) == {}
  {
    WordHasNoBreak("status " + StatusWord(failed), brk);
    StatusParts(StatusWord(failed));
    hide Parts;
    RanOne("status " + StatusWord(failed));
  }

  /** Reading back the output of a run that showed `run`. */
  lemma OutputReadsBack(run: seq<Shown>, failed: bool, brk: char -> bool)
    requires SaneBreaks(brk) && forall k :: 0 <= k < |run| ==> CleanShown(run[k], brk)
    ensures var lines := AllLines(run) + ["status " + StatusWord(failed)];
            && SplitLines(Stdout(lines), brk) == lines
            && ReadLines(NOTHING, lines) == AddSpans(NOTHING, SpansOf(run)).(status := Some(StatusWord(failed)))
            && RanOf(lines) == IndicesOf(run)
  {
    hide Stdout, SplitLines, ReadLine, ReadLines, RanOf, AllLines, SpansOf, IndicesOf, AddSpans, SaneBreaks, StatusWord;
    var line := "status " + StatusWord(failed);
    StatusLine(failed, brk);
    LinesClean(run, brk);
    assert AllSpaceFree(run) by {
      forall k | 0 <= k < |run| ensures SpaceFree(run[k].span.kinds) {
        assert CleanShown(run[k], brk);
      }
    }
    hide CleanShown, AllSpaceFree;
    LinesReadBack(AllLines(run) + [line], brk) by { NewlineBreaks(brk); }
    RunReadsBack(run);
    ReadSnoc(NOTHING, AllLines(run), line);
    ReadStatus(ReadLines(NOTHING, AllLines(run)), StatusWord(failed));
    RanConcat(AllLines(run), [line]);
    IndicesReadBack(run);
  }

  lemma NewlineBreaks(brk: char -> bool)
    requires SaneBreaks(brk)
    ensures brk('\n')
  {
  }

  /** The parameters of a plan, and a stream of it whose text names everything once. */
  ghost predicate Emitted(u: CharClass, flats: seq<Flat>, stream: Stream, values: seq<int>, fields: seq<string>,
                          reserved: set<string>) {
    && Renders(u, PlanFields(u, flats), stream, values) && Lists(fields, PlanFields(u, flats))
    && Buildable(u, PlanFields(u, flats), stream, values, reserved)
  }

  lemma EmittedIsApart(u: CharClass, flats: seq<Flat>, stream: Stream, values: seq<int>, fields: seq<string>,
                       reserved: set<string>)
    requires u.Sane() && Emitted(u, flats, stream, values, fields, reserved)
    ensures Apart(AllNames(u, PlanFields(u, flats), stream, values))
    ensures Builds(SpellCode(ModuleOf(u, stream, values).code), fields, reserved)
  {
    hide CharClass.Sane, Renders, Collides, Lists, FieldNames, AllLiterals, IsReference, Numbered, AllNames, Apart,
         Takable, Builds, ModuleOf, SpellCode;
    OpsHold(u, Numbered(flats, |flats|));
    ApartExactly(u, PlanFields(u, flats), stream, values);
    BuildsExactly(u, stream, values, fields, PlanFields(u, flats), reserved);
  }

  /** A stream whose references are not what it takes has no binary, so mode B observes nothing. */
  lemma UnbuildableHasNoBinary(u: CharClass, flats: seq<Flat>, stream: Stream, values: seq<int>, fields: seq<string>,
                               words: Scope, skip: int, brk: char -> bool, reserved: set<string>)
    requires u.Sane() && Renders(u, PlanFields(u, flats), stream, values) && Lists(fields, PlanFields(u, flats))
    requires !Buildable(u, PlanFields(u, flats), stream, values, reserved)
    ensures RunBinary(ModuleOf(u, stream, values), fields, words, skip, brk, reserved).None?
  {
    hide CharClass.Sane, Renders, Buildable, Lists, FieldNames, IsReference, Numbered, Builds, ModuleOf, SpellCode,
         Exec, BoundParams, Args, SplitLines, Stdout;
    OpsHold(u, Numbered(flats, |flats|));
    BuildsExactly(u, stream, values, fields, PlanFields(u, flats), reserved);
  }

  /** The text prints what the names would. */
  lemma TextPrints(flats: seq<Flat>, ops: seq<Op>, failed: bool, inp: Inputs, values: seq<int>, fields: seq<string>,
                   skip: int, reserved: set<string>)
    requires inp.u.Sane() && Emitted(inp.u, flats, Stream(ops, failed), values, fields, reserved)
    requires AllFit(inp.u, ops, inp.scope, values, Globals([], ops))
    ensures var m := ModuleOf(inp.u, Stream(ops, failed), values);
            var end := Exec(SpellCode(m.code), m.globals,
                            Running(BoundParams(fields, Args(fields, inp.scope), skip), []));
            end.Running? && end.out == AllLines(ShownOps(ops, Takes(inp), |ops|))
                && Builds(SpellCode(m.code), fields, reserved)
  {
    hide CharClass.Sane, AllFit, Exec, SpellCode, BoundParams, Args, ParamEnv, AllLines, ShownOps, Takes, ModuleOf,
         Globals, Apart, AllNames, Renders, Lists, Buildable, PlanFields, Builds;
    var stream := Stream(ops, failed);
    EmittedIsApart(inp.u, flats, stream, values, fields, reserved);
    StreamPrints(ops, failed, inp, values, skip);
    TextRuns(inp.u, stream, values, fields, PlanFields(inp.u, flats), inp.scope, skip);
  }

  /** What mode B observes of a stream that fits. */
  lemma StreamObserved(flats: seq<Flat>, stream: Stream, inp: Inputs, values: seq<int>, fields: seq<string>, skip: int,
                       brk: char -> bool, reserved: set<string>)
    requires inp.u.Sane() && Emitted(inp.u, flats, stream, values, fields, reserved)
    requires AllFit(inp.u, stream.ops, inp.scope, values, Globals([], stream.ops)) && DistinctIndices(stream.ops)
             && SaneBreaks(brk)
    requires var run := ShownOps(stream.ops, Takes(inp), |stream.ops|);
             forall k :: 0 <= k < |run| ==> CleanShown(run[k], brk)
    ensures var lines := RunBinary(ModuleOf(inp.u, stream, values), fields, inp.scope, skip, brk, reserved);
            lines.Some? && ObserveB(stream.ops, lines.value) == Some(ObserveStream(stream, Takes(inp)))
  {
    hide AllFit, DistinctIndices, SaneBreaks, Takes, OpSpans, OpSkips, Restored, CleanShown, ShownOps, AllLines,
         SpansOf, IndicesOf, AddSpans, StatusWord, Stdout, SplitLines, ReadLines, RanOf, Exec, Globals, PreludeCode,
         OpsCode, NeedsTrue, Printed, ParamEnv, Emitted, CharClass.Sane, SpellCode, BoundParams, Args, Builds;
    var ops := stream.ops;
    var run := ShownOps(ops, Takes(inp), |ops|);
    TextPrints(flats, ops, stream.failed, inp, values, fields, skip, reserved);
    OutputReadsBack(run, stream.failed, brk);
    assert ops[..|ops|] == ops;
    ShownSpans(ops, Takes(inp), |ops|);
    ShownIndices(ops, Takes(inp), |ops|);
    RestoredIsSkipped(ops, Takes(inp));
  }

  lemma NumberedDistinct(flats: seq<Flat>, store: Store, cfg: Config)
    ensures DistinctIndices(StreamOf(flats, store, cfg).ops)
  {
    hide StreamOf;
    StreamIndices(flats, store, cfg);
  }

  lemma {:induction false} PlanSteps(flats: seq<Flat>, k: nat)
    requires k < |flats|
    ensures |StepsOf(flats)| == |flats| && StepsOf(flats)[k] == flats[k].step
  {
    if k > 0 {
      PlanSteps(flats[1..], k - 1);
    } else if |flats| > 1 {
      PlanSteps(flats[1..], 0);
    }
  }

  lemma PlanClean(body: Workflow.Body, brk: char -> bool)
    requires CleanSteps(AllSteps(body), brk)
    ensures forall k :: 0 <= k < |Flatten(body)| ==> CleanStep(Flatten(body)[k].step, brk)
  {
    hide CleanStep, Flatten, AllSteps, StepsOf;
    FlattenKeepsSteps(body);
    forall k | 0 <= k < |Flatten(body)| ensures CleanStep(Flatten(body)[k].step, brk) {
      PlanSteps(Flatten(body), k);
      assert CleanStep(AllSteps(body)[k], brk);
    }
  }

  /** Mode B observes what the compiled stream says, whatever guards are taken, for all values of the
      references and either skip flag. */
  lemma StreamRead(body: Workflow.Body, inp: Inputs, store: Store, values: seq<int>, fields: seq<string>, skip: int,
                   brk: char -> bool, reserved: set<string>)
    requires inp.u.Sane() && AllGuardsFit(body, inp.u, inp.scope) && SaneBreaks(brk) && CleanSteps(AllSteps(body), brk)
    requires Emitted(inp.u, Flatten(body), StreamOf(Flatten(body), store, inp.cfg), values, fields, reserved)
    ensures var stream := StreamOf(Flatten(body), store, inp.cfg);
            var lines := RunBinary(ModuleOf(inp.u, stream, values), fields, inp.scope, skip, brk, reserved);
            lines.Some? && ObserveB(stream.ops, lines.value) == Some(ObserveStream(stream, Takes(inp)))
  {
    hide AllGuardsFit, SaneBreaks, CleanSteps, AllLiterals, StreamOf, Flatten, AllSteps, RunBinary, ObserveB, AllFit,
         Takes, FlatsFit, ShownOps, Globals, CleanStep, FromEntry, CleanShown, DistinctIndices, ModuleOf, ObserveStream,
         CharClass.Sane;
    var flats := Flatten(body);
    var stream := StreamOf(flats, store, inp.cfg);
    assert forall v :: v in AllLiterals(inp.u, stream.ops) ==> v in values by {
      EmittedLiterals(inp.u, flats, stream, values, fields, reserved);
    }
    FlattenFits(body, inp.u, inp.scope);
    PlanClean(body, brk);
    hide Emitted;
    StreamFits(flats, store, inp, values, brk);
    NumberedDistinct(flats, store, inp.cfg);
    StreamFromPlan(flats, store, inp.cfg);
    ShownClean(stream.ops, flats, Takes(inp), brk, |stream.ops|);
    StreamObserved(flats, stream, inp, values, fields, skip, brk, reserved);
  }

  lemma EmittedLiterals(u: CharClass, flats: seq<Flat>, stream: Stream, values: seq<int>, fields: seq<string>,
                        reserved: set<string>)
    requires Emitted(u, flats, stream, values, fields, reserved)
    ensures forall v :: v in AllLiterals(u, stream.ops) ==> v in values
  {
  }

  /** The guard `rc > 3`: mode B observes nothing, whatever mode A does. */
  lemma RcGuardIsNotObserved(u: CharClass, step: Step, m: StdModule, fields: seq<string>, words: Scope, skip: int,
                             brk: char -> bool, reserved: set<string>)
    requires u.Sane() && Lists(fields, PlanFields(u, [Flat(step, Some(WordGuard("rc")))]))
    ensures RunBinary(m, fields, words, skip, brk, reserved).None?
  {
    hide CharClass.Sane, Lists, PlanFields, Builds, SpellCode, Exec, BoundParams, Args, SplitLines, Stdout;
    RcGuardDoesNotBuild(u, step, SpellCode(m.code), fields, reserved);
  }

  // ---- Main result ---------------------------------------------------------------------

  /** What makes the two modes comparable: mode A plays the compiled stream, and guards and step names
      survive compilation. */
  ghost predicate Comparable(body: Workflow.Body, inp: Inputs, store: Store, brk: char -> bool) {
    && Tellable(body, inp, store)
    && AllGuardsFit(body, inp.u, inp.scope) && inp.u.Sane() && SaneBreaks(brk) && CleanSteps(AllSteps(body), brk)
  }

  /** End to end: compiling a workflow, building and running the emitted text and reading its output
      back observes the same order, effects, status and skips as interpreting the tree, for all values
      of the references, every store, retry budget and deadline, every schedule of the parallel blocks
      and either skip flag. */
  lemma ModesAgree(body: Workflow.Body, inp: Inputs, store: Store, values: seq<int>, fields: seq<string>, skip: int,
                   brk: char -> bool, reserved: set<string>)
    requires Comparable(body, inp, store, brk)
    requires Emitted(inp.u, Flatten(body), StreamOf(Flatten(body), store, inp.cfg), values, fields, reserved)
    ensures var stream := StreamOf(Flatten(body), store, inp.cfg);
            var lines := RunBinary(ModuleOf(inp.u, stream, values), fields, inp.scope, skip, brk, reserved);
            lines.Some? && ObserveB(stream.ops, lines.value) == Some(ObserveA(RunWorkflow(body, inp, store)))
  {
    hide Tellable, AllGuardsFit, SaneBreaks, CleanSteps, StreamOf, Flatten, AllSteps, RunBinary, ObserveA, ObserveB,
         Takes, RunBody, ObserveStream, Emitted, ModuleOf, CharClass.Sane, Started, Decided;
    FitDecided(body, inp);
    StreamTellsTree(body, inp, store);
    StreamRead(body, inp, store, values, fields, skip, brk, reserved);
  }

  /** What a document and a run can be checked for beforehand: a permitted body with harmless
      parallel blocks, a plain plan and no deadline. Steps outside blocks may fail and be tried again. */
  lemma PlainIsComparable(body: Workflow.Body, inp: Inputs, store: Store, brk: char -> bool)
    requires WellShaped(body) && QuietBlocks(body) && PlainPlan(Flatten(body), inp.cfg) && inp.cfg.timeout.None?
             && Settles(inp)
    requires AllGuardsFit(body, inp.u, inp.scope) && inp.u.Sane() && SaneBreaks(brk) && CleanSteps(AllSteps(body), brk)
    ensures Comparable(body, inp, store, brk)
  {
    hide WellShaped, AllGuardsFit, CharClass.Sane, SaneBreaks, CleanSteps, Flatten, PlainPlan, Settles, Predictable,
         BlocksCalm, RunBody, Started, Observe, Takes, QuietBlocks, OnTime, CutRepeats;
    assert inp.cfg.faults == {} by { PlainIsFaultless(Flatten(body), inp.cfg); }
    QuietBlocksAreCalm(body, Takes(inp), inp.cfg, Observe(Started(store)));
    PlainIsPredictable(Flatten(body), 0, store, inp.cfg);
    OnTimeWithout(Flatten(body), 0, store, 0, Takes(inp), inp.cfg);
  }

  // ---- The comparison, run by the code itself ------------------------------------------

  /** Compiled, the text builds. */
  ghost predicate AlwaysBuilds(u: CharClass, flats: seq<Flat>, stream: Stream, reserved: set<string>) {
    forall values :: Renders(u, PlanFields(u, flats), stream, values)
        ==> Buildable(u, PlanFields(u, flats), stream, values, reserved)
  }

  /** What is observed of a run. */
  lemma ObservedIs(run: Run)
    ensures var c := ObserveA(run);
            && c.status == (if run.status.Failed? then "failed" else "completed")
            && |c.order| == |run.spans| && (forall k :: 0 <= k < |run.spans| ==> c.order[k] == run.spans[k].name)
            && (forall name :: name in c.effects <==> exists k :: 0 <= k < |run.spans| && run.spans[k].name == name)
            && (forall name :: name in c.effects ==> c.effects[name] == KindsUnder(run.spans, name))
            && c.skips == NormaliseSkips(run.skips)
  {
    hide AddSpans, KindsUnder, NormaliseSkips;
    SpansAdd(run.spans);
  }

  lemma WalkedIs(nodes: Table, rank: map<string, nat>, bound: nat, ids: seq<string>, inp: Inputs, store: Store)
    requires Ranked(nodes, rank) && Below(nodes, rank, ids, bound) && KindsAllowed(nodes, ids)
    requires Unfold(nodes, rank, bound, ids).Success?
    ensures RunWorkflow(Unfold(nodes, rank, bound, ids).value, inp, store)
         == Walk(nodes, rank, bound, ids, inp, Run(store, 0, [], [], Completed))
  {
    hide Unfold, Walk, RunBody, KindsAllowed;
    WalkRuns(nodes, rank, bound, ids, inp, Run(store, 0, [], [], Completed));
  }

  /** `build` and `observe_mode_b`: flatten the table, scan and render it, build and run the text and
      read its output back. A document that keeps the structure rules meets the shape that `Comparable`
      asks for. */
  method ObserveModeB(nodes: Table, ghost rank: map<string, nat>, ghost bound: nat, ids: seq<string>, inp: Inputs,
                      rows: set<string>, skip: int, brk: char -> bool, reserved: set<string>)
    returns (b: Option<Compared>)
    requires Ranked(nodes, rank) && Below(nodes, rank, ids, bound)
    ensures var unfolded, store := Unfold(nodes, rank, bound, ids), Seeded(rows);
            unfolded.Success? && Comparable(unfolded.value, inp, store, brk)
            && AlwaysBuilds(inp.u, Flatten(unfolded.value), StreamOf(Flatten(unfolded.value), store, inp.cfg),
                            reserved) ==>
              b == Some(ObserveA(RunWorkflow(unfolded.value, inp, store)))
    ensures var unfolded, store := Unfold(nodes, rank, bound, ids), Seeded(rows);
            unfolded.Success? && KindsAllowed(nodes, ids) && Comparable(unfolded.value, inp, store, brk)
            && AlwaysBuilds(inp.u, Flatten(unfolded.value), StreamOf(Flatten(unfolded.value), store, inp.cfg),
                            reserved) ==>
              b == Some(ObserveA(Walk(nodes, rank, bound, ids, inp, Run(store, 0, [], [], Completed))))
  {
    hide *;
    var plan := new PlanList();
    var raised := StepsInOrder(nodes, rank, bound, ids, plan);
    if raised.Some? {
      return None;
    }
    var flats := plan.items;
    var stream := LnplOps(flats, rows, inp.cfg);
    var ops := NumberOps(flats);
    var names := CollectFields(inp.u, ops);
    var fields := SortedFields(names);
    var m, values := RenderStd(inp.u, stream);
    var lines := RunBinary(m, fields, inp.scope, skip, brk, reserved);
    if lines.None? {
      b := None;
    } else {
      var order, effects, status := ObserveLines(lines.value);
      var ran := RanStepIndices(lines.value);
      var skips := RestoreSkips(stream.ops, ran);
      b := if status.None? then None else Some(Compared(order, effects, status.value, skips));
      ObserveBIs(stream.ops, lines.value, order, effects, status);
    }
    ghost var unfolded, store := Unfold(nodes, rank, bound, ids), Seeded(rows);
    if unfolded.Success? {
      PlanItems(plan.items, unfolded.value);
      if Comparable(unfolded.value, inp, store, brk) && AlwaysBuilds(inp.u, flats, stream, reserved) {
        EmittedAsIs(inp.u, flats, store, inp.cfg, values, fields, names, ops, reserved);
        ModesAgree(unfolded.value, inp, store, values, fields, skip, brk, reserved);
      }
      if KindsAllowed(nodes, ids) {
        WalkedIs(nodes, rank, bound, ids, inp, store);
      }
    }
  }

  lemma EmittedAsIs(u: CharClass, flats: seq<Flat>, store: Store, cfg: Config, values: seq<int>, fields: seq<string>,
                    names: set<string>, ops: seq<Op>, reserved: set<string>)
    requires AlwaysBuilds(u, flats, StreamOf(flats, store, cfg), reserved) && Ascending(values)
    requires forall v :: v in values <==> v in AllLiterals(u, StreamOf(flats, store, cfg).ops)
    requires ops == Numbered(flats, |flats|) && names == FieldNames(u, ops) && Lists(fields, names)
    ensures Emitted(u, flats, StreamOf(flats, store, cfg), values, fields, reserved)
  {
    hide StreamOf, AllLiterals, Renders, Buildable, FieldNames, Numbered, Lists;
    StreamRenders(u, flats, store, cfg, values);
  }

  lemma ObserveBIs(ops: seq<Op>, lines: seq<string>, order: seq<string>, effects: Effects, status: Option<string>)
    requires Observation(order, effects, status) == ReadLines(NOTHING, lines)
    ensures ObserveB(ops, lines)
         == if status.None? then None else Some(Compared(order, effects, status.value, Restored(ops, RanOf(lines))))
  {
  }

  lemma PlanItems(items: seq<Flat>, body: Workflow.Body)
    requires items == [] + Flatten(body)
    ensures items == Flatten(body)
  {
  }

  // ---- One document from end to end ----------------------------------------------------

  const EITHER_GUARD := Guard(When, "a > 3", ["b > 3"])

  const EITHER_BODY: Workflow.Body := GuardItem(EITHER_GUARD, StepItem(Step("s", "run", []), Done), Done)

  lemma EitherUnfolds()
    ensures Ranked(EITHER, EITHER_RANK) && Below(EITHER, EITHER_RANK, ["g"], 2) && KindsAllowed(EITHER, ["g"])
    ensures Unfold(EITHER, EITHER_RANK, 2, ["g"]) == Success(EITHER_BODY)
  {
    EitherIsPermitted();
    assert ["s"][1..] == [] && ["g"][1..] == [];
    assert Unfold(EITHER, EITHER_RANK, 1, []) == Success(Done) && Unfold(EITHER, EITHER_RANK, 2, []) == Success(Done);
    assert UnfoldNode(EITHER, EITHER_RANK, "s") == Success(StepItem(Step("s", "run", []), Done));
    assert Unfold(EITHER, EITHER_RANK, 1, ["s"]) == Success(StepItem(Step("s", "run", []), Done));
    assert UnfoldNode(EITHER, EITHER_RANK, "g") == Success(EITHER_BODY);
  }

  lemma EitherIsWellShaped()
    ensures WellShaped(EITHER_BODY) && QuietBlocks(EITHER_BODY)
  {
    assert StepsOnly(StepItem(Step("s", "run", []), Done)) && Unguarded(StepItem(Step("s", "run", []), Done));
    assert Shaped(EITHER_BODY);
    assert FreshIds(EITHER_BODY, {});
  }

  lemma OneTimes(flats: seq<Flat>)
    ensures Times(flats, 1) == flats
  {
    assert Times(flats, 0) == [];
  }

  lemma EitherFlat()
    ensures Flatten(EITHER_BODY) == [Flat(Step("s", "run", []), Some(EITHER_GUARD))]
  {
    var inner := [Flat(Step("s", "run", []), None)];
    assert Flatten(Done) == [];
    assert Flatten(StepItem(Step("s", "run", []), Done)) == inner;
    OneTimes(Tag(inner, EITHER_GUARD));
    hide Times, Tag;
    assert Flatten(EITHER_BODY) == Tag(inner, EITHER_GUARD) + [];
  }

  lemma LetterCompiles(u: CharClass, x: string, words: Scope)
    requires u.Sane() && |x| == 1 && 'a' <= x[0] <= 'z' && x in words && InInt64(words[x])
    ensures RenderCorrect.Compiles(u, x + " > 3", words)
  {
    hide CharClass.Sane, ParseCondition;
    LetterAboveThree(u, x);
    assert Parsed(u, x + " > 3") == Some(Comparison(Ref(x), Gt, Lit(3, false)));
  }

  lemma EitherHolds(u: CharClass, words: Scope)
    requires TextVerdict(u, "a > 3", words) == Holds(false) && TextVerdict(u, "b > 3", words) == Holds(true)
    ensures GuardTexts(EITHER_GUARD) == ["a > 3", "b > 3"] && GuardVerdict(u, EITHER_GUARD, words) == Holds(true)
  {
    hide TextVerdict;
    assert GuardTexts(EITHER_GUARD) == ["a > 3"] + ["b > 3"];
    assert ["a > 3", "b > 3"][1..] == ["b > 3"] && ["b > 3"][1..] == [];
    assert TextsVerdict(u, [], words) == Holds(false);
    assert TextsVerdict(u, ["b > 3"], words) == Holds(true);
  }

  lemma EitherGuardFits(u: CharClass, words: Scope)
    requires RenderCorrect.Compiles(u, "a > 3", words) && RenderCorrect.Compiles(u, "b > 3", words)
    requires GuardTexts(EITHER_GUARD) == ["a > 3", "b > 3"] && GuardVerdict(u, EITHER_GUARD, words) == Holds(true)
    ensures GuardFits(u, EITHER_GUARD, words)
  {
    hide RenderCorrect.Compiles, GuardVerdict, GuardTexts;
  }

  lemma EitherBodyFits(u: CharClass, words: Scope)
    requires GuardFits(u, EITHER_GUARD, words)
    ensures AllGuardsFit(EITHER_BODY, u, words)
  {
    hide GuardFits;
    assert AllGuardsFit(Done, u, words) && AllGuardsFit(StepItem(Step("s", "run", []), Done), u, words);
  }

  lemma EitherFits(u: CharClass, words: Scope)
    requires u.Sane() && words == map["a" := 0, "b" := 5]
    ensures AllGuardsFit(EITHER_BODY, u, words)
  {
    assert "a" + " > 3" == "a > 3" && "b" + " > 3" == "b > 3";
    assert InInt64(0) && InInt64(5);
    hide *;
    LetterCompiles(u, "a", words);
    LetterCompiles(u, "b", words);
    ZeroAndFive(u);
    EitherHolds(u, words);
    EitherGuardFits(u, words);
    EitherBodyFits(u, words);
  }

  lemma EitherIsClean(brk: char -> bool)
    requires SaneBreaks(brk)
    ensures CleanSteps(AllSteps(EITHER_BODY), brk)
  {
    assert AllSteps(Done) == [];
    assert AllSteps(StepItem(Step("s", "run", []), Done)) == [Step("s", "run", [])];
    assert Times([Step("s", "run", [])], 0) == [];
    assert AllSteps(EITHER_BODY) == [Step("s", "run", [])];
    assert forall k :: 0 <= k < |"run"| ==> 'a' <= "run"[k] <= 'z';
  }

  lemma EitherIsComparable(inp: Inputs, store: Store, brk: char -> bool)
    requires inp.u.Sane() && inp.scope == map["a" := 0, "b" := 5] && inp.cfg.timeout.None? && inp.cfg.faults == {}
    requires Settles(inp) && SaneBreaks(brk)
    ensures Comparable(EITHER_BODY, inp, store, brk)
  {
    hide *;
    EitherIsWellShaped();
    EitherIsPlain(inp.cfg);
    EitherFits(inp.u, inp.scope);
    EitherIsClean(brk);
    PlainIsComparable(EITHER_BODY, inp, store, brk);
  }

  lemma EitherIsPlain(cfg: Config)
    requires cfg.faults == {}
    ensures PlainPlan(Flatten(EITHER_BODY), cfg)
  {
    EitherFlat();
    hide Flatten;
  }

  /** A document with one step under `a > 3 or b > 3`, with a = 0 and b = 5: the compiled code is observed to
      run the step, to complete and to skip nothing. */
  lemma EitherObserved(inp: Inputs, values: seq<int>, fields: seq<string>, skip: int, brk: char -> bool,
                       reserved: set<string>)
    requires inp.u.Sane() && inp.scope == map["a" := 0, "b" := 5] && inp.cfg.timeout.None? && inp.cfg.faults == {}
    requires Settles(inp) && SaneBreaks(brk)
    requires Emitted(inp.u, Flatten(EITHER_BODY), StreamOf(Flatten(EITHER_BODY), {}, inp.cfg), values, fields,
                     reserved)
    ensures var stream := StreamOf(Flatten(EITHER_BODY), {}, inp.cfg);
            var lines := RunBinary(ModuleOf(inp.u, stream, values), fields, inp.scope, skip, brk, reserved);
            lines.Some?
            && ObserveB(stream.ops, lines.value) == Some(Compared(["run"], map["run" := []], "completed", []))
  {
    hide *;
    EitherIsComparable(inp, {}, brk);
    ModesAgree(EITHER_BODY, inp, {}, values, fields, skip, brk, reserved);
    EitherUnfolds();
    WalkedIs(EITHER, EITHER_RANK, 2, ["g"], inp, {});
    AlternativeRuns(inp);
    var run := Walk(EITHER, EITHER_RANK, 2, ["g"], inp, Run({}, 0, [], [], Completed));
    ObservedIs(run);
    OneSpanObserved(run);
  }

  lemma OneSpanObserved(run: Run)
    requires run.spans == [Span("run", [])] && run.skips == [] && run.status.Completed?
    ensures ObserveA(run) == Compared(["run"], map["run" := []], "completed", [])
  {
    ObservedIs(run);
    hide ObserveA;
    var c := ObserveA(run);
    assert [Span("run", [])][1..] == [];
    assert KindsUnder([], "run") == [];
    assert c.order == ["run"];
    forall name ensures name in c.effects <==> name == "run" {
      if name == "run" {
        assert run.spans[0].name == name;
      }
    }
    assert c.effects == map["run" := []];
    assert NormaliseSkips([]) == [];
  }
}
