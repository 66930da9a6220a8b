/** A workflow with a parallel block one step of which fails: mode A observes every step that started,
    mode B the steps up to the first that fails in written order (`_run_parallel_block` in
    `impl/lnpl/interp.py`, `_lnpl_ops` in `impl/lnpl/backend.py`). */
module FailingBlock {
  import opened Wrappers
  import opened Text
  import opened Conditions
  import opened ConditionSyntax
  import opened Evaluation
  import opened Workflow
  import opened Flattening
  import opened Attempts
  import opened Blocks
  import opened Footprint
  import opened BlockOrder
  import opened Interp
  import opened Events
  import opened SkipGrain
  import opened Ownership
  import opened RetryTrace
  import opened Ops
  import opened Prediction
  import opened StreamRun
  import opened Deadline
  import opened Build
  import opened Render
  import opened Trace
  import opened Differential

  /** One body, then another. */
  function Append(a: Workflow.Body, b: Workflow.Body): Workflow.Body {
    if a.Done? then b else a.(rest := Append(a.rest, b))
  }

  /** A block with something before it and something after. */
  function WithBlock(prefix: Workflow.Body, kids: Workflow.Body, rest: Workflow.Body): Workflow.Body {
    Append(prefix, ParallelItem(kids, rest))
  }

  lemma {:induction false} AppendRuns(a: Workflow.Body, b: Workflow.Body, inp: Inputs, run: Run)
    ensures RunBody(Append(a, b), inp, run) == RunBody(b, inp, RunBody(a, inp, run))
    decreases a
  {
    hide RunBody, RunFirst;
    if !run.status.Completed? {
      BodyStopped(Append(a, b), inp, run);
      BodyStopped(a, inp, run);
      BodyStopped(b, inp, run);
    } else if a.Done? {
      NothingWalked(a, inp, run);
    } else {
      WalkStep(a, inp, run);
      WalkStep(Append(a, b), inp, run);
      assert RunFirst(Append(a, b), inp, run) == RunFirst(a, inp, run) by { SameFirst(a, b, inp, run); }
      AppendRuns(a.rest, b, inp, RunFirst(a, inp, run));
    }
  }

  lemma SameFirst(a: Workflow.Body, b: Workflow.Body, inp: Inputs, run: Run)
    requires !a.Done?
    ensures RunFirst(Append(a, b), inp, run) == RunFirst(a, inp, run)
  {
    hide RunStep, RunBody, RunParallel, RunRepeat, RunWhen, RunUntil;
  }

  lemma {:induction false} AppendEvents(a: Workflow.Body, b: Workflow.Body, takes: Outcomes)
    ensures TreeEvents(Append(a, b), takes) == TreeEvents(a, takes) + TreeEvents(b, takes)
    decreases a
  {
    if a.Done? {
      assert [] + TreeEvents(b, takes) == TreeEvents(b, takes);
    } else {
      var all := Append(a, b);
      AppendEvents(a.rest, b, takes);
      assert TreeEvents(a, takes) == FirstEvents(a, takes) + TreeEvents(a.rest, takes);
      assert TreeEvents(all, takes) == FirstEvents(all, takes) + TreeEvents(all.rest, takes);
      Assoc(FirstEvents(a, takes), TreeEvents(a.rest, takes), TreeEvents(b, takes));
    }
  }

  lemma {:induction false} AppendDecided(a: Workflow.Body, b: Workflow.Body, inp: Inputs)
    requires Decided(Append(a, b), inp)
    ensures Decided(a, inp)
    decreases a
  {
    hide GuardVerdict;
    if !a.Done? {
      AppendDecided(a.rest, b, inp);
    }
  }

  // ---- The stream ----------------------------------------------------------------------

  /** Played in written order, the steps end with the first that fails. */
  lemma {:induction false} PlayFailing(steps: seq<Step>, cfg: Config, o: Observed, f: nat)
    requires cfg.timeout.None? && f < |steps| && o.status.Completed? && Untangled(steps)
             && FailsFirst(steps, o.store, cfg, f)
    ensures var end := Play(RanAll(steps), cfg, o);
            end.status.Failed? && end.skips == o.skips && end.spans == o.spans + SerialSpans(steps, o.store, cfg)
    decreases steps
  {
    hide RunAttempts, Untangled, PlayEvent;
    var a, rest := RunAttempts(steps[0], o.store, cfg, 1), steps[1..];
    assert Alone(steps, o.store, cfg, 0) == a;
    assert RanAll(steps)[1..] == RanAll(rest);
    StepUntimed(steps[0], cfg, o);
    var next := PlayEvent(Ran(steps[0]), cfg, o);
    if f == 0 {
      PlayStopped(RanAll(rest), cfg, next);
    } else {
      AloneAfterFirst(steps, o.store, cfg);
      TailUntangled(steps);
      assert forall i :: 0 <= i < f ==> Alone(rest, a.store, cfg, i).failed == Alone(steps, o.store, cfg, i + 1).failed;
      PlayFailing(rest, cfg, next, f - 1);
      Assoc(o.spans, [Span(steps[0].name, a.kinds)], SerialSpans(rest, a.store, cfg));
    }
  }

  function OfFailed(spans: seq<Span>, skips: seq<SkipEntry>): Compared {
    var o := AddSpans(NOTHING, spans);
    Compared(o.order, o.effects, StatusWord(true), skips)
  }

  /** The run up to the block. */
  function Before(prefix: Workflow.Body, inp: Inputs, store: Store): Run {
    RunBody(prefix, inp, Started(store))
  }

  /** A block whose step `f` is the first that fails, in a workflow whose run the scan foresees, after a
      prefix that completes. */
  ghost predicate FailsAtBlock(prefix: Workflow.Body, kids: Workflow.Body, rest: Workflow.Body, inp: Inputs,
                               store: Store, f: nat)
  {
    var body, steps := WithBlock(prefix, kids, rest), AllSteps(kids);
    && inp.cfg.timeout.None? && WellShaped(body) && Settles(inp)
    && BlocksCalm(prefix, Takes(inp), inp.cfg, Observe(Started(store)))
    && Before(prefix, inp, store).status.Completed?
    && f < |steps| && Untangled(steps) && FailsFirst(steps, Before(prefix, inp, store).store, inp.cfg, f)
    && Predictable(Flatten(body), 0, store, {}, inp.cfg) && CutRepeats(Flatten(body), 0, store, inp.cfg)
  }

  lemma BlockIsCut(prefix: Workflow.Body, kids: Workflow.Body, rest: Workflow.Body, inp: Inputs, store: Store, f: nat)
    requires FailsAtBlock(prefix, kids, rest, inp, store, f) && Decided(WithBlock(prefix, kids, rest), inp)
    ensures var run := Before(prefix, inp, store);
            ObserveStream(StreamOf(Flatten(WithBlock(prefix, kids, rest)), store, inp.cfg), Takes(inp))
            == OfFailed(run.spans + SerialSpans(AllSteps(kids), run.store, inp.cfg), NormaliseSkips(run.skips))
  {
    hide Predictable, CutRepeats, OnTime, StreamOf, OpSpans, OpSkips, Play, FlatEvents, TreeEvents, Untangled,
         FailsFirst,
         SerialSpans, AddSpans, RunBody, Started, Takes, WellShaped, BlocksCalm, Decided, Settles, Flatten, AllSteps;
    var body, takes, cfg := WithBlock(prefix, kids, rest), Takes(inp), inp.cfg;
    var run, block := Before(prefix, inp, store), ParallelItem(kids, rest);
    var o := NothingYet(store);
    assert Observe(Started(store)) == o by { StartIsObserved(store); }
    StreamTellsRun(Flatten(body), store, takes, cfg);
    WellShapedIsAligned(body, takes);
    PlanMatchesTree(body, takes, {});
    AppendEvents(prefix, block, takes);
    AppendDecided(prefix, block, inp);
    RunsEvents(prefix, inp, Started(store));
    var later := RanAll(AllSteps(kids)) + TreeEvents(rest, takes);
    assert TreeEvents(block, takes) == later by { BlockEvents(kids, rest, takes); }
    PlayConcat(TreeEvents(prefix, takes), later, cfg, o);
    PlayFailing(AllSteps(kids), cfg, Observe(run), f);
    PlayConcat(RanAll(AllSteps(kids)), TreeEvents(rest, takes), cfg, Observe(run));
    PlayStopped(TreeEvents(rest, takes), cfg, Play(RanAll(AllSteps(kids)), cfg, Observe(run)));
  }

  lemma StartIsObserved(store: Store)
    ensures Observe(Started(store)) == NothingYet(store)
  {
  }

  lemma BlockEvents(kids: Workflow.Body, rest: Workflow.Body, takes: Outcomes)
    ensures TreeEvents(ParallelItem(kids, rest), takes) == RanAll(AllSteps(kids)) + TreeEvents(rest, takes)
  {
  }

  // ---- The interpreter -----------------------------------------------------------------

  function ScheduleOf(prefix: Workflow.Body, kids: Workflow.Body, inp: Inputs, store: Store): seq<nat> {
    inp.schedule(AllSteps(kids), Before(prefix, inp, store))
  }

  function BlockOf(prefix: Workflow.Body, kids: Workflow.Body, inp: Inputs, store: Store): Block {
    var run := Before(prefix, inp, store);
    RunBlock(AllSteps(kids), inp.cfg, run.store, run.now, ScheduleOf(prefix, kids, inp, store))
  }

  lemma BlockRuns(prefix: Workflow.Body, kids: Workflow.Body, rest: Workflow.Body, inp: Inputs, store: Store)
    requires inp.cfg.timeout.None? && Before(prefix, inp, store).status.Completed?
    requires AnyFails(BlockOf(prefix, kids, inp, store).tasks)
    ensures var run := Before(prefix, inp, store);
            ObserveA(RunWorkflow(WithBlock(prefix, kids, rest), inp, store))
            == OfFailed(run.spans + BlockSpans(AllSteps(kids), BlockOf(prefix, kids, inp, store).tasks),
                        NormaliseSkips(run.skips))
  {
    hide RunBlock, AddSpans, BlockSpans, AllSteps, RunBody, Started, AnyFails;
    var run, block := Before(prefix, inp, store), ParallelItem(kids, rest);
    AppendRuns(prefix, block, inp, Started(store));
    WalkStep(block, inp, run);
    BodyStopped(rest, inp, RunParallel(AllSteps(kids), inp, run));
  }

  lemma {:induction false} OrderLength(o: Observation, spans: seq<Span>)
    ensures |AddSpans(o, spans).order| == |o.order| + |spans|
    decreases spans
  {
    if spans != [] {
      OrderLength(AddSpan(o, spans[0]), spans[1..]);
    }
  }

  // ---- Main result ---------------------------------------------------------------------

  /** A workflow with a failing parallel block, whatever ran before it, is observed alike by both modes
      if and only if the pool has started no step written after the first that fails. */
  lemma FailingBlockObserved(prefix: Workflow.Body, kids: Workflow.Body, rest: Workflow.Body, inp: Inputs, store: Store,
                             f: nat, values: seq<int>, fields: seq<string>, skip: int, brk: char -> bool,
                             reserved: set<string>)
    requires FailsAtBlock(prefix, kids, rest, inp, store, f)
    requires Orderly(ScheduleOf(prefix, kids, inp, store), |AllSteps(kids)|)
    requires var body := WithBlock(prefix, kids, rest);
             && inp.u.Sane() && AllGuardsFit(body, inp.u, inp.scope) && SaneBreaks(brk)
             && CleanSteps(AllSteps(body), brk)
             && Emitted(inp.u, Flatten(body), StreamOf(Flatten(body), store, inp.cfg), values, fields, reserved)
    ensures var body := WithBlock(prefix, kids, rest);
            var stream := StreamOf(Flatten(body), store, inp.cfg);
            var lines := RunBinary(ModuleOf(inp.u, stream, values), fields, inp.scope, skip, brk, reserved);
            lines.Some?
            && (ObserveB(stream.ops, lines.value) == Some(ObserveA(RunWorkflow(body, inp, store)))
                <==> f + 1 == |AllSteps(kids)| || f + 1 !in ScheduleOf(prefix, kids, inp, store))
  {
    hide AllGuardsFit, SaneBreaks, CleanSteps, StreamOf, Flatten, AllSteps, RunBinary, ObserveA, ObserveB, Takes,
         RunBody,
         ObserveStream, Emitted, ModuleOf, CharClass.Sane, WithBlock, Untangled, FailsFirst, RunBlock, BlockSpans,
         SerialSpans, AnyFails, Decided, Orderly, Predictable, CutRepeats, BlocksCalm, WellShaped, Settled, Started,
         AddSpans;
    var body, steps, run := WithBlock(prefix, kids, rest), AllSteps(kids), Before(prefix, inp, store);
    var schedule := ScheduleOf(prefix, kids, inp, store);
    FitDecided(body, inp);
    StreamRead(body, inp, store, values, fields, skip, brk, reserved);
    BlockIsCut(prefix, kids, rest, inp, store, f);
    assert Settled(RunBlock(steps, inp.cfg, run.store, run.now, schedule).tasks);
    FailingBlockExactly(steps, inp.cfg, run.store, run.now, schedule, f);
    BlockRuns(prefix, kids, rest, inp, store);
    OrderLength(NOTHING, run.spans + BlockSpans(steps, BlockOf(prefix, kids, inp, store).tasks));
    OrderLength(NOTHING, run.spans + SerialSpans(steps, run.store, inp.cfg));
  }

  // ---- A block that disagrees ----------------------------------------------------------

  const CHECK := Step("check", "check order", [Validation(true)])
  const LOOKUP := Step("lookup", "lookup offer", [CacheAccess(Get)])
  const BOTH := Chain([CHECK, LOOKUP])

  lemma BothIs()
    ensures BOTH == StepItem(CHECK, StepItem(LOOKUP, Done)) && AllSteps(BOTH) == [CHECK, LOOKUP]
    ensures Flatten(WithBlock(Done, BOTH, Done)) == [Flat(CHECK, None), Flat(LOOKUP, None)]
  {
    assert [CHECK, LOOKUP][1..] == [LOOKUP] && [LOOKUP][1..] == [];
    assert Chain([LOOKUP]) == StepItem(LOOKUP, Done);
    assert AllSteps(StepItem(LOOKUP, Done)) == [LOOKUP];
    ChainFlat([CHECK, LOOKUP]);
    assert Flatten(BOTH) == [Flat(CHECK, None), Flat(LOOKUP, None)];
    assert Flatten(BOTH) + [] == Flatten(BOTH);
  }

  lemma CheckFails(store: Store, cfg: Config)
    requires cfg.faults == {} && cfg.retry == 0
    ensures Scan(CHECK.effects, store, cfg) == Attempt(store, ["Validation"], true)
    ensures FailsFirst([CHECK, LOOKUP], store, cfg, 0)
  {
    assert RunEffects(CHECK.effects, store, cfg) == Attempt(store, ["Validation"], true);
    hide RunAttempts, RunEffects;
    FirstDecides(CHECK, store, cfg);
  }

  lemma BothFailAtBlock(inp: Inputs)
    requires inp.cfg == Config(true, true, 0, None, {}) && Settles(inp)
    ensures FailsAtBlock(Done, BOTH, Done, inp, {}, 0)
  {
    hide Settles, RunBlock, FailsFirst, Untangled, Scan;
    var flats := [Flat(CHECK, None), Flat(LOOKUP, None)];
    BothIs();
    CheckFails({}, inp.cfg);
    assert Untangled([CHECK, LOOKUP]) by { NothingWritten(); }
    assert Predictable(flats, 0, {}, {}, inp.cfg);
    assert CutRepeats(flats, 0, {}, inp.cfg) by { assert FirstFailure(flats, 0, {}, inp.cfg) == Some(Cut(0, 0)); }
    BothAreShaped(inp);
    assert Before(Done, inp, {}) == Started({}) by { NothingWalked(Done, inp, Started({})); }
  }

  lemma BothAreShaped(inp: Inputs)
    ensures WellShaped(WithBlock(Done, BOTH, Done)) && AllGuardsFit(WithBlock(Done, BOTH, Done), inp.u, inp.scope)
  {
    BothIs();
    assert CHECK.id[0] != LOOKUP.id[0];
    var two := StepItem(LOOKUP, Done);
    assert FreshIds(two, {} + {CHECK.id}) && StepsOnly(two) && AllGuardsFit(two, inp.u, inp.scope);
    assert FreshIds(BOTH, {}) && StepsOnly(BOTH) && AllGuardsFit(BOTH, inp.u, inp.scope);
  }

  lemma NothingWritten()
    ensures Untangled([CHECK, LOOKUP])
  {
    assert CHECK.effects[1..] == [] && LOOKUP.effects[1..] == [];
    assert Written(CHECK.effects) == {} && Written(LOOKUP.effects) == {};
  }

  /** Of two steps the first is rejected, but the pool has started the second by then: mode A observes
      both, mode B the first alone. */
  lemma LaterSiblingIsObserved(inp: Inputs, values: seq<int>, fields: seq<string>, skip: int, brk: char -> bool,
                               reserved: set<string>)
    requires inp.cfg == Config(true, true, 0, None, {}) && Settles(inp)
    requires inp.schedule([CHECK, LOOKUP], Started({})) == [1, 0]
    requires inp.u.Sane() && SaneBreaks(brk) && CleanSteps([CHECK, LOOKUP], brk)
    requires var flats := Flatten(WithBlock(Done, BOTH, Done));
             Emitted(inp.u, flats, StreamOf(flats, {}, inp.cfg), values, fields, reserved)
    ensures var body := WithBlock(Done, BOTH, Done);
            var stream := StreamOf(Flatten(body), {}, inp.cfg);
            var lines := RunBinary(ModuleOf(inp.u, stream, values), fields, inp.scope, skip, brk, reserved);
            lines.Some? && ObserveB(stream.ops, lines.value) != Some(ObserveA(RunWorkflow(body, inp, {})))
  {
    hide Predictable, SaneBreaks, CleanSteps, StreamOf, Flatten, RunBinary, ObserveA, ObserveB, Emitted, ModuleOf,
         CharClass.Sane, RunBlock, FailsAtBlock, Settles;
    BothIs();
    BothFailAtBlock(inp);
    BothAreShaped(inp);
    NothingWalked(Done, inp, Started({}));
    assert AllSteps(WithBlock(Done, BOTH, Done))
           == [CHECK, LOOKUP] by { assert [CHECK, LOOKUP] + [] == [CHECK, LOOKUP]; }
    assert ScheduleOf(Done, BOTH, inp, {}) == [1, 0];
    FailingBlockObserved(Done, BOTH, Done, inp, {}, 0, values, fields, skip, brk, reserved);
  }
}
