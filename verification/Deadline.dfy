/** The compile-time clock against the interpreter's: exactly when a run under a deadline is the one
    the compiled stream tells, and how far the attempts that `_failure_attempts` predicts are the
    attempts that are made. The compile-time clock charges a step's cost for every planned step before
    the failing one, run or skipped, and no effects; the interpreter's charges what has run, effects
    included. */
module Deadline {
  import opened Wrappers
  import opened Text
  import opened ConditionSyntax
  import opened Evaluation
  import opened Workflow
  import opened Flattening
  import opened Attempts
  import opened Blocks
  import opened Footprint
  import opened BlockOrder
  import opened BlockClock
  import opened Interp
  import opened Events
  import opened SkipGrain
  import opened Ownership
  import opened Retry
  import opened RetryTrace
  import opened AttemptClock
  import opened Ops
  import opened Prediction
  import opened StreamRun

  // ---- Streams in time -----------------------------------------------------------------

  lemma {:induction false} ScanUntimed(effects: seq<Effect>, rows: Store, cfg: Config)
    ensures Scan(effects, rows, Untimed(cfg)) == Scan(effects, rows, cfg)
  {
    if effects != [] {
      ScanUntimed(effects[1..], TrackedAfter(effects[0], rows), cfg);
    }
  }

  lemma {:induction false} FailureUntimed(flats: seq<Flat>, k: nat, rows: Store, cfg: Config)
    requires k <= |flats|
    ensures FirstFailure(flats, k, rows, Untimed(cfg)) == FirstFailure(flats, k, rows, cfg)
    decreases |flats| - k
  {
    if k < |flats| {
      hide Scan;
      ScanUntimed(flats[k].step.effects, rows, cfg);
      var next := if flats[k].guard.Some? then rows else Scan(flats[k].step.effects, rows, cfg).store;
      FailureUntimed(flats, k + 1, next, cfg);
    }
  }

  /** At compile time: the deadline does not cut the predicted attempts short. */
  predicate StaticInTime(flats: seq<Flat>, seeded: Store, cfg: Config) {
    var cut := FirstFailure(flats, 0, seeded, cfg);
    cut.None? || cfg.timeout.None? || (
      var effects := flats[cut.value.entry].step.effects;
      var n := TimesTried(effects, cfg.retry);
      var b := Budget(STEP_COST_MS * cut.value.entry, MissCost(effects[cut.value.failAt]), cfg.retry, cfg.timeout);
      n == 1 || AfterBackoff(b, n - 1) < cfg.timeout.value)
  }

  lemma AttemptsInTime(effects: seq<Effect>, failAt: nat, before: nat, retry: int, timeout: Option<int>)
    requires failAt < |effects| && timeout.Some?
    requires var n := TimesTried(effects, retry);
             var b := Budget(STEP_COST_MS * before, MissCost(effects[failAt]), retry, timeout);
             n == 1 || AfterBackoff(b, n - 1) < timeout.value
    ensures StaticAttempts(effects, failAt, before, retry, timeout) == TimesTried(effects, retry)
  {
    if retry > 0 && AllIdempotent(effects) {
      var b := Budget(STEP_COST_MS * before, MissCost(effects[failAt]), retry, timeout);
      var n := TimesTried(effects, retry);
      AttemptsWithoutTimeout(0, 0, retry);
      AttemptsWithoutTimeout(b.start, b.cost, retry);
      hide LastAttempt, AfterBackoff;
      ReachedExactly(b, n);
      AttemptsMonotone(b, b.(timeout := None));
    }
  }

  /** Where it does not, the stream is compiled as if there were no deadline. */
  lemma StreamInTime(flats: seq<Flat>, seeded: Store, cfg: Config)
    requires StaticInTime(flats, seeded, cfg)
    ensures StreamOf(flats, seeded, cfg) == StreamOf(flats, seeded, Untimed(cfg))
  {
    hide FirstFailure, TimesTried, StaticAttempts, AfterBackoff, MissCost, OpOf;
    FailureUntimed(flats, 0, seeded, cfg);
    var cut := FirstFailure(flats, 0, seeded, cfg);
    if cut.Some? {
      var c, effects := cut.value, flats[cut.value.entry].step.effects;
      StaticIsAttempts(effects, c.failAt, c.entry, cfg.retry);
      if cfg.timeout.Some? {
        AttemptsInTime(effects, c.failAt, c.entry, cfg.retry, cfg.timeout);
      }
      assert OpOf(flats, c.entry).effects == effects by { OpEffects(flats, c.entry); }
    }
  }

  lemma OpEffects(flats: seq<Flat>, k: nat)
    requires k < |flats|
    ensures OpOf(flats, k).effects == flats[k].step.effects
  {
  }

  // ---- Whole runs under a deadline -----------------------------------------------------

  lemma UntimedPlan(flats: seq<Flat>, k: nat, rows: Store, tainted: set<Cell>, cfg: Config)
    requires k <= |flats| && Predictable(flats, k, rows, tainted, cfg)
    ensures Predictable(flats, k, rows, tainted, Untimed(cfg))
    decreases |flats| - k
  {
    if k < |flats| {
      hide Scan, Foreseen, Untouched, Written;
      var effects := flats[k].step.effects;
      ScanUntimed(effects, rows, cfg);
      ForeseenUntimed(effects, rows, tainted, cfg);
      if flats[k].guard.Some? {
        UntimedPlan(flats, k + 1, rows, tainted + Written(effects), cfg);
      } else if !Scan(effects, rows, cfg).failed {
        UntimedPlan(flats, k + 1, Scan(effects, rows, cfg).store, tainted, cfg);
      }
    }
  }

  lemma {:induction false} ForeseenUntimed(effects: seq<Effect>, rows: Store, tainted: set<Cell>, cfg: Config)
    requires Foreseen(effects, rows, tainted, cfg)
    ensures Foreseen(effects, rows, tainted, Untimed(cfg))
  {
    if effects != [] && !Foretold(effects[0], rows, cfg) {
      ForeseenUntimed(effects[1..], TrackedAfter(effects[0], rows), tainted, cfg);
    }
  }

  /** A deadline changes how often the failing step is told, not what is told. */
  lemma {:induction false} TellUntimed(flats: seq<Flat>, k: nat, rows: Store, takes: Outcomes, cfg: Config)
    requires k <= |flats|
    ensures var x, y := Tell(flats, k, rows, takes, cfg), Tell(flats, k, rows, takes, Untimed(cfg));
            x.failed == y.failed && |x.spans| == |y.spans|
    decreases |flats| - k
  {
    if k < |flats| {
      hide Scan, StaticAttempts, Tell, Times, IdsBefore, EntrySkips, Kinds;
      ScanUntimed(flats[k].step.effects, rows, cfg);
      ToldFirst(flats, k, rows, takes, cfg);
      ToldFirst(flats, k, rows, takes, Untimed(cfg));
      var a := Scan(flats[k].step.effects, rows, cfg);
      if flats[k].guard.Some? || !a.failed {
        TellUntimed(flats, k + 1, if flats[k].guard.Some? then rows else a.store, takes, cfg);
      }
    }
  }

  /** A run that is out of time is not what is told. */
  lemma AdriftIsNotTold(told: Told, o: Observed, u: Observed, end: Observed, cfg: Config)
    requires Adrift(end, u, cfg) && |u.spans| == |told.spans| && u.status == (if told.failed then Failed else Completed)
    requires o.spans == [] && (told.failed ==> EndsFull(told))
    ensures !Tells(o, told, end)
  {
    assert [] + told.spans == told.spans;
  }

  /** Under any deadline: the run of a well-shaped workflow whose parallel blocks are calm is the one
      the compiled stream tells, spans, skips, attempts and status, if and only if it is on time. */
  lemma DeadlineExactly(body: Body, inp: Inputs, store: Store)
    requires WellShaped(body) && Settles(inp) && Decided(body, inp)
    requires BlocksCalm(body, Takes(inp), inp.cfg, Observe(Started(store)))
    requires Predictable(Flatten(body), 0, store, {}, inp.cfg) && CutRepeats(Flatten(body), 0, store, inp.cfg)
    ensures ToldBy(StreamOf(Flatten(body), store, inp.cfg), Takes(inp), Observe(RunWorkflow(body, inp, store)))
       <==> OnTime(Flatten(body), 0, store, 0, Takes(inp), inp.cfg)
  {
    hide WellShaped, Settles, Decided, BlocksCalm, Takes, Flatten, Predictable, CutRepeats, StreamOf, ToldBy, RunBody,
         OnTime, Play, TreeEvents, FlatEvents, Tell, Tells, Adrift, Overran, PlainLoops;
    var flats, takes, cfg, o := Flatten(body), Takes(inp), inp.cfg, NothingYet(store);
    var events := TreeEvents(body, takes);
    var end, t, u := Observe(RunWorkflow(body, inp, store)), Play(events, cfg, o), Play(events, Untimed(cfg), o);
    assert Observe(Started(store)) == o;
    WellShapedLoops(body);
    WalkFollows(body, inp, Started(store));
    WellShapedIsAligned(body, takes);
    PlanMatchesTree(body, takes, {});
    StreamTellsRun(flats, store, takes, cfg);
    if end != t {
      ToldIsTells(flats, store, takes, cfg, end);
      ToldIsTells(flats, store, takes, cfg, t);
      UntimedLength(flats, takes, cfg, store);
      var told := Tell(flats, 0, store, takes, cfg);
      if told.failed {
        FailureIsTold(flats, 0, store, takes, cfg);
      }
      OverranIsAdrift(t, u, cfg);
      AdriftIsNotTold(told, o, u, t, cfg);
      AdriftIsNotTold(told, o, u, end, cfg);
    }
  }

  lemma OverranIsAdrift(o: Observed, u: Observed, cfg: Config)
    requires Overran(o, u)
    ensures Adrift(o, u, cfg)
  {
  }

  lemma UntimedLength(flats: seq<Flat>, takes: Outcomes, cfg: Config, store: Store)
    requires Predictable(flats, 0, store, {}, cfg)
    ensures var u, told := Play(FlatEvents(flats, takes, {}), Untimed(cfg), NothingYet(store)),
                           Tell(flats, 0, store, takes, cfg);
            |u.spans| == |told.spans| && u.status == if told.failed then Failed else Completed
  {
    hide Predictable, CutRepeats, Tell, Tells, Play, FlatEvents, OnTime;
    UntimedPlan(flats, 0, store, {}, cfg);
    PlanTold(flats, 0, store, {}, takes, Untimed(cfg), NothingYet(store));
    EventsFromIs(flats, 0, takes);
    assert flats[0..] == flats;
    TellUntimed(flats, 0, store, takes, cfg);
  }

  lemma WellShapedLoops(body: Body)
    requires WellShaped(body)
    ensures PlainLoops(body)
  {
    ShapedLoops(body);
  }

  lemma {:induction false} ShapedLoops(body: Body)
    requires Shaped(body)
    ensures PlainLoops(body)
  {
    match body
    case Done =>
    case StepItem(_, rest) =>
      ShapedLoops(rest);
    case GroupItem(kids, rest) =>
      StepsArePlain(kids);
      PlainIsPlain(kids);
      ShapedLoops(rest);
    case ParallelItem(kids, rest) =>
      StepsArePlain(kids);
      PlainIsPlain(kids);
      ShapedLoops(rest);
    case RepeatItem(_, kids, rest) =>
      UnguardedIsPlain(kids);
      PlainIsPlain(kids);
      ShapedLoops(rest);
    case GuardItem(_, kids, rest) =>
      UnguardedIsPlain(kids);
      PlainIsPlain(kids);
      ShapedLoops(rest);
  }

  // ---- Attempts made and predicted -----------------------------------------------------

  /** The clock has run for every step that has. */
  predicate ClockCovers(run: Run, r: Run) {
    r.status.Completed? ==>
      |r.spans| >= |run.spans| && r.now >= run.now + STEP_COST_MS * (|r.spans| - |run.spans|)
  }

  lemma StepTakesTime(step: Step, cfg: Config, run: Run)
    requires run.status.Completed?
    ensures ClockCovers(run, RunStep(step, cfg, run))
  {
    hide TryStep, RunEffects;
    SuccessIsFirst(step, run.store, cfg, run.now);
    if !TryStep(step, run.store, cfg, 1, run.now).failed {
      SucceedsOnce(step, run.store, cfg, 1, run.now);
    }
  }

  lemma ParallelTakesTime(steps: seq<Step>, inp: Inputs, run: Run)
    requires run.status.Completed? && Settles(inp)
    ensures ClockCovers(run, RunParallel(steps, inp, run))
  {
    hide RunBlock, BlockSpans;
    var schedule := inp.schedule(steps, run);
    var b := RunBlock(steps, inp.cfg, run.store, run.now, schedule);
    assert Settled(b.tasks);
    FewSpans(steps, b.tasks);
    if !AnyFails(b.tasks) {
      BlockTakesTime(steps, inp.cfg, run.store, run.now, schedule);
    }
  }

  lemma {:induction false} BodyTakesTime(body: Body, inp: Inputs, run: Run)
    requires run.status.Completed? && Settles(inp)
    ensures ClockCovers(run, RunBody(body, inp, run))
    decreases body, 1
  {
    hide RunBody, RunFirst, Settles;
    if body.Done? {
      NothingWalked(body, inp, run);
    } else {
      var next := RunFirst(body, inp, run);
      WalkStep(body, inp, run);
      FirstTakesTime(body, inp, run);
      if next.status.Completed? {
        BodyTakesTime(body.rest, inp, next);
      } else {
        BodyStopped(body.rest, inp, next);
      }
    }
  }

  lemma FirstTakesTime(body: Body, inp: Inputs, run: Run)
    requires !body.Done? && run.status.Completed? && Settles(inp)
    ensures ClockCovers(run, RunFirst(body, inp, run))
    decreases body, 0
  {
    hide RunBody, RunRepeat, RunUntil, RunParallel, RunStep, Settles, GuardVerdict;
    match body
    case StepItem(step, _) =>
      StepTakesTime(step, inp.cfg, run);
    case GroupItem(kids, _) =>
      BodyTakesTime(kids, inp, run);
    case ParallelItem(kids, _) =>
      ParallelTakesTime(AllSteps(kids), inp, run);
    case RepeatItem(count, kids, _) =>
      RepeatTakesTime(count, kids, inp, run);
    case GuardItem(g, kids, _) =>
      if g.mode.Until? {
        UntilTakesTime(g, kids, inp, run.now, 0, run);
      } else {
        BodyTakesTime(kids, inp, run);
      }
  }

  lemma {:induction false} RepeatTakesTime(count: nat, kids: Body, inp: Inputs, run: Run)
    requires run.status.Completed? && Settles(inp)
    ensures ClockCovers(run, RunRepeat(count, kids, inp, run))
    decreases kids, 2, count
  {
    hide RunBody, Settles;
    if count > 0 {
      var next := RunBody(kids, inp, run);
      BodyTakesTime(kids, inp, run);
      if next.status.Completed? {
        RepeatTakesTime(count - 1, kids, inp, next);
      } else {
        RepeatStopped(count - 1, kids, inp, next);
      }
    }
  }

  lemma {:induction false} UntilTakesTime(g: Guard, kids: Body, inp: Inputs, start: nat, rounds: nat, run: Run)
    requires rounds <= UNTIL_ROUND_CAP && run.status.Completed? && Settles(inp)
    ensures ClockCovers(run, RunUntil(g, kids, inp, start, rounds, run))
    decreases kids, 2, UNTIL_ROUND_CAP - rounds
  {
    hide RunBody, Settles, GuardVerdict;
    if GuardVerdict(inp.u, g, inp.scope) == Holds(false) && rounds < UNTIL_ROUND_CAP {
      var next := RunBody(kids, inp, run);
      BodyTakesTime(kids, inp, run);
      if next.status.Completed? {
        UntilTakesTime(g, kids, inp, start, rounds + 1, next);
      }
    }
  }

  lemma TriesWithinPrediction(step: Step, store: Store, cfg: Config, before: nat, now: nat)
    requires RunEffects(step.effects, store, cfg).failed && cfg.faults == {} && now >= STEP_COST_MS * before
    ensures TryStep(step, store, cfg, 1, now).attempts
         <= StaticAttempts(step.effects, |RunEffects(step.effects, store, cfg).kinds| - 1, before, cfg.retry,
                           cfg.timeout)
  {
    hide RunEffects, StoreAt, RaisesFirst, Within;
    AttemptIs(step.effects, store, cfg);
    var k := |RunEffects(step.effects, store, cfg).kinds| - 1;
    if cfg.retry > 0 && AllIdempotent(step.effects) {
      var b := Budget(STEP_COST_MS * before, MissCost(step.effects[k]), cfg.retry, cfg.timeout);
      WithinItself(step.effects, k, store);
      assert AfterBackoff(b, 0) == b.start;
      TriesWithin(step, store, store, cfg, k, 1, now, b);
    } else {
      assert !Retryable(step, cfg, 1);
    }
  }

  /** After any run of any body that has left no planned step out, the next step is attempted no more
      often than predicted: the clock has run for every step before it. */
  lemma AttemptsWithinPrediction(body: Body, step: Step, inp: Inputs, store: Store)
    requires Settles(inp) && inp.cfg.faults == {}
    requires var run := RunWorkflow(body, inp, store);
             && run.status.Completed? && |run.spans| >= |Flatten(body)|
             && RunEffects(step.effects, run.store, inp.cfg).failed
    ensures var run, cfg := RunWorkflow(body, inp, store), inp.cfg;
            TryStep(step, run.store, cfg, 1, run.now).attempts
            <= StaticAttempts(step.effects, |RunEffects(step.effects, run.store, cfg).kinds| - 1, |Flatten(body)|,
                              cfg.retry, cfg.timeout)
  {
    hide Settles, RunEffects, RunBody, TryStep, Flatten, StaticAttempts;
    BodyTakesTime(body, inp, Started(store));
    var run := RunWorkflow(body, inp, store);
    TriesWithinPrediction(step, run.store, inp.cfg, |Flatten(body)|, run.now);
  }

  /** The workflow of these steps, one after the other. */
  function Chain(steps: seq<Step>): Body {
    if steps == [] then Done else StepItem(steps[0], Chain(steps[1..]))
  }

  lemma {:induction false} ChainFlat(steps: seq<Step>)
    ensures |Flatten(Chain(steps))| == |steps|
    ensures forall k :: 0 <= k < |steps| ==> Flatten(Chain(steps))[k] == Flat(steps[k], None)
  {
    if steps != [] {
      ChainFlat(steps[1..]);
    }
  }

  // ---- Two workflows -------------------------------------------------------------------

  const FIND_PRODUCT := Step("a", "find product", [RepositoryCall(Read, "product")])
  const FIND_ORDER := Step("b", "find order", [RepositoryCall(Read, "order")])

  lemma OneRead(entity: string, store: Store, cfg: Config)
    requires cfg.faults == {}
    ensures var effects := [RepositoryCall(Read, entity)];
            && RunEffects(effects, store, cfg)
               == (if Row(entity) in store then Attempt(store + {Bound(entity)}, ["RepositoryCall"], false)
                   else Attempt(store, ["RepositoryCall"], true))
            && Scan(effects, store, cfg) == RunEffects(effects, store, cfg)
            && Kinds(effects) == ["RepositoryCall"]
  {
    var effects := [RepositoryCall(Read, entity)];
    assert effects[1..] == [];
    assert RunEffects([], store + {Bound(entity)}, cfg) == Scan([], store + {Bound(entity)}, cfg)
        == Attempt(store + {Bound(entity)}, [], false);
  }

  lemma FirstDelay()
    ensures BackoffMs(1) == 100 && BackoffSum(0) == 0
  {
  }

  /** What the clock at compile time leaves of two attempts. */
  lemma PredictedAttempts(timeout: int)
    ensures StaticAttempts(FIND_ORDER.effects, 0, 1, 1, Some(timeout)) == if 106 < timeout then 2 else 1
  {
    var b := Budget(STEP_COST_MS * 1, MissCost(FIND_ORDER.effects[0]), 1, Some(timeout));
    FirstDelay();
    assert ClockAt(b, 1) == 6 && (Stops(b, 1) <==> timeout <= 106) && Stops(b, 2);
    FirstStop(b, if 106 < timeout then 2 else 1);
    assert AllIdempotent(FIND_ORDER.effects);
  }

  /** What the run's clock leaves of them. */
  lemma MadeAttempts(store: Store, cfg: Config, now: nat)
    requires cfg.faults == {} && cfg.retry == 1 && cfg.timeout.Some? && now < cfg.timeout.value
             && Row("order") !in store
    ensures var t := TryStep(FIND_ORDER, store, cfg, 1, now);
            && t.failed
            && t.kinds == if now + 101 < cfg.timeout.value then ["RepositoryCall", "RepositoryCall"]
                else ["RepositoryCall"]
  {
    hide RunEffects, TryStep;
    OneRead("order", store, cfg);
    FirstDelay();
    assert AllIdempotent(FIND_ORDER.effects);
    OneTry(FIND_ORDER, store, cfg, 1, now);
    if now + 101 < cfg.timeout.value {
      OneTry(FIND_ORDER, store, cfg, 2, now + 101);
    }
  }

  /** Two reads, the second of a row that is not there, one retry and 107 ms: two attempts are
      predicted, but the first read has taken the millisecond the second attempt needs. */
  lemma OneEffectCostsAnAttempt(inp: Inputs, takes: Outcomes)
    requires inp.cfg == Config(true, true, 1, Some(107), {})
    ensures var body := Chain([FIND_PRODUCT, FIND_ORDER]);
            var stream := StreamOf(Flatten(body), {Row("product")}, inp.cfg);
            var end := RunWorkflow(body, inp, {Row("product")});
            && end.status.Failed?
            && end.spans == [Span("find product", ["RepositoryCall"]), Span("find order", ["RepositoryCall"])]
            && stream.failed
            && OpSpans(stream.ops, takes)
               == [Span("find product", ["RepositoryCall"]),
                   Span("find order", ["RepositoryCall", "RepositoryCall"])]
  {
    var steps, store, cfg := [FIND_PRODUCT, FIND_ORDER], {Row("product")}, inp.cfg;
    hide RunEffects, Scan, TryStep, StaticAttempts, Tell, OpSpans, StreamOf, Times;
    TwoStepsRun(inp, store);
    OneRead("product", store, cfg);
    OneRead("order", store + {Bound("product")}, cfg);
    SucceedsOnce(FIND_PRODUCT, store, cfg, 1, 0);
    MadeAttempts(store + {Bound("product")}, cfg, 6);
    ChainFlat(steps);
    StreamTold(Flatten(Chain(steps)), store, takes, cfg);
    ToldFirst(Flatten(Chain(steps)), 0, store, takes, cfg);
    ToldFirst(Flatten(Chain(steps)), 1, store + {Bound("product")}, takes, cfg);
    PredictedAttempts(107);
    TwoTimes(["RepositoryCall"]);
    assert Times(["RepositoryCall"], 2) == ["RepositoryCall", "RepositoryCall"];
    var told := Tell(Flatten(Chain(steps)), 1, store + {Bound("product")}, takes, cfg);
    assert told.spans == [Span("find order", ["RepositoryCall", "RepositoryCall"])];
    assert [Span("find product", ["RepositoryCall"])] + told.spans
        == [Span("find product", ["RepositoryCall"]), Span("find order", ["RepositoryCall", "RepositoryCall"])];
  }

  lemma TwoStepsRun(inp: Inputs, store: Store)
    ensures var next := RunStep(FIND_PRODUCT, inp.cfg, Started(store));
            next.status.Completed? ==>
              RunWorkflow(Chain([FIND_PRODUCT, FIND_ORDER]), inp, store) == RunStep(FIND_ORDER, inp.cfg, next)
  {
    hide RunStep;
    var steps := [FIND_PRODUCT, FIND_ORDER];
    assert steps[1..] == [FIND_ORDER] && [FIND_ORDER][1..] == [];
    assert Chain([FIND_ORDER]) == StepItem(FIND_ORDER, Done);
  }

  /** A `when` that is not taken, then a read of a row that is not there, one retry and 106 ms: one
      attempt is predicted and two are made, because the skipped step costs no time. */
  lemma SkippedStepAddsAnAttempt(g: Guard, inp: Inputs)
    requires inp.cfg == Config(true, true, 1, Some(106), {})
    requires g.mode.When? && GuardVerdict(inp.u, g, inp.scope) == Holds(false)
    ensures var body := GuardItem(g, Chain([FIND_PRODUCT]), Chain([FIND_ORDER]));
            var stream := StreamOf(Flatten(body), {}, inp.cfg);
            var end := RunWorkflow(body, inp, {});
            && end.status.Failed? && end.spans == [Span("find order", ["RepositoryCall", "RepositoryCall"])]
            && stream.failed && OpSpans(stream.ops, Takes(inp)) == [Span("find order", ["RepositoryCall"])]
  {
    var body, cfg, takes := GuardItem(g, Chain([FIND_PRODUCT]), Chain([FIND_ORDER])), inp.cfg, Takes(inp);
    hide RunEffects, Scan, TryStep, StaticAttempts, Tell, OpSpans, StreamOf, Times, GuardVerdict, Skip;
    SkippedFlat(g);
    OneRead("order", {}, cfg);
    MadeAttempts({}, cfg, 0);
    GuardThenStep(g, inp);
    StreamTold(Flatten(body), {}, takes, cfg);
    ToldFirst(Flatten(body), 0, {}, takes, cfg);
    ToldFirst(Flatten(body), 1, {}, takes, cfg);
    PredictedAttempts(106);
    TimesOnce(["RepositoryCall"]);
    assert !takes(g);
  }

  lemma SkippedFlat(g: Guard)
    requires g.mode.When?
    ensures Flatten(GuardItem(g, Chain([FIND_PRODUCT]), Chain([FIND_ORDER])))
         == [Flat(FIND_PRODUCT, Some(g)), Flat(FIND_ORDER, None)]
  {
    ChainFlat([FIND_PRODUCT]);
    ChainFlat([FIND_ORDER]);
    var kids := Flatten(Chain([FIND_PRODUCT]));
    assert kids == [Flat(FIND_PRODUCT, None)] && Flatten(Chain([FIND_ORDER])) == [Flat(FIND_ORDER, None)];
    assert kids[1..] == [] && Tag(kids, g) == [Flat(FIND_PRODUCT, Some(g))] + Tag([], g);
    TimesOnce(Tag(kids, g));
  }

  lemma GuardThenStep(g: Guard, inp: Inputs)
    requires g.mode.When? && GuardVerdict(inp.u, g, inp.scope) == Holds(false)
    ensures var run := Skip(g, Chain([FIND_PRODUCT]), Started({}));
            RunWorkflow(GuardItem(g, Chain([FIND_PRODUCT]), Chain([FIND_ORDER])), inp, {})
            == RunStep(FIND_ORDER, inp.cfg, run) && run.spans == [] && run.now == 0 && run.store == {}
               && run.status.Completed?
  {
    hide GuardVerdict, RunStep, StepNames, RunBody;
    var body, run := GuardItem(g, Chain([FIND_PRODUCT]), Chain([FIND_ORDER])), Started({});
    assert Chain([FIND_ORDER]) == StepItem(FIND_ORDER, Done) by { assert [FIND_ORDER][1..] == []; }
    WalkStep(body, inp, run);
    var next := Skip(g, Chain([FIND_PRODUCT]), run);
    assert RunFirst(body, inp, run) == next;
    WalkStep(StepItem(FIND_ORDER, Done), inp, next);
    DoneRuns(inp, RunStep(FIND_ORDER, inp.cfg, next));
  }

  lemma DoneRuns(inp: Inputs, run: Run)
    ensures RunBody(Done, inp, run) == run
  {
  }
}
