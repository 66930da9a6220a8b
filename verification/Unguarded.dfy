/** What the scan does not see, with inputs: driver faults, and rows that an assignment writes back.
    For plans without guards the compiled op stream is the run exactly where neither is met. */
module Unguarded {
  import opened Wrappers
  import opened Text
  import opened Workflow
  import opened Flattening
  import opened Attempts
  import opened Blocks
  import opened Footprint
  import opened Interp
  import opened Events
  import opened SkipGrain
  import opened Retry
  import opened RetryTrace
  import opened Ops
  import opened Prediction
  import opened StreamRun

  // ---- What is written back ------------------------------------------------------------

  /** The rows that only an assignment has written back: the run has them, the scan does not. */
  function RevivedAfter(effect: Effect, rows: Store, revived: set<Cell>): set<Cell> {
    if effect.Assignment? && Row(effect.entity) !in rows then revived + {Row(effect.entity)} else revived
  }

  function RevivedThrough(effects: seq<Effect>, rows: Store, revived: set<Cell>, cfg: Config): set<Cell> {
    if effects == [] || Foretold(effects[0], rows, cfg) then revived
    else RevivedThrough(effects[1..], TrackedAfter(effects[0], rows), RevivedAfter(effects[0], rows, revived), cfg)
  }

  /** The scan is right about the effect: a driver fault strikes only where the scan sees a failure
      anyway, an assignment has a bound row, and nothing asks for a row that only an assignment wrote
      back, but a `create` that has no id to begin with. */
  predicate Seen(effect: Effect, rows: Store, revived: set<Cell>, cfg: Config) {
    if effect in cfg.faults then Foretold(effect, rows, cfg)
    else
      match effect
      case Assignment(e, _) => Bound(e) in rows
      case RepositoryCall(op, e) => Row(e) in revived ==> op.Query? || (op.Create? && !cfg.hasId)
      case _ => true
  }

  /** It is right up to the effect it sees fail. */
  predicate SeenAll(effects: seq<Effect>, rows: Store, revived: set<Cell>, cfg: Config) {
    effects == [] || (
      && Seen(effects[0], rows, revived, cfg)
      && (Foretold(effects[0], rows, cfg)
          || SeenAll(effects[1..], TrackedAfter(effects[0], rows), RevivedAfter(effects[0], rows, revived), cfg)))
  }

  /** The run's store is the tracked one and the rows that were written back. */
  ghost predicate Ahead(store: Store, rows: Store, revived: set<Cell>) {
    store == rows + revived && rows !! revived && forall c :: c in revived ==> c.Row?
  }

  lemma SeenExactly(effect: Effect, store: Store, rows: Store, revived: set<Cell>, cfg: Config)
    requires Ahead(store, rows, revived)
    ensures Raises(effect, store, cfg) == Foretold(effect, rows, cfg) <==> Seen(effect, rows, revived, cfg)
    ensures Seen(effect, rows, revived, cfg) && !Foretold(effect, rows, cfg) ==>
              Ahead(After(effect, store), TrackedAfter(effect, rows), RevivedAfter(effect, rows, revived))
  {
  }

  /** What is seen runs as it is scanned. */
  lemma {:induction false} SeenRuns(effects: seq<Effect>, store: Store, rows: Store, revived: set<Cell>, cfg: Config)
    requires Ahead(store, rows, revived) && SeenAll(effects, rows, revived, cfg)
    ensures var x, y := RunEffects(effects, store, cfg), Scan(effects, rows, cfg);
            && x.failed == y.failed && x.kinds == y.kinds
            && (!x.failed ==> Ahead(x.store, y.store, RevivedThrough(effects, rows, revived, cfg)))
  {
    if effects != [] {
      hide Raises, Foretold, After, TrackedAfter, RevivedAfter, Seen, Ahead;
      var e := effects[0];
      SeenExactly(e, store, rows, revived, cfg);
      if !Foretold(e, rows, cfg) {
        SeenRuns(effects[1..], After(e, store), TrackedAfter(e, rows), RevivedAfter(e, rows, revived), cfg);
      }
    }
  }

  /** What is not seen makes an attempt end sooner, or go on longer, than the scan expects. */
  lemma {:induction false} UnseenDiffers(effects: seq<Effect>, store: Store, rows: Store, revived: set<Cell>,
                                         cfg: Config)
    requires Ahead(store, rows, revived) && !SeenAll(effects, rows, revived, cfg)
    ensures var x, y := RunEffects(effects, store, cfg), Scan(effects, rows, cfg);
            || (x.failed && (y.failed ==> |x.kinds| < |y.kinds|))
            || (y.failed && (x.failed ==> |y.kinds| < |x.kinds|))
  {
    hide Raises, Foretold, After, TrackedAfter, RevivedAfter, Seen, Ahead;
    var e := effects[0];
    SeenExactly(e, store, rows, revived, cfg);
    if Seen(e, rows, revived, cfg) {
      UnseenDiffers(effects[1..], After(e, store), TrackedAfter(e, rows), RevivedAfter(e, rows, revived), cfg);
    }
  }

  /** One copy of the failing prefix per attempt: the retried trace repeats itself. */
  ghost predicate Repeatable(effects: seq<Effect>, rows: Store, cfg: Config) {
    var a := Scan(effects, rows, cfg);
    a.failed ==> TimesTried(effects, cfg.retry) == 1 || !LosesRow(effects, |a.kinds| - 1)
  }

  /** The scan is right all the way, and the step that fails leaves the same trace every time. */
  ghost predicate FoundAsIs(flats: seq<Flat>, k: nat, rows: Store, revived: set<Cell>, cfg: Config)
    requires k <= |flats|
    decreases |flats| - k
  {
    k == |flats| || (
      var effects := flats[k].step.effects;
      var a := Scan(effects, rows, cfg);
      && SeenAll(effects, rows, revived, cfg)
      && if a.failed then Repeatable(effects, rows, cfg)
         else FoundAsIs(flats, k + 1, a.store, RevivedThrough(effects, rows, revived, cfg), cfg))
  }

  ghost predicate KeepsRows(effects: seq<Effect>) {
    forall v :: 0 <= v < |effects| ==> !LosesRow(effects, v)
  }

  /** The step at which the scan is first wrong is tried once, or loses no row on the way: otherwise
      its shorter retries can add up to the predicted trace (`AgreesByAccident`). */
  ghost predicate Steady(flats: seq<Flat>, k: nat, rows: Store, revived: set<Cell>, cfg: Config)
    requires k <= |flats|
    decreases |flats| - k
  {
    k == |flats| || (
      var effects := flats[k].step.effects;
      var a := Scan(effects, rows, cfg);
      if !SeenAll(effects, rows, revived, cfg) then TimesTried(effects, cfg.retry) == 1 || KeepsRows(effects)
      else a.failed || Steady(flats, k + 1, a.store, RevivedThrough(effects, rows, revived, cfg), cfg))
  }

  lemma PlayFailsAnyhow(step: Step, cfg: Config, o: Observed)
    requires cfg.timeout.None? && o.status.Completed? && RunEffects(step.effects, o.store, cfg).failed
    ensures var e := PlayEvent(Ran(step), cfg, o);
            && e.status.Failed? && e.skips == o.skips
            && e.spans == o.spans + [Span(step.name, RunAttempts(step, o.store, cfg, 1).kinds)]
  {
    hide RunEffects, RunAttempts, TimesTried, LosesRow, TryStep;
    RetriedTraceExactly(step, o.store, cfg);
    StepUntimed(step, cfg, o);
  }

  /** The rest of a run that has failed. */
  lemma PlayEndsHere(flats: seq<Flat>, k: nat, takes: Outcomes, cfg: Config, o: Observed)
    requires cfg.timeout.None? && k < |flats| && flats[k].guard.None? && o.status.Completed?
    requires RunEffects(flats[k].step.effects, o.store, cfg).failed
    ensures var end := Play(EventsFrom(flats, k, takes), cfg, o);
            && end.status.Failed? && end.skips == o.skips
            && end.spans == o.spans + [Span(flats[k].step.name, RunAttempts(flats[k].step, o.store, cfg, 1).kinds)]
  {
    hide RunEffects, RunAttempts, Play, PlayEvent;
    var step, rest := flats[k].step, EventsFrom(flats, k + 1, takes);
    PlayFailsAnyhow(step, cfg, o);
    PlayOne(Ran(step), rest, cfg, o);
    PlayStopped(rest, cfg, PlayEvent(Ran(step), cfg, o));
  }

  /** A foreseen failure is told exactly if its trace repeats. */
  lemma FailureToldExactly(flats: seq<Flat>, k: nat, rows: Store, revived: set<Cell>, takes: Outcomes, cfg: Config,
                           o: Observed)
    requires cfg.timeout.None? && k < |flats| && flats[k].guard.None? && o.status.Completed?
    requires Ahead(o.store, rows, revived) && SeenAll(flats[k].step.effects, rows, revived, cfg)
    requires Scan(flats[k].step.effects, rows, cfg).failed
    ensures Tells(o, Tell(flats, k, rows, takes, cfg), Play(EventsFrom(flats, k, takes), cfg, o))
       <==> Repeatable(flats[k].step.effects, rows, cfg)
  {
    assert 1 <= MAX_STEP_ATTEMPTS;
    hide *;
    var step := flats[k].step;
    var kinds := RunAttempts(step, o.store, cfg, 1).kinds;
    ToldFailing(flats, k, rows, takes, cfg);
    SeenRuns(step.effects, o.store, rows, revived, cfg);
    PlayEndsHere(flats, k, takes, cfg, o);
    RetriedTraceExactly(step, o.store, cfg);
    TellsOneSpan(o, step.name, kinds, Times(Scan(step.effects, rows, cfg).kinds, TimesTried(step.effects, cfg.retry)),
                 Play(EventsFrom(flats, k, takes), cfg, o));
    RepeatableIs(step.effects, rows, cfg);
  }

  lemma ToldFailing(flats: seq<Flat>, k: nat, rows: Store, takes: Outcomes, cfg: Config)
    requires cfg.timeout.None? && k < |flats| && flats[k].guard.None? && Scan(flats[k].step.effects, rows, cfg).failed
    ensures var step := flats[k].step;
            Tell(flats, k, rows, takes, cfg)
            == Told([Span(step.name, Times(Scan(step.effects, rows, cfg).kinds, TimesTried(step.effects, cfg.retry)))],
                    [], true)
  {
    hide Scan, TimesTried, StaticAttempts, Times;
    StaticIsAttempts(flats[k].step.effects, |Scan(flats[k].step.effects, rows, cfg).kinds| - 1, k, cfg.retry);
  }

  lemma TellsOneSpan(o: Observed, name: string, kinds: seq<string>, told: seq<string>, end: Observed)
    requires end.status.Failed? && end.skips == o.skips && end.spans == o.spans + [Span(name, kinds)]
    ensures Tells(o, Told([Span(name, told)], [], true), end) <==> kinds == told
  {
    LastSpan(o.spans, name, kinds, told);
    assert o.skips + [] == o.skips;
  }

  lemma RepeatableIs(effects: seq<Effect>, rows: Store, cfg: Config)
    requires Scan(effects, rows, cfg).failed
    ensures Repeatable(effects, rows, cfg)
       <==> TimesTried(effects, cfg.retry) == 1 || !LosesRow(effects, |Scan(effects, rows, cfg).kinds| - 1)
  {
    hide Scan, LosesRow, TimesTried;
  }

  /** A run that ends sooner than the scan expects is not told. */
  lemma SoonerIsNotTold(flats: seq<Flat>, k: nat, rows: Store, takes: Outcomes, cfg: Config, o: Observed)
    requires cfg.timeout.None? && k < |flats| && flats[k].guard.None? && o.status.Completed?
    requires var x, y := RunEffects(flats[k].step.effects, o.store, cfg), Scan(flats[k].step.effects, rows, cfg);
             x.failed && (y.failed ==> |x.kinds| < |y.kinds|)
    ensures !Tells(o, Tell(flats, k, rows, takes, cfg), Play(EventsFrom(flats, k, takes), cfg, o))
  {
    hide RunEffects, Scan, RunAttempts, TimesTried, Play, Tell, EventsFrom, Times, Kinds, StaticAttempts;
    var step := flats[k].step;
    var a := Scan(step.effects, rows, cfg);
    PlayEndsHere(flats, k, takes, cfg, o);
    ToldFirst(flats, k, rows, takes, cfg);
    if a.failed {
      StaticIsAttempts(step.effects, |a.kinds| - 1, k, cfg.retry);
      FaultShortens(step, o.store, cfg, a.kinds);
      LastSpan(o.spans, step.name, RunAttempts(step, o.store, cfg, 1).kinds,
               Times(a.kinds, TimesTried(step.effects, cfg.retry)));
    } else if Tell(flats, k + 1, a.store, takes, cfg).failed {
      FailureIsTold(flats, k + 1, a.store, takes, cfg);
    }
  }

  lemma FaultShortens(step: Step, store: Store, cfg: Config, kinds: seq<string>)
    requires RunEffects(step.effects, store, cfg).failed && |RunEffects(step.effects, store, cfg).kinds| < |kinds|
    ensures RunAttempts(step, store, cfg, 1).kinds != Times(kinds, TimesTried(step.effects, cfg.retry))
  {
    hide RunEffects, RunAttempts, TimesTried, Times, LosesRow;
    var n := TimesTried(step.effects, cfg.retry);
    RetriedTraceExactly(step, store, cfg);
    TimesLength(kinds, n);
    TimesLess(n, |RunEffects(step.effects, store, cfg).kinds|, |kinds|);
  }

  lemma TimesLess(n: nat, a: nat, b: nat)
    requires n >= 1 && a < b
    ensures n * a < n * b
  {
  }

  /** A run that goes on where the scan expects a failure is not told. */
  lemma LaterIsNotTold(flats: seq<Flat>, k: nat, rows: Store, takes: Outcomes, cfg: Config, o: Observed)
    requires cfg.timeout.None? && k < |flats| && flats[k].guard.None? && o.status.Completed?
    requires var x, y := RunEffects(flats[k].step.effects, o.store, cfg), Scan(flats[k].step.effects, rows, cfg);
             y.failed && (x.failed ==> |y.kinds| < |x.kinds|)
    requires TimesTried(flats[k].step.effects, cfg.retry) == 1 || KeepsRows(flats[k].step.effects)
    ensures !Tells(o, Tell(flats, k, rows, takes, cfg), Play(EventsFrom(flats, k, takes), cfg, o))
  {
    hide RunEffects, Scan, RunAttempts, TimesTried, Play, PlayEvent, Tell, Times, Kinds, StaticAttempts, KeepsRows;
    var step := flats[k].step;
    var x, a := RunEffects(step.effects, o.store, cfg), Scan(step.effects, rows, cfg);
    ToldFirst(flats, k, rows, takes, cfg);
    if x.failed {
      PlayEndsHere(flats, k, takes, cfg, o);
      StaticIsAttempts(step.effects, |a.kinds| - 1, k, cfg.retry);
      LaterLengthens(step, o.store, cfg, a.kinds);
      LastSpan(o.spans, step.name, RunAttempts(step, o.store, cfg, 1).kinds,
               Times(a.kinds, TimesTried(step.effects, cfg.retry)));
    } else {
      StepSucceeds(step, cfg, o);
      PlayOne(Ran(step), EventsFrom(flats, k + 1, takes), cfg, o);
      PlayGrows(EventsFrom(flats, k + 1, takes), cfg, PlayEvent(Ran(step), cfg, o));
    }
  }

  lemma LaterLengthens(step: Step, store: Store, cfg: Config, kinds: seq<string>)
    requires RunEffects(step.effects, store, cfg).failed && |kinds| < |RunEffects(step.effects, store, cfg).kinds|
    requires TimesTried(step.effects, cfg.retry) == 1 || KeepsRows(step.effects)
    ensures RunAttempts(step, store, cfg, 1).kinds != Times(kinds, TimesTried(step.effects, cfg.retry))
  {
    hide RunEffects, RunAttempts, TimesTried, Times, LosesRow;
    var n, a := TimesTried(step.effects, cfg.retry), RunEffects(step.effects, store, cfg);
    RetriedTraceExactly(step, store, cfg);
    TimesLength(kinds, n);
    TimesLength(a.kinds, n);
    TimesLess(n, |kinds|, |a.kinds|);
  }

  /** An entry that succeeds as it is scanned: the rest decides. */
  lemma SuccessToldExactly(flats: seq<Flat>, k: nat, rows: Store, revived: set<Cell>, takes: Outcomes, cfg: Config,
                           o: Observed)
    requires cfg.timeout.None? && k < |flats| && flats[k].guard.None? && o.status.Completed?
    requires Ahead(o.store, rows, revived) && SeenAll(flats[k].step.effects, rows, revived, cfg)
    requires !Scan(flats[k].step.effects, rows, cfg).failed
    ensures var next := PlayEvent(Ran(flats[k].step), cfg, o);
            var y := Scan(flats[k].step.effects, rows, cfg);
            && next.status.Completed?
            && Ahead(next.store, y.store, RevivedThrough(flats[k].step.effects, rows, revived, cfg))
            && (Tells(o, Tell(flats, k, rows, takes, cfg), Play(EventsFrom(flats, k, takes), cfg, o))
                <==> Tells(next, Tell(flats, k + 1, y.store, takes, cfg),
                           Play(EventsFrom(flats, k + 1, takes), cfg, next)))
  {
    hide RunEffects, Scan, SeenAll, Play, PlayEvent, Tell, Tells, Ahead, RevivedThrough;
    var step := flats[k].step;
    var a := Scan(step.effects, rows, cfg);
    SeenRuns(step.effects, o.store, rows, revived, cfg);
    StepSucceeds(step, cfg, o);
    PlayOne(Ran(step), EventsFrom(flats, k + 1, takes), cfg, o);
    ToldFirst(flats, k, rows, takes, cfg);
    TellsNext(o, [Span(step.name, Kinds(step.effects))], [], PlayEvent(Ran(step), cfg, o),
                     Tell(flats, k + 1, a.store, takes, cfg),
                     Play(EventsFrom(flats, k + 1, takes), cfg, PlayEvent(Ran(step), cfg, o)));
  }

  /** On an unguarded plan the compiled stream tells the run, its failing effect and retried trace
      included, if and only if, up to the failure the scan finds, no driver fault strikes, every
      assignment has a bound row, nothing asks for a row that only an assignment wrote back, and the
      failing step, if tried again, loses no row it asks for. */
  lemma {:induction false} UnguardedScanIsExact(flats: seq<Flat>, k: nat, rows: Store, revived: set<Cell>,
                                                takes: Outcomes, cfg: Config, o: Observed)
    requires cfg.timeout.None? && k <= |flats| && (forall j :: 0 <= j < |flats| ==> flats[j].guard.None?)
             && o.status.Completed?
    requires Ahead(o.store, rows, revived) && Steady(flats, k, rows, revived, cfg)
    ensures Tells(o, Tell(flats, k, rows, takes, cfg), Play(EventsFrom(flats, k, takes), cfg, o))
       <==> FoundAsIs(flats, k, rows, revived, cfg)
    decreases |flats| - k
  {
    if k == |flats| {
      assert o.spans + [] == o.spans && o.skips + [] == o.skips;
    } else {
      hide RunEffects, Scan, SeenAll, Repeatable, Play, PlayEvent, Tell, Tells, Ahead, RevivedThrough, KeepsRows;
      var effects := flats[k].step.effects;
      var a := Scan(effects, rows, cfg);
      if !SeenAll(effects, rows, revived, cfg) {
        UnseenDiffers(effects, o.store, rows, revived, cfg);
        var x := RunEffects(effects, o.store, cfg);
        if x.failed && (a.failed ==> |x.kinds| < |a.kinds|) {
          SoonerIsNotTold(flats, k, rows, takes, cfg, o);
        } else {
          LaterIsNotTold(flats, k, rows, takes, cfg, o);
        }
      } else if a.failed {
        FailureToldExactly(flats, k, rows, revived, takes, cfg, o);
      } else {
        SuccessToldExactly(flats, k, rows, revived, takes, cfg, o);
        UnguardedScanIsExact(flats, k + 1, a.store, RevivedThrough(effects, rows, revived, cfg), takes, cfg,
                             PlayEvent(Ran(flats[k].step), cfg, o));
      }
    }
  }

  /** The same of a whole run, at whose start nothing has been written back. */
  lemma UnguardedStreamIsExact(flats: seq<Flat>, store: Store, takes: Outcomes, cfg: Config)
    requires cfg.timeout.None? && (forall j :: 0 <= j < |flats| ==> flats[j].guard.None?)
    requires Steady(flats, 0, store, {}, cfg)
    ensures ToldBy(StreamOf(flats, store, cfg), takes, Play(FlatEvents(flats, takes, {}), cfg, NothingYet(store)))
       <==> FoundAsIs(flats, 0, store, {}, cfg)
  {
    hide StreamOf, Tell, Tells, Play, FlatEvents, ToldBy, Steady, FoundAsIs;
    UnguardedScanIsExact(flats, 0, store, {}, takes, cfg, NothingYet(store));
    EventsFromIs(flats, 0, takes);
    assert flats[0..] == flats;
    ToldIsTells(flats, store, takes, cfg, Play(FlatEvents(flats, takes, {}), cfg, NothingYet(store)));
  }

  // ---- What the scan does not see ------------------------------------------------------

  /** A network call that fails ends mode A's run; mode B's stream completes. */
  lemma FaultyCallIsMissed(takes: Outcomes, cfg: Config)
    requires cfg.faults == {NetworkCall("gateway")} && cfg.timeout.None?
    ensures var flats := [Flat(Step("call", "call gateway", [NetworkCall("gateway")]), None)];
            && Play(EventsFrom(flats, 0, takes), cfg, Observed({}, 0, [], [], Completed)).status.Failed?
            && !StreamOf(flats, {}, cfg).failed
  {
    var step := Step("call", "call gateway", [NetworkCall("gateway")]);
    var flats := [Flat(step, None)];
    assert step.effects[0] in cfg.faults;
    PlayEndsHere(flats, 0, takes, cfg, Observed({}, 0, [], [], Completed));
    assert !Scan(step.effects, {}, cfg).failed by { assert step.effects[1..] == []; }
  }

  lemma OneEffect(effect: Effect, store: Store, rows: Store, cfg: Config)
    ensures RunEffects([effect], store, cfg)
         == if Raises(effect, store, cfg) then Attempt(store, [effect.Kind()], true)
            else Attempt(After(effect, store), [effect.Kind()], false)
    ensures Scan([effect], rows, cfg)
         == if Foretold(effect, rows, cfg) then Attempt(rows, [effect.Kind()], true)
            else Attempt(TrackedAfter(effect, rows), [effect.Kind()], false)
  {
    hide Raises, Foretold, After, TrackedAfter, Effect.Kind;
    var effects := [effect];
    assert effects[1..] == [];
    assert RunEffects([], After(effect, store), cfg) == Attempt(After(effect, store), [], false);
    assert Scan([], TrackedAfter(effect, rows), cfg) == Attempt(TrackedAfter(effect, rows), [], false);
  }

  const FIND := Step("find", "find order", [RepositoryCall(Read, "order")])
  const DROP := Step("drop", "drop order", [RepositoryCall(Delete, "order")])
  const SET := Step("set", "set status", [Assignment("order", "status")])
  const AGAIN := Step("again", "find order again", [RepositoryCall(Read, "order")])

  /** An unguarded entry that succeeds, for the run and for the scan. */
  lemma EntrySucceeds(flats: seq<Flat>, k: nat, rows: Store, takes: Outcomes, cfg: Config, o: Observed)
    requires cfg.timeout.None? && k < |flats| && flats[k].guard.None? && |flats[k].step.effects| == 1
             && o.status.Completed?
    requires !Raises(flats[k].step.effects[0], o.store, cfg) && !Foretold(flats[k].step.effects[0], rows, cfg)
    ensures var step, effect := flats[k].step, flats[k].step.effects[0];
            && Play(EventsFrom(flats, k, takes), cfg, o)
               == Play(EventsFrom(flats, k + 1, takes), cfg,
                       o.(store := After(effect, o.store), now := o.now + 6,
                          spans := o.spans + [Span(step.name, [effect.Kind()])]))
            && FirstFailure(flats, k, rows, cfg) == FirstFailure(flats, k + 1, TrackedAfter(effect, rows), cfg)
  {
    hide Raises, Foretold, After, TrackedAfter, Effect.Kind, Play, PlayEvent, RunEffects, Scan;
    var step := flats[k].step;
    assert step.effects == [step.effects[0]];
    OneEffect(step.effects[0], o.store, rows, cfg);
    StepSucceeds(step, cfg, o);
    PlayOne(Ran(step), EventsFrom(flats, k + 1, takes), cfg, o);
  }

  const REVIVAL: seq<Flat> := [Flat(FIND, None), Flat(DROP, None), Flat(SET, None), Flat(AGAIN, None)]

  const ORDER := Row("order")
  const BOUND := Bound("order")

  /** A row is found, deleted, written back through its binding and found again: mode A completes,
      mode B's stream fails at the last step. */
  lemma RevivedRowIsMissed(takes: Outcomes, cfg: Config)
    requires cfg.timeout.None? && cfg.faults == {}
    ensures Play(EventsFrom(REVIVAL, 0, takes), cfg, Observed({ORDER}, 0, [], [], Completed)).status.Completed?
    ensures FirstFailure(REVIVAL, 0, {ORDER}, cfg) == Some(Cut(3, 0)) && StreamOf(REVIVAL, {ORDER}, cfg).failed
  {
    hide Play, EventsFrom, FirstFailure, PlayEvent, Scan;
    var o := Observed({ORDER}, 0, [], [], Completed);
    EntrySucceeds(REVIVAL, 0, {ORDER}, takes, cfg, o);
    var o1 := o.(store := {ORDER, BOUND}, now := 6, spans := [Span(FIND.name, ["RepositoryCall"])]);
    assert After(FIND.effects[0], o.store) == o1.store == TrackedAfter(FIND.effects[0], {ORDER});
    assert o.spans + [Span(FIND.name, [FIND.effects[0].Kind()])] == o1.spans;
    EntrySucceeds(REVIVAL, 1, {ORDER, BOUND}, takes, cfg, o1);
    var o2 := o1.(store := {BOUND}, now := 12, spans := o1.spans + [Span(DROP.name, ["RepositoryCall"])]);
    assert After(DROP.effects[0], o1.store) == o2.store == TrackedAfter(DROP.effects[0], {ORDER, BOUND});
    EntrySucceeds(REVIVAL, 2, {BOUND}, takes, cfg, o2);
    var o3 := o2.(store := {ORDER, BOUND}, now := 18, spans := o2.spans + [Span(SET.name, ["Assignment"])]);
    assert After(SET.effects[0], o2.store) == o3.store && TrackedAfter(SET.effects[0], {BOUND}) == {BOUND};
    FoundAgain(takes, cfg, o3);
  }

  lemma FoundAgain(takes: Outcomes, cfg: Config, o: Observed)
    requires cfg.timeout.None? && cfg.faults == {} && o.status.Completed? && ORDER in o.store
    ensures Play(EventsFrom(REVIVAL, 3, takes), cfg, o).status.Completed?
    ensures FirstFailure(REVIVAL, 3, {BOUND}, cfg) == Some(Cut(3, 0))
  {
    hide Play, PlayEvent, Scan, RunEffects;
    OneEffect(AGAIN.effects[0], o.store, {BOUND}, cfg);
    StepSucceeds(AGAIN, cfg, o);
    PlayOne(Ran(AGAIN), [], cfg, o);
    assert EventsFrom(REVIVAL, 4, takes) == [];
    assert EventsFrom(REVIVAL, 3, takes) == [Ran(AGAIN)] + [];
    PlayNothing(cfg, PlayEvent(Ran(AGAIN), cfg, o));
  }

  lemma PlayNothing(cfg: Config, o: Observed)
    ensures Play([], cfg, o) == o
  {
  }

  // A step that asks for a revived row, and loses one of its own on the way.
  const CLOSE := Step("close", "close order",
    [RepositoryCall(Delete, "quote"), RepositoryCall(Read, "order"), RepositoryCall(Read, "offer")])

  /** Why `Steady` is needed: the first attempt gets one effect further than the scan expects, the second
      one effect less far, and the trace is the predicted one. */
  lemma AgreesByAccident(takes: Outcomes, cfg: Config)
    requires cfg == Config(true, true, 1, None, {})
    ensures var rows: Store, revived: set<Cell> := {Row("quote")}, {ORDER};
            var flats, o := [Flat(CLOSE, None)], Observed(rows + revived, 0, [], [], Completed);
            && !Steady(flats, 0, rows, revived, cfg) && !FoundAsIs(flats, 0, rows, revived, cfg)
            && Tells(o, Tell(flats, 0, rows, takes, cfg), Play(EventsFrom(flats, 0, takes), cfg, o))
  {
    var rows: Store, revived: set<Cell> := {Row("quote")}, {ORDER};
    var flats, o := [Flat(CLOSE, None)], Observed(rows + revived, 0, [], [], Completed);
    hide *;
    CloseIsTold(takes, cfg);
    CloseIsPlayed(takes, cfg);
    CloseIsNotSeen(cfg);
    CloseIsUnsteady(cfg);
    assert o.spans + [CLOSED] == [CLOSED] && o.skips + [] == [];
    TellsIs(o, [CLOSED], Play(EventsFrom(flats, 0, takes), cfg, o));
  }

  const CLOSED :=
    Span(CLOSE.name, ["RepositoryCall", "RepositoryCall", "RepositoryCall", "RepositoryCall"])

  lemma TellsIs(o: Observed, spans: seq<Span>, end: Observed)
    requires end.spans == o.spans + spans && end.skips == o.skips && end.status.Failed?
    ensures Tells(o, Told(spans, [], true), end)
  {
    assert o.skips + [] == o.skips;
  }

  lemma CloseIsTold(takes: Outcomes, cfg: Config)
    requires cfg == Config(true, true, 1, None, {})
    ensures Tell([Flat(CLOSE, None)], 0, {Row("quote")}, takes, cfg) == Told([CLOSED], [], true)
  {
    hide TimesTried, StaticAttempts, Scan, RunEffects, RunAttempts, Tell;
    TwoTries(CLOSE.effects);
    CloseRuns(cfg);
    StaticIsAttempts(CLOSE.effects, 1, 0, 1);
    var kinds := ["RepositoryCall", "RepositoryCall"];
    assert Times(kinds, 2) == (Times(kinds, 0) + kinds) + kinds == kinds + kinds == CLOSED.kinds;
    ToldFirst([Flat(CLOSE, None)], 0, {Row("quote")}, takes, cfg);
  }

  lemma CloseIsPlayed(takes: Outcomes, cfg: Config)
    requires cfg == Config(true, true, 1, None, {})
    ensures var o := Observed({Row("quote")} + {ORDER}, 0, [], [], Completed);
            var end := Play(EventsFrom([Flat(CLOSE, None)], 0, takes), cfg, o);
            end.status.Failed? && end.skips == o.skips && end.spans == o.spans + [CLOSED]
  {
    hide Scan, RunEffects, RunAttempts, Play, EventsFrom;
    CloseRuns(cfg);
    PlayEndsHere([Flat(CLOSE, None)], 0, takes, cfg, Observed({Row("quote")} + {ORDER}, 0, [], [], Completed));
  }

  lemma CloseIsUnsteady(cfg: Config)
    requires !SeenAll(CLOSE.effects, {Row("quote")}, {ORDER}, cfg) && cfg.retry == 1
    requires TimesTried(CLOSE.effects, 1) == 2 && !KeepsRows(CLOSE.effects)
    ensures !Steady([Flat(CLOSE, None)], 0, {Row("quote")}, {ORDER}, cfg)
            && !FoundAsIs([Flat(CLOSE, None)], 0, {Row("quote")}, {ORDER}, cfg)
  {
    hide SeenAll, TimesTried, KeepsRows;
  }

  lemma CloseRuns(cfg: Config)
    requires cfg == Config(true, true, 1, None, {})
    ensures var rows: Store := {Row("quote")};
            var all := rows + {ORDER};
            && Scan(CLOSE.effects, rows, cfg) == Attempt({}, ["RepositoryCall", "RepositoryCall"], true)
            && RunEffects(CLOSE.effects, all, cfg).failed
            && RunAttempts(CLOSE, all, cfg, 1).kinds
               == ["RepositoryCall", "RepositoryCall", "RepositoryCall", "RepositoryCall"]
  {
    var rows: Store := {Row("quote")};
    var all, effects := rows + {ORDER}, CLOSE.effects;
    assert effects[1..] == [effects[1], effects[2]] && effects[1..][1..] == [effects[2]];
    assert After(effects[0], all) == {ORDER} && After(effects[1], {ORDER}) == {ORDER, BOUND};
    OneEffect(effects[2], {ORDER, BOUND}, {}, cfg);
    assert RunEffects(effects[1..], {ORDER}, cfg)
        == Attempt({ORDER, BOUND}, ["RepositoryCall", "RepositoryCall"], true);
    var a := Attempt({ORDER, BOUND}, ["RepositoryCall", "RepositoryCall", "RepositoryCall"], true);
    assert RunEffects(effects, all, cfg) == a;
    var b := Attempt({ORDER, BOUND}, ["RepositoryCall"], true);
    assert RunEffects(effects, a.store, cfg) == b;
    assert TrackedAfter(effects[0], rows) == {};
    assert Scan(effects[1..], {}, cfg) == Attempt({}, ["RepositoryCall"], true);
    hide RunEffects, Scan;
    assert Retryable(CLOSE, cfg, 1) && !Retryable(CLOSE, cfg, 2);
    assert RunAttempts(CLOSE, a.store, cfg, 2) == b;
    assert RunAttempts(CLOSE, all, cfg, 1).kinds == a.kinds + b.kinds;
  }

  lemma CloseIsNotSeen(cfg: Config)
    requires cfg == Config(true, true, 1, None, {})
    ensures !SeenAll(CLOSE.effects, {Row("quote")}, {ORDER}, cfg)
    ensures TimesTried(CLOSE.effects, 1) == 2 && !KeepsRows(CLOSE.effects)
  {
    hide TimesTried, LosesRow;
    TwoTries(CLOSE.effects);
    assert !Seen(CLOSE.effects[1], {}, {ORDER}, cfg);
    assert CLOSE.effects[1..][0] == CLOSE.effects[1];
    assert TrackedAfter(CLOSE.effects[0], {Row("quote")}) == {};
    assert LosesRow(CLOSE.effects, 1) by { LosesAtOnce(CLOSE.effects); }
  }

  lemma LosesAtOnce(effects: seq<Effect>)
    requires |effects| >= 1 && effects[0].RepositoryCall? && effects[0].op.Delete?
    ensures LosesRow(effects, 1)
  {
    LastIsDelete(effects, 1, 0);
    assert Lost(effects, 1, 0, Row(effects[0].entity));
  }
}
