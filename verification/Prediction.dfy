/** The static scan is exact: the compiled op stream predicts the run of its plan, whatever guards
    are taken and under any deadline it keeps, as long as what guarded steps write is not asked about
    again and nothing happens that the scan does not see. */
module Prediction {
  import opened Wrappers
  import opened Text
  import opened Workflow
  import opened Flattening
  import opened Attempts
  import opened Blocks
  import opened Footprint
  import opened Interp
  import opened Events
  import opened SkipGrain
  import opened Retry
  import opened RetryTrace
  import opened AttemptClock
  import opened BlockClock
  import opened Ops

  // ---- What the scan foresees ----------------------------------------------------------

  /** Before the effect the scan sees fail, nothing happens that it does not see: no driver fault, no
      assignment to a row that no read has surely bound, and none that brings a row back, but of an
      entity it has given up on. */
  predicate Foreseen(effects: seq<Effect>, rows: Store, tainted: set<Cell>, cfg: Config) {
    effects == [] || Foretold(effects[0], rows, cfg) || (
      && effects[0] !in cfg.faults
      && (effects[0].Assignment? ==>
            Bound(effects[0].entity) in rows && Row(effects[0].entity) in rows + tainted)
      && Foreseen(effects[1..], TrackedAfter(effects[0], rows), tainted, cfg))
  }

  lemma FirstForeseen(effect: Effect, store: Store, rows: Store, tainted: set<Cell>, cfg: Config)
    requires Agree(store, rows, tainted) && (effect in cfg.faults ==> Foretold(effect, rows, cfg))
    requires forall c :: Asks(effect, c) ==> c !in tainted
    requires effect.Assignment? ==> Bound(effect.entity) in rows
    ensures Raises(effect, store, cfg) == Foretold(effect, rows, cfg)
    ensures (effect.Assignment? ==> Row(effect.entity) in rows + tainted) ==>
              Agree(After(effect, store), TrackedAfter(effect, rows), tainted)
  {
    if effect.RepositoryCall? && !effect.op.Query? {
      assert Asks(effect, Row(effect.entity));
    } else if effect.Assignment? {
      assert Asks(effect, Bound(effect.entity));
    }
  }

  /** On a store that differs from the tracked rows in tainted cells only, an attempt does what
      the scan foresees. */
  lemma {:induction false} ScanAgrees(effects: seq<Effect>, store: Store, rows: Store, tainted: set<Cell>,
                                      cfg: Config)
    requires Untouched(effects, tainted) && Agree(store, rows, tainted) && Foreseen(effects, rows, tainted, cfg)
    ensures var x, y := RunEffects(effects, store, cfg), Scan(effects, rows, cfg);
            x.failed == y.failed && x.kinds == y.kinds && Agree(x.store, y.store, tainted)
  {
    if effects != [] {
      FirstForeseen(effects[0], store, rows, tainted, cfg);
      if !Foretold(effects[0], rows, cfg) {
        hide Raises, After, Agree, Foretold, Asks;
        assert forall k :: 0 <= k < |effects| - 1 ==> effects[1..][k] == effects[k + 1];
        ScanAgrees(effects[1..], After(effects[0], store), TrackedAfter(effects[0], rows), tainted, cfg);
      }
    }
  }

  lemma {:induction false} ScanWrites(effects: seq<Effect>, rows: Store, cfg: Config)
    ensures Agree(Scan(effects, rows, cfg).store, rows, Written(effects))
  {
    if effects != [] && !Foretold(effects[0], rows, cfg) {
      ScanWrites(effects[1..], TrackedAfter(effects[0], rows), cfg);
    }
  }

  /** A scan that fails has seen the effects up to the failing one. */
  lemma {:induction false} ScanPrefix(effects: seq<Effect>, rows: Store, cfg: Config)
    requires Scan(effects, rows, cfg).failed
    ensures var a := Scan(effects, rows, cfg); a.kinds == Kinds(effects[..|a.kinds|])
  {
    hide TrackedAfter;
    KindsPrefix(effects, |Scan(effects, rows, cfg).kinds|);
    if Foretold(effects[0], rows, cfg) {
      assert effects[1..][..0] == [];
    } else {
      ScanPrefix(effects[1..], TrackedAfter(effects[0], rows), cfg);
    }
  }

  // ---- The condition -------------------------------------------------------------------

  /** From entry `k` on, with the rows the scan tracks: what the run meets the scan foresees, a
      guarded step does not fail, and no step asks about an entity that an earlier guarded step wrote. */
  ghost predicate Predictable(flats: seq<Flat>, k: nat, rows: Store, tainted: set<Cell>, cfg: Config)
    requires k <= |flats|
    decreases |flats| - k
  {
    k == |flats| || (
      var effects := flats[k].step.effects;
      var a := Scan(effects, rows, cfg);
      && Untouched(effects, tainted) && Foreseen(effects, rows, tainted, cfg)
      && if flats[k].guard.Some? then !a.failed && Predictable(flats, k + 1, rows, tainted + Written(effects), cfg)
         else a.failed || Predictable(flats, k + 1, a.store, tainted, cfg))
  }

  /** The step that fails is predicted to be tried once, or loses no row: its trace repeats itself. */
  ghost predicate CutRepeats(flats: seq<Flat>, k: nat, rows: Store, cfg: Config)
    requires k <= |flats|
  {
    var cut := FirstFailure(flats, k, rows, cfg);
    cut.Some? ==>
      var effects := flats[cut.value.entry].step.effects;
      StaticAttempts(effects, cut.value.failAt, cut.value.entry, cfg.retry, cfg.timeout) == 1
          || !LosesRow(effects, cut.value.failAt)
  }

  /** A plan the scan cannot get wrong: no driver faults, no assignments, guarded steps of harmless
      effects, and no deletes where a step may be tried again. */
  predicate PlainPlan(flats: seq<Flat>, cfg: Config) {
    && cfg.faults == {}
    && forall k, i :: 0 <= k < |flats| && 0 <= i < |flats[k].step.effects| ==>
         var effect := flats[k].step.effects[i];
         && !effect.Assignment? && (flats[k].guard.Some? ==> Harmless(effect))
         && (cfg.retry > 0 && effect.RepositoryCall? ==> !effect.op.Delete?)
  }

  lemma PlainIsFaultless(flats: seq<Flat>, cfg: Config)
    requires PlainPlan(flats, cfg)
    ensures cfg.faults == {}
  {
  }

  lemma {:induction false} PlainForeseen(effects: seq<Effect>, rows: Store, cfg: Config)
    requires cfg.faults == {} && forall i :: 0 <= i < |effects| ==> !effects[i].Assignment?
    ensures Foreseen(effects, rows, {}, cfg)
  {
    if effects != [] {
      hide Foretold;
      PlainForeseen(effects[1..], TrackedAfter(effects[0], rows), cfg);
    }
  }

  lemma {:induction false} HarmlessScan(effects: seq<Effect>, rows: Store, cfg: Config)
    requires forall i :: 0 <= i < |effects| ==> Harmless(effects[i])
    ensures !Scan(effects, rows, cfg).failed && Written(effects) == {}
  {
    if effects != [] {
      HarmlessScan(effects[1..], TrackedAfter(effects[0], rows), cfg);
    }
  }

  lemma NothingLost(effects: seq<Effect>, k: nat)
    requires k <= |effects| && NoDelete(effects, k)
    ensures !LosesRow(effects, k)
  {
    if LosesRow(effects, k) {
      var j, e :| Lost(effects, k, j, e);
      WithoutDelete(effects, k, k, e);
    }
  }

  /** A plain plan is predictable, whatever rows it starts with. */
  lemma {:induction false} PlainIsPredictable(flats: seq<Flat>, k: nat, rows: Store, cfg: Config)
    requires k <= |flats| && PlainPlan(flats, cfg)
    ensures Predictable(flats, k, rows, {}, cfg) && CutRepeats(flats, k, rows, cfg)
    decreases |flats| - k
  {
    PlainRepeats(flats, k, rows, cfg);
    if k < |flats| {
      hide Scan, Foreseen, Harmless, CutRepeats;
      var effects := flats[k].step.effects;
      var a := Scan(effects, rows, cfg);
      PlainForeseen(effects, rows, cfg);
      if flats[k].guard.Some? {
        HarmlessScan(effects, rows, cfg);
        assert {} + Written(effects) == {};
        PlainIsPredictable(flats, k + 1, rows, cfg);
      } else if !a.failed {
        PlainIsPredictable(flats, k + 1, a.store, cfg);
      }
    }
  }

  lemma PlainRepeats(flats: seq<Flat>, k: nat, rows: Store, cfg: Config)
    requires k <= |flats| && PlainPlan(flats, cfg)
    ensures CutRepeats(flats, k, rows, cfg)
  {
    hide FirstFailure, LosesRow;
    var cut := FirstFailure(flats, k, rows, cfg);
    if cut.Some? && cfg.retry > 0 {
      NothingLost(flats[cut.value.entry].step.effects, cut.value.failAt);
    }
  }

  lemma StaticIsAttempts(effects: seq<Effect>, failAt: nat, before: nat, retry: int)
    requires failAt < |effects|
    ensures StaticAttempts(effects, failAt, before, retry, None) == TimesTried(effects, retry)
  {
    if retry > 0 {
      AttemptsWithoutTimeout(STEP_COST_MS * before, MissCost(effects[failAt]), retry);
      AttemptsWithoutTimeout(0, 0, retry);
    }
  }

  // ---- What the stream says ------------------------------------------------------------

  // A run as the compiled stream tells it.
  datatype Told = Told(spans: seq<Span>, skips: seq<SkipEntry>, failed: bool)

  function Prepend(spans: seq<Span>, skips: seq<SkipEntry>, rest: Told): Told {
    Told(spans + rest.spans, skips + rest.skips, rest.failed)
  }

  /** The ids of the first `k` entries. */
  function IdsBefore(flats: seq<Flat>, k: nat): set<string>
    requires k <= |flats|
  {
    if k == 0 then {} else IdsBefore(flats, k - 1) + {flats[k - 1].step.id}
  }

  function EntrySkips(f: Flat, seen: set<string>): seq<SkipEntry>
    requires f.guard.Some?
  {
    if f.guard.value.mode.Until? && f.step.id in seen then [] else [EntryOf(f.guard.value, f.step.name)]
  }

  /** The run the scan expects from entry `k` on. */
  function Tell(flats: seq<Flat>, k: nat, rows: Store, takes: Outcomes, cfg: Config): Told
    requires k <= |flats|
    decreases |flats| - k
  {
    if k == |flats| then Told([], [], false)
    else
      var f := flats[k];
      var a := Scan(f.step.effects, rows, cfg);
      if f.guard.Some? then
        var rest := Tell(flats, k + 1, rows, takes, cfg);
        if takes(f.guard.value) then Prepend([Span(f.step.name, Kinds(f.step.effects))], [], rest)
        else Prepend([], EntrySkips(f, IdsBefore(flats, k)), rest)
      else if a.failed then
        var n := StaticAttempts(f.step.effects, |a.kinds| - 1, k, cfg.retry, cfg.timeout);
        Told([Span(f.step.name, Times(a.kinds, n))], [], true)
      else Prepend([Span(f.step.name, Kinds(f.step.effects))], [], Tell(flats, k + 1, a.store, takes, cfg))
  }

  /** A played run is what was told, on top of what was there. */
  predicate Tells(o: Observed, told: Told, end: Observed) {
    && end.spans == o.spans + told.spans
    && end.skips == o.skips + told.skips
    && end.status == if told.failed then Failed else Completed
  }

  lemma PlayOne(e: Event, rest: seq<Event>, cfg: Config, o: Observed)
    ensures Play([e] + rest, cfg, o) == Play(rest, cfg, PlayEvent(e, cfg, o))
  {
    hide PlayEvent;
    assert ([e] + rest)[1..] == rest;
  }

  /** The events of the plan from entry `k` on. */
  function EventsFrom(flats: seq<Flat>, k: nat, takes: Outcomes): seq<Event>
    requires k <= |flats|
    decreases |flats| - k
  {
    if k == |flats| then [] else EntryEvents(flats[k], takes, IdsBefore(flats, k)) + EventsFrom(flats, k + 1, takes)
  }

  lemma {:induction false} EventsFromIs(flats: seq<Flat>, k: nat, takes: Outcomes)
    requires k <= |flats|
    ensures EventsFrom(flats, k, takes) == FlatEvents(flats[k..], takes, IdsBefore(flats, k))
    decreases |flats| - k
  {
    if k < |flats| {
      EventsFromIs(flats, k + 1, takes);
      assert flats[k..][1..] == flats[k + 1..];
    }
  }

  // ---- On time -------------------------------------------------------------------------

  /** What the entries from `j` to `k` cost, those that are taken, when all of them succeed. */
  function TakenCost(flats: seq<Flat>, j: nat, k: nat, takes: Outcomes): nat
    requires j <= k <= |flats|
    decreases k - j
  {
    if j == k then 0
    else
      (if flats[j].guard.None? || takes(flats[j].guard.value) then SuccessCost(flats[j].step) else 0)
      + TakenCost(flats, j + 1, k, takes)
  }

  /** On the clock that charges every effect: what is taken ends within the deadline; or, when the scan
      finds a failing step, the attempt predicted to be its last is the last there is time for. */
  predicate OnTime(flats: seq<Flat>, k: nat, rows: Store, now: nat, takes: Outcomes, cfg: Config)
    requires k <= |flats|
  {
    match FirstFailure(flats, k, rows, cfg)
    case None =>
      TakenCost(flats, k, |flats|, takes) == 0 || !Overdue(cfg, now + TakenCost(flats, k, |flats|, takes))
    case Some(c) =>
      var effects := flats[c.entry].step.effects;
      var n := StaticAttempts(effects, c.failAt, c.entry, cfg.retry, cfg.timeout);
      n >= 1 && LastInTime(effects, c.failAt, n, now + TakenCost(flats, k, c.entry, takes), cfg)
  }

  /** Never more than the policy allows. */
  lemma StaticWithinPolicy(effects: seq<Effect>, failAt: nat, before: nat, retry: int, timeout: Option<int>)
    requires failAt < |effects|
    ensures 1 <= StaticAttempts(effects, failAt, before, retry, timeout) <= TimesTried(effects, retry)
    ensures timeout.None? ==> StaticAttempts(effects, failAt, before, retry, timeout) == TimesTried(effects, retry)
  {
    if retry > 0 && AllIdempotent(effects) {
      hide LastAttempt, ClockAt;
      var b := Budget(STEP_COST_MS * before, MissCost(effects[failAt]), retry, timeout);
      AttemptsMonotone(b, b.(timeout := None));
      AttemptsWithoutTimeout(b.start, b.cost, retry);
      AttemptsWithoutTimeout(0, 0, retry);
    }
  }

  // ---- Main result ---------------------------------------------------------------------

  /** As many spans and the same end. */
  predicate SameLength(o: Observed, told: Told, end: Observed) {
    |end.spans| == |o.spans| + |told.spans| && end.status == if told.failed then Failed else Completed
  }

  lemma ToldFirst(flats: seq<Flat>, k: nat, rows: Store, takes: Outcomes, cfg: Config)
    requires k < |flats|
    ensures var f, a := flats[k], Scan(flats[k].step.effects, rows, cfg);
            var span := Span(f.step.name, Kinds(f.step.effects));
            Tell(flats, k, rows, takes, cfg)
            == if f.guard.Some? then
                 var rest := Tell(flats, k + 1, rows, takes, cfg);
                 if takes(f.guard.value) then Prepend([span], [], rest)
                 else Prepend([], EntrySkips(f, IdsBefore(flats, k)), rest)
               else if a.failed then
                 var n := StaticAttempts(f.step.effects, |a.kinds| - 1, k, cfg.retry, cfg.timeout);
                 Told([Span(f.step.name, Times(a.kinds, n))], [], true)
               else Prepend([span], [], Tell(flats, k + 1, a.store, takes, cfg))
  {
    hide Scan, StaticAttempts;
  }

  predicate EndsFull(told: Told) {
    told.spans != [] && told.spans[|told.spans| - 1].kinds != []
  }

  lemma FullWithMore(spans: seq<Span>, skips: seq<SkipEntry>, rest: Told)
    requires EndsFull(rest)
    ensures EndsFull(Prepend(spans, skips, rest))
  {
  }

  /** A tale that ends in a failure ends with a trace. */
  lemma {:induction false} FailureIsTold(flats: seq<Flat>, k: nat, rows: Store, takes: Outcomes, cfg: Config)
    requires k <= |flats| && Tell(flats, k, rows, takes, cfg).failed
    ensures EndsFull(Tell(flats, k, rows, takes, cfg))
    decreases |flats| - k
  {
    if k < |flats| {
      hide Scan, StaticAttempts, Tell, Times, TimesTried, IdsBefore, EntrySkips, Kinds, EndsFull;
      ToldFirst(flats, k, rows, takes, cfg);
      var step := flats[k].step;
      var a := Scan(step.effects, rows, cfg);
      if flats[k].guard.None? && a.failed {
        FailingSpan(step, k, rows, cfg);
      } else {
        var next := Tell(flats, k + 1, if flats[k].guard.Some? then rows else a.store, takes, cfg);
        FailureIsTold(flats, k + 1, if flats[k].guard.Some? then rows else a.store, takes, cfg);
        FullWithMore([Span(step.name, Kinds(step.effects))], [], next);
        FullWithMore([], EntrySkips0(flats, k), next);
      }
    }
  }

  function EntrySkips0(flats: seq<Flat>, k: nat): seq<SkipEntry>
    requires k < |flats|
  {
    if flats[k].guard.Some? then EntrySkips(flats[k], IdsBefore(flats, k)) else []
  }

  lemma FailingSpan(step: Step, k: nat, rows: Store, cfg: Config)
    requires Scan(step.effects, rows, cfg).failed
    ensures var a := Scan(step.effects, rows, cfg);
            var n := StaticAttempts(step.effects, |a.kinds| - 1, k, cfg.retry, cfg.timeout);
            EndsFull(Told([Span(step.name, Times(a.kinds, n))], [], true))
  {
    hide Scan, StaticAttempts, Times, TimesTried;
    var a := Scan(step.effects, rows, cfg);
    StaticWithinPolicy(step.effects, |a.kinds| - 1, k, cfg.retry, cfg.timeout);
    CopiesLeaveATrace(a.kinds, StaticAttempts(step.effects, |a.kinds| - 1, k, cfg.retry, cfg.timeout));
  }

  lemma CopiesLeaveATrace(kinds: seq<string>, n: nat)
    requires kinds != [] && n >= 1
    ensures Times(kinds, n) != []
  {
    assert Times(kinds, n) == Times(kinds, n - 1) + kinds;
  }

  lemma TellsNext(o: Observed, spans: seq<Span>, skips: seq<SkipEntry>, next: Observed, rest: Told, end: Observed)
    requires next.spans == o.spans + spans && next.skips == o.skips + skips
    ensures Tells(o, Prepend(spans, skips, rest), end) <==> Tells(next, rest, end)
    ensures SameLength(o, Prepend(spans, skips, rest), end) <==> SameLength(next, rest, end)
  {
    Assoc(o.spans, spans, rest.spans);
    Assoc(o.skips, skips, rest.skips);
  }

  lemma PlaySkipped(flats: seq<Flat>, k: nat, takes: Outcomes, cfg: Config, o: Observed)
    requires k < |flats| && flats[k].guard.Some? && !takes(flats[k].guard.value) && o.status.Completed?
    ensures Play(EventsFrom(flats, k, takes), cfg, o)
         == Play(EventsFrom(flats, k + 1, takes), cfg,
                 o.(skips := o.skips + EntrySkips(flats[k], IdsBefore(flats, k))))
  {
    hide Play, IdsBefore, GuardText;
    var rest := EventsFrom(flats, k + 1, takes);
    var skips := EntrySkips(flats[k], IdsBefore(flats, k));
    if skips == [] {
      assert EventsFrom(flats, k, takes) == [] + rest == rest && o.skips + skips == o.skips;
    } else {
      PlayOne(Missed(skips[0]), rest, cfg, o);
    }
  }

  lemma PlayRan(flats: seq<Flat>, k: nat, takes: Outcomes, cfg: Config, o: Observed)
    requires k < |flats| && (flats[k].guard.None? || takes(flats[k].guard.value))
    ensures Play(EventsFrom(flats, k, takes), cfg, o)
         == Play(EventsFrom(flats, k + 1, takes), cfg, PlayEvent(Ran(flats[k].step), cfg, o))
  {
    hide PlayEvent, Play;
    PlayOne(Ran(flats[k].step), EventsFrom(flats, k + 1, takes), cfg, o);
  }

  /** The conditions of the entries that follow. */
  lemma NextEntry(flats: seq<Flat>, k: nat, rows: Store, takes: Outcomes, cfg: Config)
    requires k < |flats| && (flats[k].guard.Some? || !Scan(flats[k].step.effects, rows, cfg).failed)
    ensures var next := if flats[k].guard.Some? then rows else Scan(flats[k].step.effects, rows, cfg).store;
            && FirstFailure(flats, k, rows, cfg) == FirstFailure(flats, k + 1, next, cfg)
            && (CutRepeats(flats, k, rows, cfg) <==> CutRepeats(flats, k + 1, next, cfg))
  {
    hide Scan, StaticAttempts, LosesRow;
  }

  /** An entry that is not taken costs no time. */
  lemma OnTimeSkipped(flats: seq<Flat>, k: nat, rows: Store, now: nat, takes: Outcomes, cfg: Config)
    requires k < |flats| && flats[k].guard.Some? && !takes(flats[k].guard.value)
    ensures OnTime(flats, k, rows, now, takes, cfg) <==> OnTime(flats, k + 1, rows, now, takes, cfg)
  {
    hide StaticAttempts, LastInTime;
  }

  /** One that runs and succeeds takes its time, and leaves the rest to be on time. */
  lemma OnTimeStep(flats: seq<Flat>, k: nat, rows: Store, now: nat, takes: Outcomes, cfg: Config)
    requires k < |flats| && (flats[k].guard.None? || takes(flats[k].guard.value))
    requires flats[k].guard.Some? || !Scan(flats[k].step.effects, rows, cfg).failed
    ensures var next := now + SuccessCost(flats[k].step);
            OnTime(flats, k, rows, now, takes, cfg)
            <==> && !Late(cfg, now) && !Overdue(cfg, next)
                 && OnTime(flats, k + 1,
                           if flats[k].guard.Some? then rows else Scan(flats[k].step.effects, rows, cfg).store,
                           next, takes, cfg)
  {
    hide Scan, StaticAttempts, LastInTime, TimesTried, FirstFailure, CutRepeats, Late, Overdue;
    NextEntry(flats, k, rows, takes, cfg);
    OverdueIsMonotone(cfg, now, SuccessCost(flats[k].step));
    var cut := FirstFailure(flats, k, rows, cfg);
    if cut.None? {
      OverdueIsMonotone(cfg, now + SuccessCost(flats[k].step), TakenCost(flats, k + 1, |flats|, takes));
    } else {
      var c, effects := cut.value, flats[cut.value.entry].step.effects;
      var n := StaticAttempts(effects, c.failAt, c.entry, cfg.retry, cfg.timeout);
      if n >= 1 && LastInTime(effects, c.failAt, n, now + TakenCost(flats, k, c.entry, takes), cfg) {
        NotLateIfLast(effects, c.failAt, n, now + TakenCost(flats, k, c.entry, takes), cfg);
        OverdueIsMonotone(cfg, now + SuccessCost(flats[k].step), TakenCost(flats, k + 1, c.entry, takes));
      }
    }
  }

  lemma OverdueIsMonotone(cfg: Config, now: nat, more: nat)
    ensures Overdue(cfg, now) ==> Overdue(cfg, now + more)
    ensures !Late(cfg, now + more) ==> !Overdue(cfg, now) && !Late(cfg, now)
    ensures more > 0 && !Overdue(cfg, now + more) ==> !Late(cfg, now)
  {
  }

  lemma NotLateIfLast(effects: seq<Effect>, failAt: nat, n: nat, now: nat, cfg: Config)
    requires failAt < |effects| && n >= 1 && LastInTime(effects, failAt, n, now, cfg)
    ensures !Late(cfg, now)
  {
    if Late(cfg, now) {
      LateIsNotLast(effects, failAt, n, now, cfg);
    }
  }

  /** A run that has failed at its first step does not tell of more. */
  lemma StoppedIsNotTold(o: Observed, span: Span, rest: Told, end: Observed)
    requires end.status.Failed? && |end.spans| == |o.spans| + 1 && (rest.failed ==> EndsFull(rest))
    ensures !Tells(o, Prepend([span], [], rest), end) && !SameLength(o, Prepend([span], [], rest), end)
  {
  }

  /** A skipped entry. */
  lemma SkippedEntryTold(flats: seq<Flat>, k: nat, rows: Store, tainted: set<Cell>, takes: Outcomes, cfg: Config,
                         o: Observed)
    requires k < |flats| && Predictable(flats, k, rows, tainted, cfg) && Agree(o.store, rows, tainted)
    requires o.status.Completed? && flats[k].guard.Some? && !takes(flats[k].guard.value)
    ensures var told, end := Tell(flats, k, rows, takes, cfg), Play(EventsFrom(flats, k, takes), cfg, o);
            && (CutRepeats(flats, k, rows, cfg) ==>
                  (Tells(o, told, end) <==> OnTime(flats, k, rows, o.now, takes, cfg)))
            && (cfg.timeout.None? ==> SameLength(o, told, end))
    decreases |flats| - k, 0
  {
    hide Scan, Foreseen, Tells, Untouched, Written, Play, PlayEvent, OnTime, CutRepeats, Tell, SameLength, EntrySkips,
         EventsFrom;
    var skips := EntrySkips(flats[k], IdsBefore(flats, k));
    var next := o.(skips := o.skips + skips);
    AgreeWider(o.store, rows, rows, tainted, Written(flats[k].step.effects));
    PlanTold(flats, k + 1, rows, tainted + Written(flats[k].step.effects), takes, cfg, next);
    PlaySkipped(flats, k, takes, cfg, o);
    NextEntry(flats, k, rows, takes, cfg);
    OnTimeSkipped(flats, k, rows, o.now, takes, cfg);
    ToldFirst(flats, k, rows, takes, cfg);
    assert o.spans + [] == o.spans;
    TellsNext(o, [], skips, next, Tell(flats, k + 1, rows, takes, cfg), Play(EventsFrom(flats, k, takes), cfg, o));
  }

  /** An entry that runs as it is scanned and succeeds: on time, or the run is over. */
  lemma RanOnTime(flats: seq<Flat>, k: nat, rows: Store, after: Store, takes: Outcomes, cfg: Config, o: Observed)
    requires k < |flats| && (flats[k].guard.None? || takes(flats[k].guard.value)) && o.status.Completed?
    requires !RunEffects(flats[k].step.effects, o.store, cfg).failed && !Scan(flats[k].step.effects, rows, cfg).failed
    requires after == if flats[k].guard.Some? then rows else Scan(flats[k].step.effects, rows, cfg).store
    ensures var next := PlayEvent(Ran(flats[k].step), cfg, o);
            var told, end := Tell(flats, k, rows, takes, cfg), Play(EventsFrom(flats, k, takes), cfg, o);
            if Late(cfg, o.now) || Overdue(cfg, o.now + SuccessCost(flats[k].step))
            then !Tells(o, told, end) && !OnTime(flats, k, rows, o.now, takes, cfg)
            else && next.status.Completed? && next.store == RunEffects(flats[k].step.effects, o.store, cfg).store
                 && (Tells(o, told, end)
                     <==> Tells(next, Tell(flats, k + 1, after, takes, cfg),
                                Play(EventsFrom(flats, k + 1, takes), cfg, next)))
                 && (SameLength(o, told, end)
                     <==> SameLength(next, Tell(flats, k + 1, after, takes, cfg),
                                     Play(EventsFrom(flats, k + 1, takes), cfg, next)))
                 && (OnTime(flats, k, rows, o.now, takes, cfg)
                     <==> OnTime(flats, k + 1, after, next.now, takes, cfg))
  {
    hide RunEffects, Scan, Tells, Play, PlayEvent, OnTime, Tell, SameLength, EntrySkips, EventsFrom, Kinds, SuccessCost;
    var step, next := flats[k].step, PlayEvent(Ran(flats[k].step), cfg, o);
    var span, rest := Span(step.name, Kinds(step.effects)), Tell(flats, k + 1, after, takes, cfg);
    PlayRan(flats, k, takes, cfg, o);
    OnTimeStep(flats, k, rows, o.now, takes, cfg);
    ToldFirst(flats, k, rows, takes, cfg);
    assert o.skips + [] == o.skips;
    if Late(cfg, o.now) {
      StepTooLate(step, cfg, o);
    } else {
      StepSucceeds(step, cfg, o);
    }
    if Late(cfg, o.now) || Overdue(cfg, o.now + SuccessCost(step)) {
      PlayStopped(EventsFrom(flats, k + 1, takes), cfg, next);
      if rest.failed {
        FailureIsTold(flats, k + 1, after, takes, cfg);
      }
      StoppedIsNotTold(o, span, rest, next);
    } else {
      TellsNext(o, [span], [], next, rest, Play(EventsFrom(flats, k + 1, takes), cfg, next));
    }
  }

  /** An entry that runs and succeeds. */
  lemma RunEntryTold(flats: seq<Flat>, k: nat, rows: Store, tainted: set<Cell>, takes: Outcomes, cfg: Config,
                     o: Observed)
    requires k < |flats| && Predictable(flats, k, rows, tainted, cfg) && Agree(o.store, rows, tainted)
    requires o.status.Completed? && (flats[k].guard.None? || takes(flats[k].guard.value))
    requires !Scan(flats[k].step.effects, rows, cfg).failed
    ensures var told, end := Tell(flats, k, rows, takes, cfg), Play(EventsFrom(flats, k, takes), cfg, o);
            && (CutRepeats(flats, k, rows, cfg) ==>
                  (Tells(o, told, end) <==> OnTime(flats, k, rows, o.now, takes, cfg)))
            && (cfg.timeout.None? ==> SameLength(o, told, end))
    decreases |flats| - k, 0
  {
    hide RunEffects, Scan, Foreseen, Tells, Untouched, Written, Play, PlayEvent, Agree, OnTime, CutRepeats, Tell,
         SameLength, EventsFrom;
    var effects := flats[k].step.effects;
    var a, b := Scan(effects, rows, cfg), RunEffects(effects, o.store, cfg);
    var after := if flats[k].guard.Some? then rows else a.store;
    ScanAgrees(effects, o.store, rows, tainted, cfg);
    NextEntry(flats, k, rows, takes, cfg);
    RanOnTime(flats, k, rows, after, takes, cfg, o);
    var next := PlayEvent(Ran(flats[k].step), cfg, o);
    if !Late(cfg, o.now) && !Overdue(cfg, o.now + SuccessCost(flats[k].step)) {
      if flats[k].guard.Some? {
        ScanWrites(effects, rows, cfg);
        AgreeWider(b.store, a.store, rows, tainted, Written(effects));
        PlanTold(flats, k + 1, rows, tainted + Written(effects), takes, cfg, next);
      } else {
        PlanTold(flats, k + 1, a.store, tainted, takes, cfg, next);
      }
    }
  }

  lemma LastSpan(spans: seq<Span>, name: string, a: seq<string>, b: seq<string>)
    ensures spans + [Span(name, a)] == spans + [Span(name, b)] <==> a == b
  {
    assert (spans + [Span(name, a)])[|spans|] == Span(name, a) && (spans + [Span(name, b)])[|spans|] == Span(name, b);
  }

  lemma FailedEntryTold(flats: seq<Flat>, k: nat, rows: Store, tainted: set<Cell>, takes: Outcomes, cfg: Config,
                        o: Observed)
    requires k < |flats| && Predictable(flats, k, rows, tainted, cfg) && Agree(o.store, rows, tainted)
    requires o.status.Completed? && flats[k].guard.None?
    requires Scan(flats[k].step.effects, rows, cfg).failed
    ensures var told, end := Tell(flats, k, rows, takes, cfg), Play(EventsFrom(flats, k, takes), cfg, o);
            && (CutRepeats(flats, k, rows, cfg) ==>
                  (Tells(o, told, end) <==> OnTime(flats, k, rows, o.now, takes, cfg)))
            && (cfg.timeout.None? ==> SameLength(o, told, end))
  {
    hide RunEffects, Scan, Foreseen, Untouched, Written, Play, Agree, TimesTried, LosesRow, StaticAttempts, Tell,
         EventsFrom, TryStep, LastInTime, Times;
    var step, rest := flats[k].step, EventsFrom(flats, k + 1, takes);
    var a := Scan(step.effects, rows, cfg);
    var n := StaticAttempts(step.effects, |a.kinds| - 1, k, cfg.retry, cfg.timeout);
    ScanAgrees(step.effects, o.store, rows, tainted, cfg);
    StaticWithinPolicy(step.effects, |a.kinds| - 1, k, cfg.retry, cfg.timeout);
    ToldFirst(flats, k, rows, takes, cfg);
    FailureIsFinal(step, o.store, cfg, 1, o.now);
    PlayRan(flats, k, takes, cfg, o);
    PlayStopped(rest, cfg, PlayEvent(Ran(step), cfg, o));
    assert o.skips + [] == o.skips;
    assert FirstFailure(flats, k, rows, cfg) == Some(Cut(k, |a.kinds| - 1)) && TakenCost(flats, k, k, takes) == 0;
    if CutRepeats(flats, k, rows, cfg) {
      TraceOnTime(step, o.store, cfg, n, o.now);
      LastSpan(o.spans, step.name, TryStep(step, o.store, cfg, 1, o.now).kinds, Times(a.kinds, n));
    }
  }

  /** The interpreter's run of the plan is the run the scan tells exactly if it is on time, from any
      entry on, any rows the scan is right about and whatever guards are taken. Without a deadline it
      always is; then run and tale have as many spans even where the failing step loses a row. */
  lemma {:induction false} PlanTold(flats: seq<Flat>, k: nat, rows: Store, tainted: set<Cell>, takes: Outcomes,
                                    cfg: Config, o: Observed)
    requires k <= |flats| && Predictable(flats, k, rows, tainted, cfg) && Agree(o.store, rows, tainted)
    requires o.status.Completed?
    ensures var told, end := Tell(flats, k, rows, takes, cfg), Play(EventsFrom(flats, k, takes), cfg, o);
            && (CutRepeats(flats, k, rows, cfg) ==>
                  (Tells(o, told, end) <==> OnTime(flats, k, rows, o.now, takes, cfg)))
            && (cfg.timeout.None? ==> SameLength(o, told, end))
    decreases |flats| - k, 1
  {
    if k == |flats| {
      assert o.spans + [] == o.spans && o.skips + [] == o.skips;
    } else {
      hide Scan, Foreseen, Tells, Untouched, Play, EventsFrom, Tell, Agree, OnTime, SameLength, CutRepeats;
      if flats[k].guard.Some? && !takes(flats[k].guard.value) {
        SkippedEntryTold(flats, k, rows, tainted, takes, cfg, o);
      } else if Scan(flats[k].step.effects, rows, cfg).failed {
        FailedEntryTold(flats, k, rows, tainted, takes, cfg, o);
      } else {
        RunEntryTold(flats, k, rows, tainted, takes, cfg, o);
      }
    }
  }

  /** Without a deadline every plan is on time. */
  lemma OnTimeWithout(flats: seq<Flat>, k: nat, rows: Store, now: nat, takes: Outcomes, cfg: Config)
    requires k <= |flats| && cfg.timeout.None?
    ensures OnTime(flats, k, rows, now, takes, cfg)
  {
    hide FirstFailure, TimesTried, StaticAttempts, TakenCost;
    var cut := FirstFailure(flats, k, rows, cfg);
    if cut.Some? {
      StaticWithinPolicy(flats[cut.value.entry].step.effects, cut.value.failAt, cut.value.entry, cfg.retry, None);
    }
  }
}
