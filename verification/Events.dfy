/** A run as a sequence of events: steps that ran and guarded steps that were skipped, played on the
    virtual clock. Walking the tree plays the events of the tree, whatever fails on the way; parallel
    blocks play their steps in written order when they are calm. Under a deadline the walk may also
    run out of time off the written order, and then leaves less than the events do. */
module Events {
  import opened Wrappers
  import opened Text
  import opened Evaluation
  import opened ConditionSyntax
  import opened Workflow
  import opened Flattening
  import opened Attempts
  import opened Blocks
  import opened Footprint
  import opened BlockOrder
  import opened BlockClock
  import opened RetryTrace
  import opened Interp

  // The four fields of a skip both modes can observe.
  datatype SkipEntry = SkipEntry(mode: GuardMode, condition: string, step: string, rounds: Option<nat>)

  datatype Event = Ran(step: Step) | Missed(entry: SkipEntry)

  function EntryOf(g: Guard, name: string): SkipEntry {
    SkipEntry(g.mode, GuardText(g), name, if g.mode.Until? then Some(0) else None)
  }

  function RecordEntries(r: SkipRecord, names: seq<string>): seq<SkipEntry> {
    if names == [] then []
    else [SkipEntry(r.mode, r.condition, names[0], r.rounds)] + RecordEntries(r, names[1..])
  }

  /** `_normalise_skips`: one entry per step, not per guard. */
  function NormaliseSkips(records: seq<SkipRecord>): seq<SkipEntry> {
    if records == [] then []
    else RecordEntries(records[0], records[0].steps) + NormaliseSkips(records[1..])
  }

  /** What is compared of one record: an entry for every step it names, of its mode, condition and rounds. */
  lemma {:induction false} OneRecord(r: SkipRecord, names: seq<string>)
    ensures |RecordEntries(r, names)| == |names|
    ensures forall k :: 0 <= k < |names| ==>
              RecordEntries(r, names)[k] == SkipEntry(r.mode, r.condition, names[k], r.rounds)
  {
    if names != [] {
      OneRecord(r, names[1..]);
    }
  }

  lemma {:induction false} NormaliseSnoc(records: seq<SkipRecord>, r: SkipRecord)
    ensures NormaliseSkips(records + [r]) == NormaliseSkips(records) + RecordEntries(r, r.steps)
  {
    if records == [] {
      assert [] + [r] == [r] && [r][1..] == [];
    } else {
      assert (records + [r])[1..] == records[1..] + [r];
      NormaliseSnoc(records[1..], r);
      Assoc(RecordEntries(records[0], records[0].steps), NormaliseSkips(records[1..]), RecordEntries(r, r.steps));
    }
  }

  // ---- Playing events ------------------------------------------------------------------

  datatype Observed = Observed(store: Store, now: nat, spans: seq<Span>, skips: seq<SkipEntry>, status: Status)

  function Observe(run: Run): Observed {
    Observed(run.store, run.now, run.spans, NormaliseSkips(run.skips), run.status)
  }

  function PlayStep(step: Step, cfg: Config, o: Observed): Observed {
    var t := TryStep(step, o.store, cfg, 1, o.now);
    o.(store := t.store, now := t.now, spans := o.spans + [Span(step.name, t.kinds)],
       status := if t.failed || Overdue(cfg, t.now) then Failed else o.status)
  }

  function PlayEvent(e: Event, cfg: Config, o: Observed): Observed {
    if !o.status.Completed? then o
    else
      match e
      case Ran(step) => PlayStep(step, cfg, o)
      case Missed(entry) => o.(skips := o.skips + [entry])
  }

  function Play(events: seq<Event>, cfg: Config, o: Observed): Observed {
    if events == [] then o else Play(events[1..], cfg, PlayEvent(events[0], cfg, o))
  }

  lemma {:induction false} PlayConcat(a: seq<Event>, b: seq<Event>, cfg: Config, o: Observed)
    ensures Play(a + b, cfg, o) == Play(b, cfg, Play(a, cfg, o))
  {
    hide PlayEvent;
    if a == [] {
      assert a + b == b;
    } else {
      assert (a + b)[1..] == a[1..] + b;
      PlayConcat(a[1..], b, cfg, PlayEvent(a[0], cfg, o));
    }
  }

  lemma {:induction false} PlayStopped(events: seq<Event>, cfg: Config, o: Observed)
    requires !o.status.Completed?
    ensures Play(events, cfg, o) == o
  {
    if events != [] {
      PlayStopped(events[1..], cfg, o);
    }
  }

  /** A run that stops has a span more. */
  lemma {:induction false} PlayGrows(events: seq<Event>, cfg: Config, o: Observed)
    requires o.status.Completed?
    ensures var end := Play(events, cfg, o);
            && (end.status.Completed? || end.status.Failed?) && end.now >= o.now
            && |end.spans| >= |o.spans| && (!end.status.Completed? ==> |end.spans| > |o.spans|)
    decreases events
  {
    if events != [] {
      hide TryStep;
      var next := PlayEvent(events[0], cfg, o);
      if next.status.Completed? {
        PlayGrows(events[1..], cfg, next);
      } else {
        PlayStopped(events[1..], cfg, next);
      }
    }
  }

  /** A step that succeeds. */
  lemma StepSucceeds(step: Step, cfg: Config, o: Observed)
    requires o.status.Completed? && !RunEffects(step.effects, o.store, cfg).failed && !Late(cfg, o.now)
    ensures var a := RunEffects(step.effects, o.store, cfg);
            PlayEvent(Ran(step), cfg, o)
            == o.(store := a.store, now := o.now + SuccessCost(step), spans := o.spans + [Span(step.name, a.kinds)],
                  status := if Overdue(cfg, o.now + SuccessCost(step)) then Failed else Completed)
  {
    hide RunEffects, TryStep;
    SucceedsOnce(step, o.store, cfg, 1, o.now);
  }

  /** A step that starts after the deadline fails without an effect. */
  lemma StepTooLate(step: Step, cfg: Config, o: Observed)
    requires o.status.Completed? && Late(cfg, o.now)
    ensures PlayEvent(Ran(step), cfg, o) == o.(spans := o.spans + [Span(step.name, [])], status := Failed)
  {
    LateMakesNone(step, o.store, cfg, 1, o.now);
  }

  /** Without a deadline, what a step leaves is what its attempts leave. */
  lemma StepUntimed(step: Step, cfg: Config, o: Observed)
    requires o.status.Completed? && cfg.timeout.None?
    ensures var a, e := RunAttempts(step, o.store, cfg, 1), PlayEvent(Ran(step), cfg, o);
            && e.store == a.store && e.spans == o.spans + [Span(step.name, a.kinds)] && e.skips == o.skips
            && e.status == if a.failed then Failed else Completed
  {
    hide TryStep, RunAttempts;
    UntimedTries(step, o.store, cfg, 1, o.now);
  }

  lemma StepOutlasts(step: Step, cfg: Config, o: Observed)
    requires o.status.Completed? && PlayEvent(Ran(step), cfg, o).status.Completed?
    ensures PlayEvent(Ran(step), Untimed(cfg), o) == PlayEvent(Ran(step), cfg, o)
  {
    hide RunEffects, TryStep;
    SuccessIsFirst(step, o.store, cfg, o.now);
    TimeoutUnread(step.effects, o.store, cfg);
    StepSucceeds(step, cfg, o);
    StepSucceeds(step, Untimed(cfg), o);
  }

  /** Events that play to their end under a deadline play alike without one. */
  lemma {:induction false} PlayUntimed(events: seq<Event>, cfg: Config, o: Observed)
    requires Play(events, cfg, o).status.Completed?
    ensures Play(events, Untimed(cfg), o) == Play(events, cfg, o)
    decreases events
  {
    if events != [] {
      hide PlayStep;
      var next := PlayEvent(events[0], cfg, o);
      if !next.status.Completed? {
        PlayStopped(events[1..], cfg, next);
      } else {
        PlayUntimed(events[1..], cfg, next);
        if o.status.Completed? && events[0].Ran? {
          StepOutlasts(events[0].step, cfg, o);
        }
      }
    }
  }

  function MissedAll(g: Guard, names: seq<string>): seq<Event> {
    if names == [] then [] else [Missed(EntryOf(g, names[0]))] + MissedAll(g, names[1..])
  }

  lemma {:induction false} PlayMissed(g: Guard, names: seq<string>, cfg: Config, o: Observed)
    requires o.status.Completed?
    ensures var record := SkipRecord(g.mode, GuardText(g), names, if g.mode.Until? then Some(0) else None);
            Play(MissedAll(g, names), cfg, o) == o.(skips := o.skips + RecordEntries(record, names))
    decreases names
  {
    var r := SkipRecord(g.mode, GuardText(g), names, if g.mode.Until? then Some(0) else None);
    if names == [] {
      assert o.skips + [] == o.skips;
    } else {
      var next := o.(skips := o.skips + [EntryOf(g, names[0])]);
      assert MissedAll(g, names)[1..] == MissedAll(g, names[1..]);
      PlayMissed(g, names[1..], cfg, next);
      EntriesAreSame(r, r.(steps := names[1..]), names[1..]);
      Assoc(o.skips, [EntryOf(g, names[0])], RecordEntries(r, names[1..]));
    }
  }

  lemma {:induction false} EntriesAreSame(r: SkipRecord, q: SkipRecord, names: seq<string>)
    requires r.mode == q.mode && r.condition == q.condition && r.rounds == q.rounds
    ensures RecordEntries(r, names) == RecordEntries(q, names)
  {
    if names != [] {
      EntriesAreSame(r, q, names[1..]);
    }
  }

  // ---- The events of a tree ------------------------------------------------------------

  function RanAll(steps: seq<Step>): seq<Event> {
    if steps == [] then [] else [Ran(steps[0])] + RanAll(steps[1..])
  }

  function TreeEvents(body: Body, takes: Outcomes): seq<Event> {
    match body
    case Done => []
    case StepItem(step, rest) => [Ran(step)] + TreeEvents(rest, takes)
    case GroupItem(kids, rest) => TreeEvents(kids, takes) + TreeEvents(rest, takes)
    case ParallelItem(kids, rest) => RanAll(AllSteps(kids)) + TreeEvents(rest, takes)
    case RepeatItem(count, kids, rest) => Times(TreeEvents(kids, takes), count) + TreeEvents(rest, takes)
    case GuardItem(g, kids, rest) =>
      (if takes(g) then Times(TreeEvents(kids, takes), GuardCopies(g)) else MissedAll(g, StepNames(kids)))
      + TreeEvents(rest, takes)
  }

  /** A guard runs its item: its condition holds for `when`, fails for `until`. */
  predicate TakesGuard(u: CharClass, g: Guard, scope: Scope) {
    var v := GuardVerdict(u, g, scope);
    v.Holds? && v.truth == g.mode.When?
  }

  function Takes(inp: Inputs): Outcomes {
    g => TakesGuard(inp.u, g, inp.scope)
  }

  /** No guard of the body faults. */
  predicate Decided(body: Body, inp: Inputs) {
    match body
    case Done => true
    case StepItem(_, rest) => Decided(rest, inp)
    case GroupItem(kids, rest) => Decided(kids, inp) && Decided(rest, inp)
    case ParallelItem(kids, rest) => Decided(kids, inp) && Decided(rest, inp)
    case RepeatItem(_, kids, rest) => Decided(kids, inp) && Decided(rest, inp)
    case GuardItem(g, kids, rest) =>
      GuardVerdict(inp.u, g, inp.scope).Holds? && Decided(kids, inp) && Decided(rest, inp)
  }

  lemma ObserveSkip(g: Guard, kids: Body, cfg: Config, run: Run)
    requires run.status.Completed?
    ensures Observe(Skip(g, kids, run)) == Play(MissedAll(g, StepNames(kids)), cfg, Observe(run))
  {
    NormaliseSnoc(run.skips, SkipOf(g, kids));
    PlayMissed(g, StepNames(kids), cfg, Observe(run));
  }

  // ---- Parallel blocks -----------------------------------------------------------------

  /** No step of a parallel block fails and its steps do not interfere, wherever the events lead. */
  ghost predicate BlocksCalm(body: Body, takes: Outcomes, cfg: Config, o: Observed)
    decreases body, 1
  {
    body.Done? || (FirstCalm(body, takes, cfg, o)
                   && BlocksCalm(body.rest, takes, cfg, Play(FirstEvents(body, takes), cfg, o)))
  }

  ghost predicate FirstCalm(body: Body, takes: Outcomes, cfg: Config, o: Observed)
    requires !body.Done?
    decreases body, 0
  {
    match body
    case StepItem(_, _) => true
    case GroupItem(kids, _) => BlocksCalm(kids, takes, cfg, o)
    case ParallelItem(kids, _) => o.status.Completed? ==> Calm(AllSteps(kids), o.store, cfg)
    case RepeatItem(count, kids, _) => RoundsCalm(count, kids, takes, cfg, o)
    case GuardItem(g, kids, _) => takes(g) ==> RoundsCalm(GuardCopies(g), kids, takes, cfg, o)
  }

  ghost predicate RoundsCalm(rounds: nat, kids: Body, takes: Outcomes, cfg: Config, o: Observed)
    decreases kids, 2, rounds
  {
    rounds == 0 || (BlocksCalm(kids, takes, cfg, o)
                    && RoundsCalm(rounds - 1, kids, takes, cfg, Play(TreeEvents(kids, takes), cfg, o)))
  }

  /** The steps of parallel blocks own harmless effects only. */
  predicate QuietBlocks(body: Body) {
    match body
    case Done => true
    case StepItem(_, rest) => QuietBlocks(rest)
    case ParallelItem(kids, rest) => Quiet(AllSteps(kids)) && QuietBlocks(rest)
    case _ => QuietBlocks(body.kids) && QuietBlocks(body.rest)
  }

  predicate Quiet(steps: seq<Step>) {
    forall i, k :: 0 <= i < |steps| && 0 <= k < |steps[i].effects| ==> Harmless(steps[i].effects[k])
  }

  lemma QuietIsCalm(steps: seq<Step>, store: Store, cfg: Config)
    requires Quiet(steps) && cfg.faults == {}
    ensures Calm(steps, store, cfg)
  {
    hide RunEffects, Harmless, Written;
    forall i | 0 <= i < |steps|
      ensures Written(steps[i].effects) == {} && !RunEffects(steps[i].effects, store, cfg).failed
    {
      HarmlessRuns(steps[i].effects, store, cfg);
    }
  }

  /** Quiet blocks are calm wherever the events lead. */
  lemma {:induction false} QuietBlocksAreCalm(body: Body, takes: Outcomes, cfg: Config, o: Observed)
    requires QuietBlocks(body) && cfg.faults == {}
    ensures BlocksCalm(body, takes, cfg, o)
    decreases body, 1
  {
    hide Play, TreeEvents, Quiet, Calm;
    if !body.Done? {
      QuietBlocksAreCalm(body.rest, takes, cfg, Play(FirstEvents(body, takes), cfg, o));
      match body
      case StepItem(_, _) =>
      case GroupItem(kids, _) => QuietBlocksAreCalm(kids, takes, cfg, o);
      case ParallelItem(kids, _) => QuietIsCalm(AllSteps(kids), o.store, cfg);
      case RepeatItem(count, kids, _) => QuietRounds(count, kids, takes, cfg, o);
      case GuardItem(g, kids, _) => QuietRounds(GuardCopies(g), kids, takes, cfg, o);
    }
  }

  lemma {:induction false} QuietRounds(rounds: nat, kids: Body, takes: Outcomes, cfg: Config, o: Observed)
    requires QuietBlocks(kids) && cfg.faults == {}
    ensures RoundsCalm(rounds, kids, takes, cfg, o)
    decreases kids, 2, rounds
  {
    if rounds > 0 {
      QuietBlocksAreCalm(kids, takes, cfg, o);
      QuietRounds(rounds - 1, kids, takes, cfg, Play(TreeEvents(kids, takes), cfg, o));
    }
  }

  /** A calm block plays its steps in written order, unless there is no time for all of them. */
  lemma {:induction false} PlayCalm(steps: seq<Step>, cfg: Config, o: Observed)
    requires o.status.Completed? && Calm(steps, o.store, cfg)
    ensures var e := Play(RanAll(steps), cfg, o);
            if steps != [] && TooLate(cfg, o.now + TotalCost(steps))
            then e.status.Failed? && |e.spans| <= |o.spans| + |steps|
            else e == o.(store := SerialStore(steps, o.store, cfg), now := o.now + TotalCost(steps),
                         spans := o.spans + AllSpans(steps))
    decreases steps
  {
    if steps == [] {
      assert o.spans + [] == o.spans;
    } else {
      hide RunEffects, Calm, TryStep;
      CalmTail(steps, o.store, cfg);
      CalmFirst(steps, cfg, o);
      var next := PlayEvent(Ran(steps[0]), cfg, o);
      assert RanAll(steps)[1..] == RanAll(steps[1..]);
      if next.status.Completed? {
        PlayCalm(steps[1..], cfg, next);
        Assoc(o.spans, [Span(steps[0].name, Kinds(steps[0].effects))], AllSpans(steps[1..]));
      } else {
        PlayStopped(RanAll(steps[1..]), cfg, next);
      }
    }
  }

  lemma CalmFirst(steps: seq<Step>, cfg: Config, o: Observed)
    requires steps != [] && o.status.Completed? && Calm(steps, o.store, cfg)
    ensures var e := PlayEvent(Ran(steps[0]), cfg, o);
            if Late(cfg, o.now) || Overdue(cfg, o.now + SuccessCost(steps[0]))
            then e.status.Failed? && |e.spans| == |o.spans| + 1
            else e == o.(store := RunEffects(steps[0].effects, o.store, cfg).store,
                         now := o.now + SuccessCost(steps[0]),
                         spans := o.spans + [Span(steps[0].name, Kinds(steps[0].effects))])
  {
    hide RunEffects, TryStep;
    assert !RunEffects(steps[0].effects, o.store, cfg).failed;
    if Late(cfg, o.now) {
      StepTooLate(steps[0], cfg, o);
    } else {
      StepSucceeds(steps[0], cfg, o);
    }
  }

  function FirstEvents(body: Body, takes: Outcomes): seq<Event>
    requires !body.Done?
  {
    match body
    case StepItem(step, _) => [Ran(step)]
    case GroupItem(kids, _) => TreeEvents(kids, takes)
    case ParallelItem(kids, _) => RanAll(AllSteps(kids))
    case RepeatItem(count, kids, _) => Times(TreeEvents(kids, takes), count)
    case GuardItem(g, kids, _) =>
      if takes(g) then Times(TreeEvents(kids, takes), GuardCopies(g)) else MissedAll(g, StepNames(kids))
  }

  function RunFirst(body: Body, inp: Inputs, run: Run): Run
    requires !body.Done?
  {
    match body
    case StepItem(step, _) => RunStep(step, inp.cfg, run)
    case GroupItem(kids, _) => RunBody(kids, inp, run)
    case ParallelItem(kids, _) => RunParallel(AllSteps(kids), inp, run)
    case RepeatItem(count, kids, _) => RunRepeat(count, kids, inp, run)
    case GuardItem(g, kids, _) =>
      if g.mode.When? then RunWhen(g, kids, inp, run) else RunUntil(g, kids, inp, run.now, 0, run)
  }

  lemma WalkStep(body: Body, inp: Inputs, run: Run)
    requires !body.Done? && run.status.Completed?
    ensures RunBody(body, inp, run) == RunBody(body.rest, inp, RunFirst(body, inp, run))
    ensures forall takes :: TreeEvents(body, takes) == FirstEvents(body, takes) + TreeEvents(body.rest, takes)
  {
    hide RunStep, RunParallel, RunRepeat, RunWhen, RunUntil;
  }

  lemma NothingWalked(body: Body, inp: Inputs, run: Run)
    requires body.Done? && run.status.Completed?
    ensures RunBody(body, inp, run) == run && forall takes :: TreeEvents(body, takes) == []
  {
  }

  lemma BodyStopped(body: Body, inp: Inputs, run: Run)
    requires !run.status.Completed?
    ensures RunBody(body, inp, run) == run
  {
  }

  // ---- Out of time ---------------------------------------------------------------------

  /** A run that failed at a step it had no time to start. */
  predicate EndsEmpty(o: Observed) {
    o.status.Failed? && o.spans != [] && o.spans[|o.spans| - 1].kinds == []
  }

  /** It has failed for want of time: at a step it could not start, or before `u`, the same events
      without a deadline, fails. */
  predicate Overran(o: Observed, u: Observed) {
    EndsEmpty(o) || (o.status.Failed? && |o.spans| <= |u.spans| && (u.status.Completed? || |o.spans| < |u.spans|))
  }

  /** Or it has left a loop early and has no time for anything else. */
  predicate Adrift(o: Observed, u: Observed, cfg: Config) {
    Overran(o, u) || (o.status.Completed? && Late(cfg, o.now) && |o.spans| < |u.spans|)
  }

  /** The walk leaves what its events leave, or both have run out of time. */
  predicate Follows(r: Observed, events: seq<Event>, cfg: Config, o: Observed) {
    r == Play(events, cfg, o) || (
      var u := Play(events, Untimed(cfg), o);
      cfg.timeout.Some? && Adrift(r, u, cfg) && Overran(Play(events, cfg, o), u))
  }

  lemma OverranStays(o: Observed, u: Observed, events: seq<Event>, cfg: Config)
    requires Overran(o, u)
    ensures Overran(o, Play(events, cfg, u))
  {
    if u.status.Completed? {
      PlayGrows(events, cfg, u);
    } else {
      PlayStopped(events, cfg, u);
    }
  }

  lemma AdriftStays(o: Observed, u: Observed, events: seq<Event>, cfg: Config)
    requires Adrift(o, u, cfg)
    ensures Adrift(o, Play(events, Untimed(cfg), u), cfg)
  {
    if Overran(o, u) {
      OverranStays(o, u, events, Untimed(cfg));
    } else if u.status.Completed? {
      PlayGrows(events, Untimed(cfg), u);
    } else {
      PlayStopped(events, Untimed(cfg), u);
    }
  }

  /** What a run that is late can still do: nothing, or fail at a step it cannot start. */
  predicate IdlesFrom(run: Run, r: Run) {
    r.now >= run.now && ((r.status.Completed? && r.spans == run.spans) || EndsEmpty(Observe(r)))
  }

  lemma {:induction false} LateBody(body: Body, inp: Inputs, run: Run)
    requires run.status.Completed? && Late(inp.cfg, run.now) && Settles(inp) && Decided(body, inp)
    ensures IdlesFrom(run, RunBody(body, inp, run))
    decreases body, 1
  {
    hide RunBody, RunFirst, Settles, Decided, NormaliseSkips;
    if body.Done? {
      NothingWalked(body, inp, run);
    } else {
      var next := RunFirst(body, inp, run);
      DecidedFirst(body, inp);
      WalkStep(body, inp, run);
      LateFirst(body, inp, run);
      if next.status.Completed? {
        LateBody(body.rest, inp, next);
      } else {
        BodyStopped(body.rest, inp, next);
      }
    }
  }

  lemma LateFirst(body: Body, inp: Inputs, run: Run)
    requires !body.Done? && run.status.Completed? && Late(inp.cfg, run.now) && Settles(inp) && Decided(body, inp)
    ensures IdlesFrom(run, RunFirst(body, inp, run))
    decreases body, 0
  {
    hide RunBody, RunRepeat, RunUntil, RunParallel, Settles, TryStep, Decided, GuardVerdict, Skip, IdlesFrom;
    DecidedFirst(body, inp);
    match body
    case StepItem(step, _) =>
      LateStep(step, inp.cfg, run);
    case GroupItem(kids, _) =>
      LateBody(kids, inp, run);
    case ParallelItem(kids, _) =>
      LateParallel(AllSteps(kids), inp, run);
    case RepeatItem(count, kids, _) =>
      LateRepeat(count, kids, inp, run);
    case GuardItem(g, kids, _) =>
      SkipIdles(g, kids, run);
      if g.mode.Until? {
        LateUntil(g, kids, inp, run.now, 0, run);
      } else if GuardVerdict(inp.u, g, inp.scope) == Holds(true) {
        LateBody(kids, inp, run);
      }
  }

  lemma LateStep(step: Step, cfg: Config, run: Run)
    requires run.status.Completed? && Late(cfg, run.now)
    ensures IdlesFrom(run, RunStep(step, cfg, run))
  {
    LateMakesNone(step, run.store, cfg, 1, run.now);
  }

  lemma SkipIdles(g: Guard, kids: Body, run: Run)
    requires run.status.Completed?
    ensures IdlesFrom(run, run) && IdlesFrom(run, Skip(g, kids, run))
  {
  }

  lemma DecidedFirst(body: Body, inp: Inputs)
    requires !body.Done? && Decided(body, inp)
    ensures Decided(body.rest, inp) && (!body.StepItem? ==> Decided(body.kids, inp))
    ensures body.GuardItem? ==> GuardVerdict(inp.u, body.guard, inp.scope).Holds?
  {
  }

  lemma LateParallel(steps: seq<Step>, inp: Inputs, run: Run)
    requires run.status.Completed? && Late(inp.cfg, run.now) && Settles(inp)
    ensures IdlesFrom(run, RunParallel(steps, inp, run))
  {
    hide RunBlock, BlockSpans;
    var schedule := inp.schedule(steps, run);
    var b := RunBlock(steps, inp.cfg, run.store, run.now, schedule);
    assert Settled(b.tasks);
    if steps != [] {
      LateBlockFails(steps, inp.cfg, run.store, run.now, schedule);
      var spans := BlockSpans(steps, b.tasks);
      assert (run.spans + spans)[|run.spans + spans| - 1] == spans[|spans| - 1];
    } else {
      NothingRun(steps, b.tasks);
      assert run.spans + [] == run.spans;
    }
  }

  lemma {:induction false} LateRepeat(count: nat, kids: Body, inp: Inputs, run: Run)
    requires run.status.Completed? && Late(inp.cfg, run.now) && Settles(inp) && Decided(kids, inp)
    ensures IdlesFrom(run, RunRepeat(count, kids, inp, run))
    decreases kids, 2, count
  {
    hide RunBody, Settles, Decided;
    if count > 0 {
      LateBody(kids, inp, run);
      var next := RunBody(kids, inp, run);
      if next.status.Completed? {
        LateRepeat(count - 1, kids, inp, next);
      } else {
        RepeatStopped(count - 1, kids, inp, next);
      }
    }
  }

  lemma {:induction false} RepeatStopped(count: nat, kids: Body, inp: Inputs, run: Run)
    requires !run.status.Completed?
    ensures RunRepeat(count, kids, inp, run) == run
  {
    if count > 0 {
      RepeatStopped(count - 1, kids, inp, run);
    }
  }

  lemma {:induction false} LateUntil(g: Guard, kids: Body, inp: Inputs, start: nat, rounds: nat, run: Run)
    requires rounds <= UNTIL_ROUND_CAP && run.status.Completed? && Late(inp.cfg, run.now) && Settles(inp)
    requires Decided(kids, inp) && GuardVerdict(inp.u, g, inp.scope).Holds?
    ensures IdlesFrom(run, RunUntil(g, kids, inp, start, rounds, run))
    decreases kids, 2, UNTIL_ROUND_CAP - rounds
  {
    hide RunBody, Settles, Decided, GuardVerdict;
    if GuardVerdict(inp.u, g, inp.scope) == Holds(false) && run.now < start + inp.cfg.timeout.value
       && rounds < UNTIL_ROUND_CAP {
      LateBody(kids, inp, run);
      var next := RunBody(kids, inp, run);
      if next.status.Completed? {
        LateUntil(g, kids, inp, start, rounds + 1, next);
      }
    }
  }

  // ---- The walk plays its events -------------------------------------------------------

  /** An `until` owns its steps outright: a loop that ends early has left some of them out. */
  predicate PlainLoops(body: Body) {
    match body
    case Done => true
    case StepItem(_, rest) => PlainLoops(rest)
    case GuardItem(g, kids, rest) =>
      (if g.mode.Until? then NoGuard(kids) && NoRepeat(kids) else PlainLoops(kids)) && PlainLoops(rest)
    case _ => PlainLoops(body.kids) && PlainLoops(body.rest)
  }

  lemma {:induction false} PlainIsPlain(body: Body)
    requires NoGuard(body)
    ensures PlainLoops(body)
  {
    match body
    case Done =>
    case StepItem(_, rest) => PlainIsPlain(rest);
    case GroupItem(kids, rest) => PlainIsPlain(kids); PlainIsPlain(rest);
    case ParallelItem(kids, rest) => PlainIsPlain(kids); PlainIsPlain(rest);
    case RepeatItem(_, kids, rest) => PlainIsPlain(kids); PlainIsPlain(rest);
  }

  /** What the walk needs to follow its events: an executor that finishes its blocks, guards that do
      not fault, and plain loops under a deadline. */
  ghost predicate Playable(body: Body, inp: Inputs) {
    Settles(inp) && Decided(body, inp) && (inp.cfg.timeout.Some? ==> PlainLoops(body))
  }

  lemma PlayableFirst(body: Body, inp: Inputs)
    requires !body.Done? && Playable(body, inp)
    ensures Playable(body.rest, inp) && (!body.StepItem? && !body.ParallelItem? ==> Playable(body.kids, inp))
    ensures body.GuardItem? ==> GuardVerdict(inp.u, body.guard, inp.scope).Holds?
    ensures inp.cfg.timeout.Some? && body.GuardItem? && body.guard.mode.Until? ==>
              NoGuard(body.kids) && NoRepeat(body.kids)
  {
    hide Settles, GuardVerdict;
    if body.GuardItem? && inp.cfg.timeout.Some? && body.guard.mode.Until? {
      PlainIsPlain(body.kids);
    }
  }

  /** One item, then the rest. */
  lemma ThenFollows(first: seq<Event>, rest: seq<Event>, cfg: Config, o: Observed, next: Run, r: Run)
    requires Follows(Observe(next), first, cfg, o)
    requires next.status.Completed? && Observe(next) == Play(first, cfg, o) ==>
               Follows(Observe(r), rest, cfg, Observe(next))
    requires next.status.Completed? && Late(cfg, next.now) ==> IdlesFrom(next, r)
    requires !next.status.Completed? ==> r == next
    ensures Follows(Observe(r), first + rest, cfg, o)
  {
    hide Play, NormaliseSkips, Overran, EndsEmpty;
    var n, t := Observe(next), Play(first, cfg, o);
    PlayConcat(first, rest, cfg, o);
    PlayConcat(first, rest, Untimed(cfg), o);
    if n == t {
      if n.status.Completed? {
        PlayUntimed(first, cfg, o);
      } else {
        PlayStopped(rest, cfg, t);
      }
    } else {
      AdriftThen(first, rest, cfg, o, next, r);
    }
  }

  lemma AdriftThen(first: seq<Event>, rest: seq<Event>, cfg: Config, o: Observed, next: Run, r: Run)
    requires cfg.timeout.Some? && Overran(Play(first, cfg, o), Play(first, Untimed(cfg), o))
    requires Adrift(Observe(next), Play(first, Untimed(cfg), o), cfg)
    requires next.status.Completed? && Late(cfg, next.now) ==> IdlesFrom(next, r)
    requires !next.status.Completed? ==> r == next
    ensures Adrift(Observe(r), Play(rest, Untimed(cfg), Play(first, Untimed(cfg), o)), cfg)
    ensures Play(rest, cfg, Play(first, cfg, o)) == Play(first, cfg, o)
    ensures Overran(Play(first, cfg, o), Play(rest, Untimed(cfg), Play(first, Untimed(cfg), o)))
  {
    hide Play, NormaliseSkips;
    var t, u := Play(first, cfg, o), Play(first, Untimed(cfg), o);
    PlayStopped(rest, cfg, t);
    OverranStays(t, u, rest, Untimed(cfg));
    AdriftStays(Observe(next), u, rest, cfg);
  }

  lemma PlayTimes(events: seq<Event>, n: nat)
    requires n > 0
    ensures Times(events, n) == events + Times(events, n - 1)
  {
    TimesFront(events, n - 1);
  }

  lemma NothingFollows(cfg: Config, run: Run)
    ensures Follows(Observe(run), [], cfg, Observe(run))
  {
  }

  lemma StoppedFollows(events: seq<Event>, cfg: Config, run: Run)
    requires !run.status.Completed?
    ensures Follows(Observe(run), events, cfg, Observe(run))
  {
    hide Play;
    PlayStopped(events, cfg, Observe(run));
  }

  lemma NextRound(rounds: nat, kids: Body, takes: Outcomes, cfg: Config, o: Observed)
    requires rounds > 0 && RoundsCalm(rounds, kids, takes, cfg, o)
    ensures BlocksCalm(kids, takes, cfg, o)
            && RoundsCalm(rounds - 1, kids, takes, cfg, Play(TreeEvents(kids, takes), cfg, o))
  {
    hide BlocksCalm, Play, TreeEvents;
  }

  lemma RepeatStep(count: nat, kids: Body, inp: Inputs, run: Run)
    ensures RunRepeat(count, kids, inp, run)
         == if count == 0 then run else RunRepeat(count - 1, kids, inp, RunBody(kids, inp, run))
  {
    hide RunBody;
  }

  lemma {:induction false} RepeatFollows(count: nat, kids: Body, inp: Inputs, run: Run)
    requires Playable(kids, inp) && RoundsCalm(count, kids, Takes(inp), inp.cfg, Observe(run))
    ensures Follows(Observe(RunRepeat(count, kids, inp, run)), Times(TreeEvents(kids, Takes(inp)), count), inp.cfg,
                    Observe(run))
    decreases kids, 1, count
  {
    hide RunBody, RunRepeat, RoundsCalm, Follows, Observe, TreeEvents, Times, Settles, Decided, PlainLoops, Play,
         IdlesFrom, BlocksCalm;
    var events, cfg := TreeEvents(kids, Takes(inp)), inp.cfg;
    RepeatStep(count, kids, inp, run);
    if !run.status.Completed? {
      RepeatStopped(count, kids, inp, run);
      StoppedFollows(Times(events, count), cfg, run);
    } else if count == 0 {
      NoTimes(events);
      NothingFollows(cfg, run);
    } else {
      var next := RunBody(kids, inp, run);
      NextRound(count, kids, Takes(inp), cfg, Observe(run));
      WalkFollows(kids, inp, run);
      if !next.status.Completed? {
        RepeatStopped(count - 1, kids, inp, next);
      } else {
        if Observe(next) == Play(events, cfg, Observe(run)) {
          RepeatFollows(count - 1, kids, inp, next);
        }
        if Late(cfg, next.now) {
          LateRepeat(count - 1, kids, inp, next);
        }
      }
      PlayTimes(events, count);
      ThenFollows(events, Times(events, count - 1), cfg, Observe(run), next, RunRepeat(count, kids, inp, run));
    }
  }

  lemma NoTimes(events: seq<Event>)
    ensures Times(events, 0) == []
  {
  }

  // ---- Loops ---------------------------------------------------------------------------

  lemma {:induction false} StraightSteps(body: Body)
    requires NoGuard(body) && NoRepeat(body)
    ensures |AllSteps(body)| == |StepNames(body)|
  {
    match body
    case Done =>
    case StepItem(_, rest) => StraightSteps(rest);
    case GroupItem(kids, rest) => StraightSteps(kids); StraightSteps(rest);
    case ParallelItem(kids, rest) => StraightSteps(kids); StraightSteps(rest);
  }

  lemma {:induction false} StraightEvents(body: Body, takes: Outcomes)
    requires NoGuard(body) && NoRepeat(body)
    ensures TreeEvents(body, takes) == [] ==> StepNames(body) == []
    ensures TreeEvents(body, takes) != [] ==> TreeEvents(body, takes)[0].Ran?
  {
    match body
    case Done =>
    case StepItem(_, rest) =>
      StraightEvents(rest, takes);
    case GroupItem(kids, rest) =>
      StraightEvents(kids, takes);
      StraightEvents(rest, takes);
    case ParallelItem(kids, rest) =>
      StraightSteps(kids);
      StraightEvents(rest, takes);
  }

  lemma SkipNothing(g: Guard, kids: Body, run: Run)
    requires StepNames(kids) == []
    ensures Observe(Skip(g, kids, run)) == Observe(run)
  {
    NormaliseSnoc(run.skips, SkipOf(g, kids));
    assert NormaliseSkips(run.skips) + [] == NormaliseSkips(run.skips);
  }

  /** Events that start with a step, played when there is no time. */
  lemma NoTimeLeft(events: seq<Event>, cfg: Config, o: Observed)
    requires events != [] && events[0].Ran? && o.status.Completed? && Late(cfg, o.now)
    ensures EndsEmpty(Play(events, cfg, o)) && |Play(events, Untimed(cfg), o).spans| > |o.spans|
  {
    hide PlayEvent;
    StepTooLate(events[0].step, cfg, o);
    PlayStopped(events[1..], cfg, PlayEvent(events[0], cfg, o));
    StepUntimed(events[0].step, Untimed(cfg), o);
    var next := PlayEvent(events[0], Untimed(cfg), o);
    if next.status.Completed? {
      PlayGrows(events[1..], Untimed(cfg), next);
    } else {
      PlayStopped(events[1..], Untimed(cfg), next);
    }
  }

  /** A loop that its deadline ends has no time for the rounds it leaves out. */
  lemma LeftEarly(g: Guard, kids: Body, takes: Outcomes, cfg: Config, run: Run, r: Run, n: nat)
    requires run.status.Completed? && Late(cfg, run.now) && NoGuard(kids) && NoRepeat(kids) && n > 0
    requires r == run || r == Skip(g, kids, run)
    ensures Follows(Observe(r), Times(TreeEvents(kids, takes), n), cfg, Observe(run))
  {
    hide Play, NormaliseSkips, TreeEvents, Times, StepNames, EndsEmpty;
    var events := TreeEvents(kids, takes);
    StraightEvents(kids, takes);
    if events == [] {
      TimesEmpty<Event>(n);
      SkipNothing(g, kids, run);
      NothingFollows(cfg, run);
    } else {
      PlayTimes(events, n);
      NoTimeLeft(Times(events, n), cfg, Observe(run));
    }
  }

  lemma {:induction false} UntilFollows(g: Guard, kids: Body, inp: Inputs, start: nat, rounds: nat, run: Run)
    requires rounds <= UNTIL_ROUND_CAP && Playable(kids, inp) && GuardVerdict(inp.u, g, inp.scope) == Holds(false)
    requires inp.cfg.timeout.Some? ==> NoGuard(kids) && NoRepeat(kids)
    requires RoundsCalm(UNTIL_ROUND_CAP - rounds, kids, Takes(inp), inp.cfg, Observe(run))
    ensures Follows(Observe(RunUntil(g, kids, inp, start, rounds, run)),
                    Times(TreeEvents(kids, Takes(inp)), UNTIL_ROUND_CAP - rounds), inp.cfg, Observe(run))
    decreases kids, 1, UNTIL_ROUND_CAP - rounds
  {
    hide RunBody, RunUntil, RoundsCalm, Follows, Observe, TreeEvents, Times, Settles, Decided, PlainLoops, Play,
         IdlesFrom, BlocksCalm, GuardVerdict, Skip, Takes;
    var events, cfg, left := TreeEvents(kids, Takes(inp)), inp.cfg, UNTIL_ROUND_CAP - rounds;
    UntilStep(g, kids, inp, start, rounds, run);
    if !run.status.Completed? {
      StoppedFollows(Times(events, left), cfg, run);
    } else if left == 0 {
      NoTimes(events);
      NothingFollows(cfg, run);
    } else if cfg.timeout.Some? && run.now >= start + cfg.timeout.value {
      LeftEarly(g, kids, Takes(inp), cfg, run, RunUntil(g, kids, inp, start, rounds, run), left);
    } else {
      var next := RunBody(kids, inp, run);
      NextRound(left, kids, Takes(inp), cfg, Observe(run));
      WalkFollows(kids, inp, run);
      UntilStep(g, kids, inp, start, rounds + 1, next);
      if next.status.Completed? {
        if Observe(next) == Play(events, cfg, Observe(run)) {
          UntilFollows(g, kids, inp, start, rounds + 1, next);
        }
        if Late(cfg, next.now) {
          LateUntil(g, kids, inp, start, rounds + 1, next);
        }
      }
      PlayTimes(events, left);
      ThenFollows(events, Times(events, left - 1), cfg, Observe(run), next,
                  RunUntil(g, kids, inp, start, rounds, run));
    }
  }

  // ---- Items ---------------------------------------------------------------------------

  lemma StepFollows(step: Step, cfg: Config, run: Run)
    requires run.status.Completed?
    ensures Follows(Observe(RunStep(step, cfg, run)), [Ran(step)], cfg, Observe(run))
  {
    hide TryStep, NormaliseSkips, Adrift, Overran;
    var o := Observe(run);
    assert [Ran(step)][1..] == [];
    assert Observe(RunStep(step, cfg, run)) == PlayEvent(Ran(step), cfg, o);
    assert Play([], cfg, PlayEvent(Ran(step), cfg, o)) == PlayEvent(Ran(step), cfg, o);
  }

  lemma SkipFollows(g: Guard, kids: Body, cfg: Config, run: Run)
    requires run.status.Completed?
    ensures Follows(Observe(Skip(g, kids, run)), MissedAll(g, StepNames(kids)), cfg, Observe(run))
  {
    hide Observe, Play, Skip;
    ObserveSkip(g, kids, cfg, run);
  }

  /** A calm block follows its steps in written order. */
  lemma ParallelFollows(steps: seq<Step>, inp: Inputs, run: Run)
    requires run.status.Completed? && Settles(inp) && Calm(steps, run.store, inp.cfg)
    ensures Follows(Observe(RunParallel(steps, inp, run)), RanAll(steps), inp.cfg, Observe(run))
  {
    hide RunBlock, Calm, Settled, Play, SerialStore, BlockSpans;
    var cfg, schedule := inp.cfg, inp.schedule(steps, run);
    var b := RunBlock(steps, cfg, run.store, run.now, schedule);
    CalmBlockOnClock(steps, cfg, run.store, run.now, schedule);
    PlayCalm(steps, cfg, Observe(run));
    CalmUntimed(steps, run.store, cfg);
    PlayCalm(steps, Untimed(cfg), Observe(run));
    SpansOfAll(steps);
    if steps == [] {
      NothingRun(steps, b.tasks);
    }
  }

  lemma {:induction false} SpansOfAll(steps: seq<Step>)
    ensures |AllSpans(steps)| == |steps|
  {
    if steps != [] {
      SpansOfAll(steps[1..]);
    }
  }

  lemma NothingRun(steps: seq<Step>, tasks: seq<Task>)
    requires steps == [] && tasks == []
    ensures !AnyFails(tasks) && BlockSpans(steps, tasks) == []
  {
  }

  lemma WhenRuns(g: Guard, kids: Body, inp: Inputs, run: Run)
    requires GuardVerdict(inp.u, g, inp.scope).Holds?
    ensures g.mode.When? ==>
              RunWhen(g, kids, inp, run) == if Takes(inp)(g) then RunBody(kids, inp, run) else Skip(g, kids, run)
    ensures g.mode.Until? && run.status.Completed? && !Takes(inp)(g) ==>
              RunUntil(g, kids, inp, run.now, 0, run) == Skip(g, kids, run)
    ensures g.mode.Until? && Takes(inp)(g) ==> GuardVerdict(inp.u, g, inp.scope) == Holds(false)
  {
    hide RunBody, GuardVerdict, Skip;
  }

  lemma GuardFollows(g: Guard, kids: Body, inp: Inputs, run: Run)
    requires run.status.Completed? && Playable(kids, inp) && GuardVerdict(inp.u, g, inp.scope).Holds?
    requires inp.cfg.timeout.Some? && g.mode.Until? ==> NoGuard(kids) && NoRepeat(kids)
    requires Takes(inp)(g) ==> RoundsCalm(GuardCopies(g), kids, Takes(inp), inp.cfg, Observe(run))
    ensures Follows(Observe(if g.mode.When? then RunWhen(g, kids, inp, run)
                            else RunUntil(g, kids, inp, run.now, 0, run)),
                    if Takes(inp)(g) then Times(TreeEvents(kids, Takes(inp)), GuardCopies(g))
                    else MissedAll(g, StepNames(kids)), inp.cfg, Observe(run))
    decreases kids, 2
  {
    hide RunBody, RunUntil, RunWhen, RoundsCalm, Follows, Observe, TreeEvents, Times, Playable, Play, BlocksCalm,
         GuardVerdict, Skip, Takes, MissedAll;
    WhenRuns(g, kids, inp, run);
    if !Takes(inp)(g) {
      SkipFollows(g, kids, inp.cfg, run);
    } else if g.mode.When? {
      NextRound(1, kids, Takes(inp), inp.cfg, Observe(run));
      WalkFollows(kids, inp, run);
      TimesOnce(TreeEvents(kids, Takes(inp)));
    } else {
      UntilFollows(g, kids, inp, run.now, 0, run);
    }
  }

  lemma FirstFollows(body: Body, inp: Inputs, run: Run)
    requires !body.Done? && Playable(body, inp) && run.status.Completed?
    requires FirstCalm(body, Takes(inp), inp.cfg, Observe(run))
    ensures Follows(Observe(RunFirst(body, inp, run)), FirstEvents(body, Takes(inp)), inp.cfg, Observe(run))
    decreases body, 0, 0
  {
    hide Observe, Play, BlocksCalm, RunStep, RunParallel, Takes, Settles, Follows, Playable, RunBody, RunRepeat,
         RunWhen, RunUntil, TreeEvents, Times, MissedAll, RoundsCalm;
    ObserveStatus(run);
    PlayableFirst(body, inp);
    match body
    case StepItem(step, _) =>
      StepFollows(step, inp.cfg, run);
    case GroupItem(kids, _) =>
      WalkFollows(kids, inp, run);
    case ParallelItem(kids, _) =>
      assert Settles(inp) by { PlayableSettles(body, inp); }
      ParallelFollows(AllSteps(kids), inp, run);
    case RepeatItem(count, kids, _) =>
      RepeatFollows(count, kids, inp, run);
    case GuardItem(g, kids, _) =>
      GuardFollows(g, kids, inp, run);
  }

  lemma PlayableSettles(body: Body, inp: Inputs)
    requires Playable(body, inp)
    ensures Settles(inp) && Decided(body, inp)
  {
  }

  lemma ObserveStatus(run: Run)
    ensures Observe(run).status == run.status && Observe(run).store == run.store
  {
  }

  lemma CalmStep(body: Body, takes: Outcomes, cfg: Config, o: Observed)
    requires !body.Done? && BlocksCalm(body, takes, cfg, o)
    ensures FirstCalm(body, takes, cfg, o) && BlocksCalm(body.rest, takes, cfg, Play(FirstEvents(body, takes), cfg, o))
  {
  }

  /** When no guard faults and no step of a parallel block fails on its own, the walk plays the events
      of its tree, whatever else fails and however its blocks are scheduled; or there is a deadline
      and walk and events have run out of time. */
  lemma {:induction false} WalkFollows(body: Body, inp: Inputs, run: Run)
    requires Playable(body, inp) && BlocksCalm(body, Takes(inp), inp.cfg, Observe(run))
    ensures Follows(Observe(RunBody(body, inp, run)), TreeEvents(body, Takes(inp)), inp.cfg, Observe(run))
    decreases body, 0
  {
    hide *;
    ObserveStatus(run);
    if !run.status.Completed? {
      BodyStopped(body, inp, run);
      StoppedFollows(TreeEvents(body, Takes(inp)), inp.cfg, run);
    } else if body.Done? {
      NothingWalked(body, inp, run);
      NothingFollows(inp.cfg, run);
    } else {
      var first, next := FirstEvents(body, Takes(inp)), RunFirst(body, inp, run);
      CalmStep(body, Takes(inp), inp.cfg, Observe(run));
      PlayableFirst(body, inp);
      FirstFollows(body, inp, run);
      WalkStep(body, inp, run);
      if !next.status.Completed? {
        BodyStopped(body.rest, inp, next);
      } else {
        if Observe(next) == Play(first, inp.cfg, Observe(run)) {
          WalkFollows(body.rest, inp, next);
        }
        if Late(inp.cfg, next.now) {
          PlayableSettles(body.rest, inp);
          LateBody(body.rest, inp, next);
        }
      }
      ThenFollows(first, TreeEvents(body.rest, Takes(inp)), inp.cfg, Observe(run), next, RunBody(body, inp, run));
    }
  }

  /** Without a deadline the walk plays the events of its tree. */
  lemma RunsEvents(body: Body, inp: Inputs, run: Run)
    requires inp.cfg.timeout.None? && Settles(inp) && Decided(body, inp)
    requires BlocksCalm(body, Takes(inp), inp.cfg, Observe(run))
    ensures Observe(RunBody(body, inp, run)) == Play(TreeEvents(body, Takes(inp)), inp.cfg, Observe(run))
  {
    hide Observe, RunBody, Play, TreeEvents, BlocksCalm, Settles, Decided, Takes;
    WalkFollows(body, inp, run);
  }
}
