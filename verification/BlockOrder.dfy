/** What a parallel block leaves behind, whatever the order of its attempts: steps that do not
    interfere do what each would do alone. When none fails the block is its steps in written order;
    when one fails, the block leaves their spans exactly if it started nothing written after the first
    step that fails, which is sure only if that step is the last. */
module BlockOrder {
  import opened Wrappers
  import opened Workflow
  import opened Attempts
  import opened Blocks
  import opened Footprint
  import opened Retry
  import opened RetryTrace

  /** No step of the block touches what another one writes; that two of them bind the same row does
      not matter. */
  predicate Untangled(steps: seq<Step>) {
    forall i, j :: 0 <= i < |steps| && 0 <= j < |steps| && i != j ==>
      Written(steps[i].effects) !! Touched(steps[j].effects)
  }

  /** The whole of step `i`, run alone from the block's store. */
  function Alone(steps: seq<Step>, store: Store, cfg: Config, i: nat): Attempt
    requires i < |steps|
  {
    RunAttempts(steps[i], store, cfg, 1)
  }

  /** What is left of a task that has made some attempts, run alone from `own`. */
  ghost predicate OnTrack(step: Step, cfg: Config, whole: Attempt, task: Task, own: Store, store: Store) {
    match task
    case Waiting => own == store
    case Retrying(n, kinds) =>
      && 1 <= n < MAX_STEP_ATTEMPTS && whole.failed
      && var rest := RunAttempts(step, own, cfg, n + 1);
         whole == Attempt(rest.store, kinds + rest.kinds, rest.failed)
    case Ended(kinds, failed) => whole == Attempt(own, kinds, failed)
  }

  /** The block's store agrees with each step's own on what the step touches. */
  ghost predicate Shares(steps: seq<Step>, b: Store, own: seq<Store>) {
    |own| == |steps|
    && forall i, e :: 0 <= i < |steps| && e in Touched(steps[i].effects) ==> (e in b <==> e in own[i])
  }

  ghost predicate Unwritten(steps: seq<Step>, c: Cell) {
    forall i :: 0 <= i < |steps| ==> c !in Written(steps[i].effects)
  }

  /** What is bound is what was bound, or what some step has bound. */
  ghost predicate Binds(steps: seq<Step>, store: Store, b: Store, own: seq<Store>) {
    forall e :: Bound(e) in b <==> Bound(e) in store || exists i :: 0 <= i < |own| && Bound(e) in own[i]
  }

  ghost predicate Tracks(steps: seq<Step>, cfg: Config, store: Store, b: Block, own: seq<Store>) {
    && |b.tasks| == |steps| == |own| && Shares(steps, b.store, own) && Binds(steps, store, b.store, own)
    && (forall i :: 0 <= i < |steps| ==> OnTrack(steps[i], cfg, Alone(steps, store, cfg, i), b.tasks[i], own[i], store))
    && (forall e :: Unwritten(steps, e) ==> (e in b.store <==> e in store))
  }

  lemma StartTracks(steps: seq<Step>, cfg: Config, store: Store, now: nat)
    ensures Tracks(steps, cfg, store, Submitted(steps, store, now), seq(|steps|, _ => store))
  {
  }

  /** One attempt of step `i` writes what it writes alone and nothing the others touch. */
  lemma AttemptShares(steps: seq<Step>, cfg: Config, b: Store, own: seq<Store>, i: nat)
    requires i < |steps| && Untangled(steps) && Shares(steps, b, own)
    requires forall e :: Bound(e) in own[i] ==> Bound(e) in b
    ensures var x, y := RunEffects(steps[i].effects, b, cfg), RunEffects(steps[i].effects, own[i], cfg);
            && x.failed == y.failed && x.kinds == y.kinds && Shares(steps, x.store, own[i := y.store])
            && (forall c :: Unwritten(steps, c) ==> (c in x.store <==> c in b))
            && forall e :: Bound(e) in x.store <==> Bound(e) in b || (Bound(e) in y.store && Bound(e) !in own[i])
  {
    hide RunEffects, Written, Touched, Succeeded, ReadAmong;
    var x, y := RunEffects(steps[i].effects, b, cfg), RunEffects(steps[i].effects, own[i], cfg);
    SameOnTouched(steps[i].effects, b, own[i], cfg);
    OnlyWritten(steps[i].effects, b, cfg);
    forall j, c | 0 <= j < |steps| && c in Touched(steps[j].effects)
      ensures c in x.store <==> c in own[i := y.store][j]
    {
      if j != i {
        assert Written(steps[i].effects) !! Touched(steps[j].effects);
        assert c in x.store <==> c in b;
      }
    }
    assert Succeeded(x) == Succeeded(y) by { SucceedAlike(x, y); }
    forall e ensures Bound(e) in x.store <==> Bound(e) in b || (Bound(e) in y.store && Bound(e) !in own[i]) {
      BindsWhatItReads(steps[i].effects, b, cfg, e);
      BindsWhatItReads(steps[i].effects, own[i], cfg, e);
    }
  }

  lemma SucceedAlike(x: Attempt, y: Attempt)
    requires x.failed == y.failed && x.kinds == y.kinds && (x.failed ==> x.kinds != [])
    ensures Succeeded(x) == Succeeded(y)
  {
  }

  lemma BindsNext(steps: seq<Step>, store: Store, b: Store, next: Store, own: seq<Store>, i: nat, mine: Store)
    requires Binds(steps, store, b, own) && i < |own|
    requires forall e :: Bound(e) in own[i] ==> Bound(e) in mine
    requires forall e :: Bound(e) in next <==> Bound(e) in b || (Bound(e) in mine && Bound(e) !in own[i])
    ensures Binds(steps, store, next, own[i := mine])
  {
    var after := own[i := mine];
    forall e ensures Bound(e) in next <==> Bound(e) in store || exists j :: 0 <= j < |after| && Bound(e) in after[j] {
      if j :| 0 <= j < |own| && Bound(e) in own[j] {
        assert Bound(e) in after[j];
      }
      if Bound(e) in mine {
        assert Bound(e) in after[i];
      }
      if j :| 0 <= j < |after| && Bound(e) in after[j] {
        assert j != i ==> after[j] == own[j];
      }
    }
  }

  lemma BoundStays(effects: seq<Effect>, store: Store, cfg: Config)
    ensures forall e :: Bound(e) in store ==> Bound(e) in RunEffects(effects, store, cfg).store
  {
    hide RunEffects, Succeeded, ReadAmong;
    forall e | Bound(e) in store ensures Bound(e) in RunEffects(effects, store, cfg).store {
      BindsWhatItReads(effects, store, cfg, e);
    }
  }

  /** The first attempt decides whether a step fails. */
  lemma FirstDecides(step: Step, store: Store, cfg: Config)
    ensures RunAttempts(step, store, cfg, 1).failed <==> RunEffects(step.effects, store, cfg).failed
  {
    hide RunEffects;
    if RunEffects(step.effects, store, cfg).failed {
      RetriedTraceExactly(step, store, cfg);
    }
  }

  /** A task that is not over still has to do what the step would do alone. */
  lemma TrackAhead(step: Step, cfg: Config, whole: Attempt, task: Task, own: Store, store: Store)
    requires OnTrack(step, cfg, whole, task, own, store) && !task.Ended? && whole == RunAttempts(step, store, cfg, 1)
    ensures Made(task) < MAX_STEP_ATTEMPTS
    ensures var rest := RunAttempts(step, own, cfg, Made(task) + 1);
            whole == Attempt(rest.store, Kinds0(task) + rest.kinds, rest.failed)
  {
    hide RunEffects, RunAttempts;
    assert [] + whole.kinds == whole.kinds;
  }

  /** The next attempt keeps a task on its track. */
  lemma AdvanceOnTrack(step: Step, cfg: Config, whole: Attempt, task: Task, own: Store, store: Store)
    returns (next: Task)
    requires OnTrack(step, cfg, whole, task, own, store) && !task.Ended?
    requires whole == RunAttempts(step, store, cfg, 1)
    ensures next == Next(step, cfg, task, RunEffects(step.effects, own, cfg))
    ensures OnTrack(step, cfg, whole, next, RunEffects(step.effects, own, cfg).store, store)
  {
    hide RunEffects, RunAttempts, Retryable, OnTrack;
    var a, n := RunEffects(step.effects, own, cfg), Made(task) + 1;
    next := Next(step, cfg, task, a);
    TrackAhead(step, cfg, whole, task, own, store);
    OneMoreAttempt(step, own, cfg, n);
    if a.failed && Retryable(step, cfg, n) {
      FirstDecides(step, store, cfg);
      RetryIsBounded(step, cfg, n);
      AttemptFails(step, own, cfg, n);
      var last := RunAttempts(step, a.store, cfg, n + 1);
      assert Kinds0(task) + (a.kinds + last.kinds) == (Kinds0(task) + a.kinds) + last.kinds;
      RetryingOnTrack(step, cfg, whole, n, Kinds0(task) + a.kinds, a.store, store);
    } else {
      EndedOnTrack(step, cfg, whole, Kinds0(task) + a.kinds, a, store);
    }
  }

  /** The task after an attempt, when no deadline interferes. */
  function Next(step: Step, cfg: Config, task: Task, a: Attempt): Task {
    if !a.failed || !Retryable(step, cfg, Made(task) + 1) then Ended(Kinds0(task) + a.kinds, a.failed)
    else Retrying(Made(task) + 1, Kinds0(task) + a.kinds)
  }

  lemma RetryingOnTrack(step: Step, cfg: Config, whole: Attempt, n: nat, kinds: seq<string>, own: Store, store: Store)
    requires 1 <= n < MAX_STEP_ATTEMPTS && whole.failed
    requires var rest := RunAttempts(step, own, cfg, n + 1);
             whole == Attempt(rest.store, kinds + rest.kinds, rest.failed)
    ensures OnTrack(step, cfg, whole, Retrying(n, kinds), own, store)
  {
  }

  lemma EndedOnTrack(step: Step, cfg: Config, whole: Attempt, kinds: seq<string>, a: Attempt, store: Store)
    requires whole == Attempt(a.store, kinds, a.failed)
    ensures OnTrack(step, cfg, whole, Ended(kinds, a.failed), a.store, store)
  {
  }

  /** After an attempt that fails and may be retried, the step fails. */
  lemma AttemptFails(step: Step, own: Store, cfg: Config, n: nat)
    requires 1 <= n < MAX_STEP_ATTEMPTS && Retryable(step, cfg, n) && RunEffects(step.effects, own, cfg).failed
    ensures RunAttempts(step, own, cfg, n).failed
  {
    hide RunEffects, RunAttempts, RaisesFirst, Within;
    var k := |RunEffects(step.effects, own, cfg).kinds| - 1;
    AttemptIs(step.effects, own, cfg);
    WithinItself(step.effects, k, own);
    TriedMore(step, cfg, n);
    AttemptsBound(step, own, own, cfg, k, n);
  }

  lemma TriedMore(step: Step, cfg: Config, n: nat)
    requires 1 <= n < MAX_STEP_ATTEMPTS && Retryable(step, cfg, n)
    ensures n < TimesTried(step.effects, cfg.retry)
  {
    var b := Budget(0, 0, cfg.retry, None);
    assert forall j :: 1 <= j <= n ==> !Stops(b, j);
    assert Stops(b, LastAttempt(b, 1));
  }

  lemma OneMoreAttempt(step: Step, own: Store, cfg: Config, n: nat)
    requires 1 <= n <= MAX_STEP_ATTEMPTS
    ensures var a := RunEffects(step.effects, own, cfg);
            if !a.failed || !Retryable(step, cfg, n) then RunAttempts(step, own, cfg, n) == a
            else n < MAX_STEP_ATTEMPTS
                 && var rest := RunAttempts(step, a.store, cfg, n + 1);
                    RunAttempts(step, own, cfg, n) == Attempt(rest.store, a.kinds + rest.kinds, rest.failed)
  {
    hide RunEffects;
  }

  lemma RetryIsBounded(step: Step, cfg: Config, n: nat)
    requires Retryable(step, cfg, n)
    ensures n < MAX_STEP_ATTEMPTS
  {
  }

  lemma OwnIsBound(steps: seq<Step>, store: Store, b: Store, own: seq<Store>, i: nat)
    requires Binds(steps, store, b, own) && i < |own|
    ensures forall e :: Bound(e) in own[i] ==> Bound(e) in b
  {
  }

  lemma AdvanceTracks(steps: seq<Step>, cfg: Config, store: Store, b: Block, own: seq<Store>, i: nat)
    returns (after: seq<Store>)
    requires cfg.timeout.None? && Untangled(steps) && Tracks(steps, cfg, store, b, own)
    ensures Tracks(steps, cfg, store, Advance(steps, cfg, b, i), after)
  {
    after := own;
    if i < |steps| && !b.tasks[i].Ended? {
      OwnIsBound(steps, store, b.store, own, i);
      hide RunEffects, Shares, Untangled, OnTrack, RunAttempts, Unwritten, BackoffMs, AttemptCost, Retryable, Binds;
      AttemptShares(steps, cfg, b.store, own, i);
      var mine := RunEffects(steps[i].effects, own[i], cfg).store;
      after := own[i := mine];
      BoundStays(steps[i].effects, own[i], cfg);
      BindsNext(steps, store, b.store, RunEffects(steps[i].effects, b.store, cfg).store, own, i, mine);
      var next := AdvanceOnTrack(steps[i], cfg, Alone(steps, store, cfg, i), b.tasks[i], own[i], store);
      assert Advance(steps, cfg, b, i).tasks == b.tasks[i := next];
    }
  }

  lemma {:induction false} BlockTracks(steps: seq<Step>, cfg: Config, store: Store, now: nat, schedule: seq<nat>)
    returns (own: seq<Store>)
    requires cfg.timeout.None? && Untangled(steps)
    ensures Tracks(steps, cfg, store, RunBlock(steps, cfg, store, now, schedule), own)
    decreases |schedule|
  {
    hide Tracks, Untangled, Advance;
    if schedule == [] {
      StartTracks(steps, cfg, store, now);
      own := seq(|steps|, _ => store);
    } else {
      var last := |schedule| - 1;
      var before := BlockTracks(steps, cfg, store, now, schedule[..last]);
      own := AdvanceTracks(steps, cfg, store, RunBlock(steps, cfg, store, now, schedule[..last]), before,
                           schedule[last]);
    }
  }

  // ---- No step fails -------------------------------------------------------------------

  predicate Calm(steps: seq<Step>, store: Store, cfg: Config) {
    Untangled(steps) && forall i :: 0 <= i < |steps| ==> !RunEffects(steps[i].effects, store, cfg).failed
  }

  /** The steps in written order, one after the other. */
  function SerialStore(steps: seq<Step>, store: Store, cfg: Config): Store
    decreases steps
  {
    if steps == [] then store else SerialStore(steps[1..], RunEffects(steps[0].effects, store, cfg).store, cfg)
  }

  function AllSpans(steps: seq<Step>): seq<Span> {
    if steps == [] then [] else [Span(steps[0].name, Kinds(steps[0].effects))] + AllSpans(steps[1..])
  }

  /** What the steps make of the store together, each from the store they all start at. */
  ghost predicate Merges(steps: seq<Step>, cfg: Config, before: Store, after: Store) {
    && (forall i, c :: 0 <= i < |steps| && c in Written(steps[i].effects) ==>
          (c in after <==> c in RunEffects(steps[i].effects, before, cfg).store))
    && (forall c :: Unwritten(steps, c) ==> (c in after <==> c in before))
  }

  /** A step that does not fail binds what it may bind. */
  lemma CalmBinds(step: Step, store: Store, cfg: Config, e: string)
    requires !RunEffects(step.effects, store, cfg).failed
    ensures Bound(e) in RunEffects(step.effects, store, cfg).store
       <==> Bound(e) in store || Bound(e) in Written(step.effects)
  {
    hide RunEffects, Written, ReadAmong;
    BindsWhatItReads(step.effects, store, cfg, e);
    ReadIsWritten(step.effects, e);
  }

  lemma MergeIsUnique(steps: seq<Step>, cfg: Config, before: Store, a: Store, b: Store)
    requires Merges(steps, cfg, before, a) && Merges(steps, cfg, before, b)
    ensures a == b
  {
    forall e ensures e in a <==> e in b {
      if !Unwritten(steps, e) {
        var i :| 0 <= i < |steps| && e in Written(steps[i].effects);
      }
    }
  }

  /** The steps after the first meet a store that is the same to them. */
  lemma CalmTail(steps: seq<Step>, store: Store, cfg: Config)
    requires steps != [] && Calm(steps, store, cfg)
    ensures var next := RunEffects(steps[0].effects, store, cfg).store;
            && Calm(steps[1..], next, cfg)
            && forall i, e :: 0 < i < |steps| && e in Touched(steps[i].effects) ==>
                 (e in RunEffects(steps[i].effects, next, cfg).store
                  <==> e in RunEffects(steps[i].effects, store, cfg).store)
  {
    hide RunEffects, Written, Touched;
    var next := RunEffects(steps[0].effects, store, cfg).store;
    OnlyWritten(steps[0].effects, store, cfg);
    forall i | 0 < i < |steps|
      ensures !RunEffects(steps[i].effects, next, cfg).failed
      ensures forall e :: e in Touched(steps[i].effects) ==>
                (e in RunEffects(steps[i].effects, next, cfg).store
                 <==> e in RunEffects(steps[i].effects, store, cfg).store)
    {
      assert Written(steps[0].effects) !! Touched(steps[i].effects);
      SameOnTouched(steps[i].effects, next, store, cfg);
    }
    assert forall i :: 0 <= i < |steps| - 1 ==> steps[1..][i] == steps[i + 1];
  }

  lemma {:induction false} SerialMerges(steps: seq<Step>, store: Store, cfg: Config)
    requires Calm(steps, store, cfg)
    ensures Merges(steps, cfg, store, SerialStore(steps, store, cfg))
  {
    if steps != [] {
      hide RunEffects, Written, Touched, Calm;
      var next, rest := RunEffects(steps[0].effects, store, cfg).store, steps[1..];
      CalmTail(steps, store, cfg);
      SerialMerges(rest, next, cfg);
      OnlyWritten(steps[0].effects, store, cfg);
      var after := SerialStore(steps, store, cfg);
      forall i, c | 0 <= i < |steps| && c in Written(steps[i].effects)
        ensures c in after <==> c in RunEffects(steps[i].effects, store, cfg).store
      {
        if c.Row? {
          WrittenRowMerges(steps, store, cfg, i, c, after);
        } else {
          BoundMerges(steps, store, cfg, i, c.entity, after);
        }
      }
      forall c | Unwritten(steps, c) ensures c in after <==> c in store {
        assert c !in Written(steps[0].effects);
        assert Unwritten(rest, c) by { assert forall i :: 0 <= i < |rest| ==> rest[i] == steps[i + 1]; }
      }
    }
  }

  lemma WrittenRowMerges(steps: seq<Step>, store: Store, cfg: Config, i: nat, c: Cell, after: Store)
    requires i < |steps| && Calm(steps, store, cfg) && c in Written(steps[i].effects) && c.Row?
    requires Merges(steps[1..], cfg, RunEffects(steps[0].effects, store, cfg).store, after)
    ensures c in after <==> c in RunEffects(steps[i].effects, store, cfg).store
  {
    hide RunEffects, Written, Touched, Calm;
    CalmTail(steps, store, cfg);
    WrittenRowIsTouched(steps[i].effects, c);
    if i > 0 {
      assert steps[1..][i - 1] == steps[i];
    } else {
      WrittenOnce(steps, c) by { CalmIsUntangled(steps, store, cfg); }
    }
  }

  lemma CalmIsUntangled(steps: seq<Step>, store: Store, cfg: Config)
    requires Calm(steps, store, cfg)
    ensures Untangled(steps) && forall i :: 0 <= i < |steps| ==> !RunEffects(steps[i].effects, store, cfg).failed
  {
  }

  lemma BoundMerges(steps: seq<Step>, store: Store, cfg: Config, i: nat, e: string, after: Store)
    requires i < |steps| && Calm(steps, store, cfg) && Bound(e) in Written(steps[i].effects)
    requires Merges(steps[1..], cfg, RunEffects(steps[0].effects, store, cfg).store, after)
    ensures Bound(e) in after && Bound(e) in RunEffects(steps[i].effects, store, cfg).store
  {
    hide RunEffects, Written, Touched, Calm;
    var next, rest := RunEffects(steps[0].effects, store, cfg).store, steps[1..];
    CalmTail(steps, store, cfg);
    CalmIsUntangled(steps, store, cfg);
    CalmIsUntangled(rest, next, cfg);
    CalmBinds(steps[i], store, cfg, e);
    CalmBinds(steps[0], store, cfg, e);
    if i > 0 {
      assert rest[i - 1] == steps[i];
      CalmBinds(rest[i - 1], next, cfg, e);
    } else if !Unwritten(rest, Bound(e)) {
      var j :| 0 <= j < |rest| && Bound(e) in Written(rest[j].effects);
      CalmBinds(rest[j], next, cfg, e);
    }
  }

  lemma WrittenOnce(steps: seq<Step>, c: Cell)
    requires steps != [] && c in Written(steps[0].effects) && c.Row? && Untangled(steps)
    ensures Unwritten(steps[1..], c)
  {
    forall i | 0 <= i < |steps| - 1 ensures c !in Written(steps[1..][i].effects) {
      assert steps[1..][i] == steps[i + 1];
      if c in Written(steps[i + 1].effects) {
        WrittenRowIsTouched(steps[i + 1].effects, c);
      }
      assert Written(steps[0].effects) !! Touched(steps[i + 1].effects);
    }
  }

  lemma TrackedMerges(steps: seq<Step>, store: Store, cfg: Config, b: Block, own: seq<Store>)
    requires Calm(steps, store, cfg) && Tracks(steps, cfg, store, b, own)
    requires forall i :: 0 <= i < |steps| ==> b.tasks[i].Ended?
    ensures Merges(steps, cfg, store, b.store)
    ensures forall i :: 0 <= i < |steps| ==> b.tasks[i] == Ended(Kinds(steps[i].effects), false)
  {
    hide RunEffects, Written, Touched, Untangled;
    forall i | 0 <= i < |steps|
      ensures own[i] == RunEffects(steps[i].effects, store, cfg).store
              && b.tasks[i] == Ended(Kinds(steps[i].effects), false)
    {
      assert OnTrack(steps[i], cfg, Alone(steps, store, cfg, i), b.tasks[i], own[i], store);
      assert !RunEffects(steps[i].effects, store, cfg).failed;
    }
    forall i, c | 0 <= i < |steps| && c in Written(steps[i].effects)
      ensures c in b.store <==> c in RunEffects(steps[i].effects, store, cfg).store
    {
      if c.Row? {
        WrittenRowIsTouched(steps[i].effects, c);
      } else {
        assert !RunEffects(steps[i].effects, store, cfg).failed;
        CalmBinds(steps[i], store, cfg, c.entity);
        assert c in own[i];
      }
    }
  }

  lemma {:induction false} SpansOfEnded(steps: seq<Step>, tasks: seq<Task>)
    requires |steps| == |tasks| && forall i :: 0 <= i < |steps| ==> tasks[i] == Ended(Kinds(steps[i].effects), false)
    ensures BlockSpans(steps, tasks) == AllSpans(steps) && !AnyFails(tasks)
  {
    if steps != [] {
      SpansOfEnded(steps[1..], tasks[1..]);
    }
  }

  /** A settled block of which no step fails is its steps in written order, whatever the schedule. */
  lemma CalmBlockIsSerial(steps: seq<Step>, cfg: Config, store: Store, now: nat, schedule: seq<nat>)
    requires cfg.timeout.None? && Calm(steps, store, cfg)
    requires Settled(RunBlock(steps, cfg, store, now, schedule).tasks)
    ensures var b := RunBlock(steps, cfg, store, now, schedule);
            b.store == SerialStore(steps, store, cfg) && BlockSpans(steps, b.tasks) == AllSpans(steps)
                && !AnyFails(b.tasks)
  {
    hide RunEffects, RunBlock, Merges, Untangled, Shares;
    var b := RunBlock(steps, cfg, store, now, schedule);
    var own := BlockTracks(steps, cfg, store, now, schedule);
    forall i | 0 <= i < |steps| ensures b.tasks[i].Ended? ==> !b.tasks[i].failed {
      FirstDecides(steps[i], store, cfg);
      assert OnTrack(steps[i], cfg, Alone(steps, store, cfg, i), b.tasks[i], own[i], store);
    }
    TrackedMerges(steps, store, cfg, b, own);
    SerialMerges(steps, store, cfg);
    MergeIsUnique(steps, cfg, store, b.store, SerialStore(steps, store, cfg));
    SpansOfEnded(steps, b.tasks);
  }

  // ---- A step fails --------------------------------------------------------------------

  /** The steps in written order, each under its retries, up to the first that fails. */
  function SerialSpans(steps: seq<Step>, store: Store, cfg: Config): seq<Span>
    decreases steps
  {
    if steps == [] then []
    else
      var a := RunAttempts(steps[0], store, cfg, 1);
      [Span(steps[0].name, a.kinds)] + if a.failed then [] else SerialSpans(steps[1..], a.store, cfg)
  }

  function SpansUpTo(steps: seq<Step>, store: Store, cfg: Config, n: nat): seq<Span>
    requires n <= |steps|
  {
    if n == 0 then []
    else SpansUpTo(steps, store, cfg, n - 1) + [Span(steps[n - 1].name, Alone(steps, store, cfg, n - 1).kinds)]
  }

  predicate FailsFirst(steps: seq<Step>, store: Store, cfg: Config, f: nat)
    requires f < |steps|
  {
    Alone(steps, store, cfg, f).failed && forall i :: 0 <= i < f ==> !Alone(steps, store, cfg, i).failed
  }

  lemma {:induction false} SameAttempts(step: Step, a: Store, b: Store, cfg: Config, n: nat)
    requires 1 <= n <= MAX_STEP_ATTEMPTS && forall e :: e in Touched(step.effects) ==> (e in a <==> e in b)
    ensures var x, y := RunAttempts(step, a, cfg, n), RunAttempts(step, b, cfg, n);
            x.kinds == y.kinds && x.failed == y.failed
    decreases MAX_STEP_ATTEMPTS - n
  {
    hide RunEffects, Touched, Retryable;
    SameOnTouched(step.effects, a, b, cfg);
    if RunEffects(step.effects, a, cfg).failed && Retryable(step, cfg, n) {
      RetryIsBounded(step, cfg, n);
      SameAttempts(step, RunEffects(step.effects, a, cfg).store, RunEffects(step.effects, b, cfg).store, cfg, n + 1);
    }
  }

  lemma {:induction false} AttemptsWriteOnly(step: Step, store: Store, cfg: Config, n: nat)
    requires 1 <= n <= MAX_STEP_ATTEMPTS
    ensures Agree(RunAttempts(step, store, cfg, n).store, store, Written(step.effects))
    decreases MAX_STEP_ATTEMPTS - n
  {
    hide RunEffects, Written, Retryable;
    var a := RunEffects(step.effects, store, cfg);
    OnlyWritten(step.effects, store, cfg);
    if a.failed && Retryable(step, cfg, n) {
      RetryIsBounded(step, cfg, n);
      AttemptsWriteOnly(step, a.store, cfg, n + 1);
    }
  }

  lemma AloneAfterFirst(steps: seq<Step>, store: Store, cfg: Config)
    requires steps != [] && Untangled(steps)
    ensures var next := RunAttempts(steps[0], store, cfg, 1).store;
            forall i :: 0 < i < |steps| ==>
              && Alone(steps[1..], next, cfg, i - 1).kinds == Alone(steps, store, cfg, i).kinds
              && Alone(steps[1..], next, cfg, i - 1).failed == Alone(steps, store, cfg, i).failed
  {
    hide RunAttempts, Written, Touched;
    var next := RunAttempts(steps[0], store, cfg, 1).store;
    AttemptsWriteOnly(steps[0], store, cfg, 1);
    forall i | 0 < i < |steps|
      ensures Alone(steps[1..], next, cfg, i - 1).kinds == Alone(steps, store, cfg, i).kinds
      ensures Alone(steps[1..], next, cfg, i - 1).failed == Alone(steps, store, cfg, i).failed
    {
      assert Written(steps[0].effects) !! Touched(steps[i].effects);
      SameAttempts(steps[i], next, store, cfg, 1);
    }
  }

  lemma {:induction false} UpToFront(steps: seq<Step>, store: Store, next: Store, cfg: Config, n: nat)
    requires n < |steps|
    requires forall i :: 0 < i < |steps| ==>
               Alone(steps[1..], next, cfg, i - 1).kinds == Alone(steps, store, cfg, i).kinds
    ensures SpansUpTo(steps, store, cfg, n + 1)
         == [Span(steps[0].name, Alone(steps, store, cfg, 0).kinds)] + SpansUpTo(steps[1..], next, cfg, n)
  {
    hide Alone;
    if n > 0 {
      UpToFront(steps, store, next, cfg, n - 1);
    }
  }

  /** In written order each step of an untangled block does what it does alone. */
  lemma {:induction false} SerialIsAlone(steps: seq<Step>, store: Store, cfg: Config, f: nat)
    requires f < |steps| && Untangled(steps) && FailsFirst(steps, store, cfg, f)
    ensures SerialSpans(steps, store, cfg) == SpansUpTo(steps, store, cfg, f + 1)
  {
    hide RunAttempts, Untangled;
    var a, rest := RunAttempts(steps[0], store, cfg, 1), steps[1..];
    AloneAfterFirst(steps, store, cfg);
    UpToFront(steps, store, a.store, cfg, f);
    assert Alone(steps, store, cfg, 0) == a;
    if f > 0 {
      assert Untangled(rest) by { TailUntangled(steps); }
      assert forall i :: 0 <= i < f ==> Alone(rest, a.store, cfg, i).failed == Alone(steps, store, cfg, i + 1).failed;
      SerialIsAlone(rest, a.store, cfg, f - 1);
    }
  }

  lemma TailUntangled(steps: seq<Step>)
    requires steps != [] && Untangled(steps)
    ensures Untangled(steps[1..])
  {
  }

  /** A task that started and is over did what its step does alone; one that waits for a retry
      belongs to a step that fails. */
  lemma StartedAlone(steps: seq<Step>, cfg: Config, store: Store, b: Block, own: seq<Store>, i: nat)
    requires i < |steps| && Tracks(steps, cfg, store, b, own)
    ensures b.tasks[i].Ended? ==> b.tasks[i].kinds == Alone(steps, store, cfg, i).kinds
                                  && b.tasks[i].failed == Alone(steps, store, cfg, i).failed
    ensures b.tasks[i].Retrying? ==> Alone(steps, store, cfg, i).failed
  {
    hide RunAttempts, Shares, Unwritten;
    assert OnTrack(steps[i], cfg, Alone(steps, store, cfg, i), b.tasks[i], own[i], store);
  }

  lemma {:induction false} StartedSpans(steps: seq<Step>, tasks: seq<Task>, store: Store, cfg: Config, n: nat)
    requires n <= |steps| == |tasks|
    requires forall i :: 0 <= i < n ==> tasks[i].Ended? && tasks[i].kinds == Alone(steps, store, cfg, i).kinds
    requires forall i :: n <= i < |steps| ==> tasks[i].Waiting?
    ensures BlockSpans(steps, tasks) == SpansUpTo(steps, store, cfg, n)
    decreases steps
  {
    hide RunAttempts;
    if steps != [] {
      var rest, others := steps[1..], tasks[1..];
      assert forall i :: 0 <= i < |rest| ==> rest[i] == steps[i + 1] && others[i] == tasks[i + 1];
      assert forall i :: 0 < i < |steps| ==> Alone(rest, store, cfg, i - 1) == Alone(steps, store, cfg, i);
      StartedSpans(rest, others, store, cfg, if n == 0 then 0 else n - 1);
      if n > 0 {
        UpToFront(steps, store, store, cfg, n - 1);
      }
    }
  }

  lemma {:induction false} UpToLength(steps: seq<Step>, store: Store, cfg: Config, n: nat)
    requires n <= |steps|
    ensures |SpansUpTo(steps, store, cfg, n)| == n
  {
    hide Alone;
    if n > 0 {
      UpToLength(steps, store, cfg, n - 1);
    }
  }

  lemma {:induction false} SpansOfPrefix(steps: seq<Step>, tasks: seq<Task>, n: nat)
    requires n <= |steps| == |tasks| && forall i :: 0 <= i < |steps| ==> (tasks[i].Waiting? <==> i >= n)
    ensures |BlockSpans(steps, tasks)| == n
  {
    if steps != [] {
      assert forall i :: 0 <= i < |steps| - 1 ==> tasks[1..][i] == tasks[i + 1];
      SpansOfPrefix(steps[1..], tasks[1..], if n == 0 then 0 else n - 1);
    }
  }

  /** Without a deadline a step has started exactly if the schedule has it. */
  lemma {:induction false} StartedExactly(steps: seq<Step>, cfg: Config, b: Block, schedule: seq<nat>, i: nat)
    requires cfg.timeout.None? && |b.tasks| == |steps| && i < |steps|
    ensures Scheduled(steps, cfg, b, schedule).tasks[i].Waiting? <==> b.tasks[i].Waiting? && i !in schedule
    decreases |schedule|
  {
    if schedule != [] {
      hide RunEffects, BackoffMs, AttemptCost, Retryable;
      var last := |schedule| - 1;
      StartedExactly(steps, cfg, b, schedule[..last], i);
      assert schedule == schedule[..last] + [schedule[last]];
    }
  }

  /** The pool starts the steps in the order they are written: a schedule that has a step has those
      before it, in whatever order their attempts get the lock. */
  predicate Orderly(schedule: seq<nat>, n: nat) {
    forall i, j :: 0 <= i < j < n && j in schedule ==> i in schedule
  }

  /** How many steps an orderly schedule starts. */
  lemma {:induction false} StartsPrefix(schedule: seq<nat>, n: nat) returns (m: nat)
    requires Orderly(schedule, n)
    ensures m <= n && forall i :: 0 <= i < n ==> (i in schedule <==> i < m)
  {
    if n == 0 {
      m := 0;
    } else if n - 1 in schedule {
      m := n;
    } else {
      m := StartsPrefix(schedule, n - 1);
    }
  }

  lemma SettledFails(steps: seq<Step>, cfg: Config, store: Store, now: nat, schedule: seq<nat>, f: nat)
    requires cfg.timeout.None? && Untangled(steps) && f < |steps| && FailsFirst(steps, store, cfg, f)
    requires Settled(RunBlock(steps, cfg, store, now, schedule).tasks)
    ensures var b := RunBlock(steps, cfg, store, now, schedule);
            && AnyFails(b.tasks)
            && (exists i :: f <= i < |steps| && b.tasks[i].Ended? && b.tasks[i].failed)
            && forall i :: 0 <= i < |steps| ==>
                 && (b.tasks[i].Ended? ==> b.tasks[i].kinds == Alone(steps, store, cfg, i).kinds)
                 && (i < f ==> !b.tasks[i].Retrying?)
  {
    hide RunBlock, Untangled, Tracks, Alone;
    var b := RunBlock(steps, cfg, store, now, schedule);
    var own := BlockTracks(steps, cfg, store, now, schedule);
    forall i | 0 <= i < |steps|
      ensures b.tasks[i].Ended? ==> b.tasks[i].kinds == Alone(steps, store, cfg, i).kinds
                                    && b.tasks[i].failed == Alone(steps, store, cfg, i).failed
      ensures b.tasks[i].Retrying? ==> Alone(steps, store, cfg, i).failed
    {
      StartedAlone(steps, cfg, store, b, own, i);
    }
    if forall i :: 0 <= i < |steps| ==> b.tasks[i].Ended? {
      assert b.tasks[f].Ended? && b.tasks[f].failed && Fails(b.tasks[f]);
    } else {
      var i :| 0 <= i < |steps| && b.tasks[i].Ended? && b.tasks[i].failed;
      assert Fails(b.tasks[i]) && i >= f;
    }
  }

  /** A settled block with a failing step fails, and leaves the spans of its steps in written order if
      and only if nothing written after the first step that fails was started. */
  lemma FailingBlockExactly(steps: seq<Step>, cfg: Config, store: Store, now: nat, schedule: seq<nat>, f: nat)
    requires cfg.timeout.None? && Untangled(steps) && Orderly(schedule, |steps|)
    requires f < |steps| && FailsFirst(steps, store, cfg, f)
    requires Settled(RunBlock(steps, cfg, store, now, schedule).tasks)
    ensures var b := RunBlock(steps, cfg, store, now, schedule);
            && AnyFails(b.tasks) && |SerialSpans(steps, store, cfg)| == f + 1
            && if f + 1 < |steps| && f + 1 in schedule
               then |BlockSpans(steps, b.tasks)| > f + 1
               else BlockSpans(steps, b.tasks) == SerialSpans(steps, store, cfg)
  {
    hide Untangled, Alone, BlockSpans, SerialSpans, SpansUpTo, Scheduled, FailsFirst, Orderly;
    var b := RunBlock(steps, cfg, store, now, schedule);
    SettledFails(steps, cfg, store, now, schedule, f);
    SerialIsAlone(steps, store, cfg, f);
    UpToLength(steps, store, cfg, f + 1);
    var m := StartsPrefix(schedule, |steps|);
    forall i | 0 <= i < |steps| ensures b.tasks[i].Waiting? <==> i >= m {
      StartedExactly(steps, cfg, Submitted(steps, store, now), schedule, i);
    }
    SpansOfPrefix(steps, b.tasks, m);
    if m <= f + 1 {
      var i :| f <= i < |steps| && b.tasks[i].Ended? && b.tasks[i].failed;
      assert i == f && m == f + 1;
      StartedSpans(steps, b.tasks, store, cfg, f + 1);
    }
  }

  // ---- Every schedule ------------------------------------------------------------------

  function UpTo(n: nat): seq<nat> {
    seq(n, i requires 0 <= i < n => i)
  }

  lemma {:induction false} ScheduledConcat(steps: seq<Step>, cfg: Config, b: Block, x: seq<nat>, y: seq<nat>)
    requires |b.tasks| == |steps|
    ensures Scheduled(steps, cfg, b, x + y) == Scheduled(steps, cfg, Scheduled(steps, cfg, b, x), y)
    decreases |y|
  {
    hide Advance;
    if y == [] {
      assert x + y == x;
    } else {
      assert (x + y)[..|x + y| - 1] == x + y[..|y| - 1];
      ScheduledConcat(steps, cfg, b, x, y[..|y| - 1]);
    }
  }

  lemma {:induction false} StaysBounded(steps: seq<Step>, cfg: Config, b: Block, schedule: seq<nat>)
    requires |b.tasks| == |steps| && Bounded(b.tasks)
    ensures Bounded(Scheduled(steps, cfg, b, schedule).tasks)
    decreases |schedule|
  {
    if schedule != [] {
      hide RunEffects, BackoffMs, AttemptCost;
      StaysBounded(steps, cfg, b, schedule[..|schedule| - 1]);
    }
  }

  /** An orderly schedule that starts every step and settles the block. */
  lemma EagerSchedule(steps: seq<Step>, cfg: Config, store: Store, now: nat) returns (schedule: seq<nat>)
    ensures Orderly(schedule, |steps|) && forall i :: 0 <= i < |steps| ==> i in schedule
    ensures Settled(RunBlock(steps, cfg, store, now, schedule).tasks)
  {
    hide Scheduled, Settled, Bounded;
    var b := Submitted(steps, store, now);
    assert Bounded(b.tasks) by { StartsBounded(steps, store, now); }
    StaysBounded(steps, cfg, b, UpTo(|steps|));
    var rest := CanSettle(steps, cfg, Scheduled(steps, cfg, b, UpTo(|steps|)));
    ScheduledConcat(steps, cfg, b, UpTo(|steps|), rest);
    schedule := UpTo(|steps|) + rest;
    forall i | 0 <= i < |steps| ensures i in schedule {
      assert schedule[i] == i;
    }
  }

  lemma StartsBounded(steps: seq<Step>, store: Store, now: nat)
    ensures Bounded(Submitted(steps, store, now).tasks)
  {
  }

  /** However the block is scheduled it leaves the spans of the written order, if and only if the first
      step that fails is the last. */
  lemma EveryScheduleAgreesExactly(steps: seq<Step>, cfg: Config, store: Store, now: nat, f: nat)
    requires cfg.timeout.None? && Untangled(steps) && f < |steps| && FailsFirst(steps, store, cfg, f)
    ensures (forall schedule ::
               Orderly(schedule, |steps|) && Settled(RunBlock(steps, cfg, store, now, schedule).tasks) ==>
                 BlockSpans(steps, RunBlock(steps, cfg, store, now, schedule).tasks) == SerialSpans(steps, store, cfg))
       <==> f + 1 == |steps|
  {
    hide Untangled, BlockSpans, SerialSpans, RunBlock, FailsFirst, Orderly, Settled;
    var eager := EagerSchedule(steps, cfg, store, now);
    FailingBlockExactly(steps, cfg, store, now, eager, f);
    forall schedule | Orderly(schedule, |steps|) && Settled(RunBlock(steps, cfg, store, now, schedule).tasks)
      ensures f + 1 == |steps| ==>
                BlockSpans(steps, RunBlock(steps, cfg, store, now, schedule).tasks) == SerialSpans(steps, store, cfg)
    {
      FailingBlockExactly(steps, cfg, store, now, schedule, f);
    }
  }
}
