/** The trace a failing step leaves: one copy of the failing prefix per attempt, exactly if the
    step is attempted once or the prefix takes away no row it asked for. Later attempts start from
    what the attempts before them wrote; idempotent effects only take rows away, so a later attempt
    never gets further than the first. */
module RetryTrace {
  import opened Wrappers
  import opened Text
  import opened Workflow
  import opened Flattening
  import opened Attempts
  import opened Footprint
  import opened Retry

  /** How often a step whose first attempt fails is attempted when no deadline interferes. */
  function TimesTried(effects: seq<Effect>, retry: int): (n: nat)
    ensures 1 <= n <= MAX_STEP_ATTEMPTS
  {
    if retry <= 0 || !AllIdempotent(effects) then 1 else LastAttempt(Budget(0, 0, retry, None), 1)
  }

  lemma MoreAttempts(step: Step, cfg: Config, n: nat)
    requires 1 <= n <= TimesTried(step.effects, cfg.retry)
    ensures Retryable(step, cfg, n) <==> n < TimesTried(step.effects, cfg.retry)
  {
    var b := Budget(0, 0, cfg.retry, None);
    assert Stops(b, n) <==> n >= MAX_STEP_ATTEMPTS || n > cfg.retry;
  }

  lemma {:induction false} KindsPrefix(effects: seq<Effect>, n: nat)
    requires 0 < n <= |effects|
    ensures Kinds(effects[..n]) == [effects[0].Kind()] + Kinds(effects[1..][..n - 1])
  {
    assert effects[..n][1..] == effects[1..][..n - 1] && effects[..n][0] == effects[0];
  }

  /** A failing attempt records the effects up to and including the one that raises. */
  lemma {:induction false} FailingPrefix(effects: seq<Effect>, store: Store, cfg: Config)
    requires RunEffects(effects, store, cfg).failed
    ensures var a := RunEffects(effects, store, cfg); a.kinds == Kinds(effects[..|a.kinds|])
  {
    hide After;
    KindsPrefix(effects, |RunEffects(effects, store, cfg).kinds|);
    if Raises(effects[0], store, cfg) {
      assert effects[1..][..0] == [];
    } else {
      FailingPrefix(effects[1..], After(effects[0], store), cfg);
    }
  }

  // ---- The store along an attempt ------------------------------------------------------

  /** What the first `k` effects make of the store. */
  function StoreAt(effects: seq<Effect>, store: Store, k: nat): Store
    requires k <= |effects|
  {
    if k == 0 then store else After(effects[k - 1], StoreAt(effects, store, k - 1))
  }

  lemma {:induction false} StoreAtFront(effects: seq<Effect>, store: Store, k: nat)
    requires k < |effects|
    ensures StoreAt(effects, store, k + 1) == StoreAt(effects[1..], After(effects[0], store), k)
  {
    hide After;
    if k > 0 {
      StoreAtFront(effects, store, k - 1);
    }
  }

  /** Effect `k` raises, and none before it does. */
  predicate RaisesFirst(effects: seq<Effect>, store: Store, cfg: Config, k: nat)
    requires k < |effects|
  {
    && Raises(effects[k], StoreAt(effects, store, k), cfg)
    && forall j :: 0 <= j < k ==> !Raises(effects[j], StoreAt(effects, store, j), cfg)
  }

  lemma {:induction false} AttemptIs(effects: seq<Effect>, store: Store, cfg: Config)
    ensures var a := RunEffects(effects, store, cfg);
            if a.failed then RaisesFirst(effects, store, cfg, |a.kinds| - 1)
                && a.store == StoreAt(effects, store, |a.kinds| - 1)
            else forall j :: 0 <= j < |effects| ==> !Raises(effects[j], StoreAt(effects, store, j), cfg)
  {
    if effects != [] && !Raises(effects[0], store, cfg) {
      var next := After(effects[0], store);
      AttemptIs(effects[1..], next, cfg);
      assert StoreAt(effects, store, 0) == store;
      hide Raises, After, StoreAt;
      forall j | 0 <= j < |effects| - 1 ensures StoreAt(effects, store, j + 1) == StoreAt(effects[1..], next, j) {
        StoreAtFront(effects, store, j);
      }
      var a := RunEffects(effects, store, cfg);
      forall j | 0 < j < (if a.failed then |a.kinds| - 1 else |effects|)
        ensures !Raises(effects[j], StoreAt(effects, store, j), cfg)
      {
        assert effects[j] == effects[1..][j - 1];
      }
    }
  }

  lemma FailsAt(effects: seq<Effect>, store: Store, cfg: Config, k: nat)
    requires k < |effects| && Raises(effects[k], StoreAt(effects, store, k), cfg)
    ensures RunEffects(effects, store, cfg).failed && |RunEffects(effects, store, cfg).kinds| <= k + 1
    ensures RaisesFirst(effects, store, cfg, k) ==> |RunEffects(effects, store, cfg).kinds| == k + 1
  {
    hide Raises, StoreAt;
    AttemptIs(effects, store, cfg);
  }

  /** The last of the first `k` effects that writes `e`: whether it leaves it there. */
  function LastWrite(effects: seq<Effect>, k: nat, e: Cell): Option<bool>
    requires k <= |effects|
  {
    if k == 0 then None
    else if e in Writes(effects[k - 1]) then Some(!effects[k - 1].RepositoryCall? || !effects[k - 1].op.Delete?)
    else LastWrite(effects, k - 1, e)
  }

  lemma {:induction false} RowAt(effects: seq<Effect>, store: Store, k: nat, e: Cell)
    requires k <= |effects|
    ensures var last := LastWrite(effects, k, e);
            e in StoreAt(effects, store, k) <==> if last.Some? then last.value else e in store
  {
    if k > 0 {
      RowAt(effects, store, k - 1, e);
    }
  }

  /** A row the first `k` effects ask for before they write it, and leave deleted. */
  predicate Lost(effects: seq<Effect>, k: nat, j: nat, e: Cell)
    requires k <= |effects|
  {
    j < k && Asks(effects[j], e) && LastWrite(effects, j, e).None? && LastWrite(effects, k, e) == Some(false)
  }

  ghost predicate LosesRow(effects: seq<Effect>, k: nat)
    requires k <= |effects|
  {
    exists j, e :: Lost(effects, k, j, e)
  }

  /** The first `n` effects delete nothing. */
  predicate NoDelete(effects: seq<Effect>, n: nat)
    requires n <= |effects|
  {
    forall j :: 0 <= j < n ==> !(effects[j].RepositoryCall? && effects[j].op.Delete?)
  }

  lemma {:induction false} WithoutDelete(effects: seq<Effect>, n: nat, k: nat, e: Cell)
    requires k <= n <= |effects| && NoDelete(effects, n)
    ensures LastWrite(effects, k, e) != Some(false)
  {
    if k > 0 {
      WithoutDelete(effects, n, k - 1, e);
    }
  }

  lemma {:induction false} LastIsDelete(effects: seq<Effect>, k: nat, j: nat)
    requires j < k <= |effects| && effects[j].RepositoryCall? && effects[j].op.Delete?
    requires forall i :: 0 <= i < k ==>
               !effects[i].Assignment? && (effects[i].RepositoryCall? ==> !effects[i].op.Create?)
    ensures LastWrite(effects, k, Row(effects[j].entity)) == Some(false)
  {
    if j < k - 1 {
      LastIsDelete(effects, k - 1, j);
    }
  }

  // ---- The attempts after the first ----------------------------------------------------

  /** The stores a retry can start from: they differ from the first one in what the prefix writes. */
  ghost predicate Within(effects: seq<Effect>, k: nat, store: Store, other: Store)
    requires k <= |effects|
  {
    forall e :: LastWrite(effects, k, e).None? ==> (e in other <==> e in store)
  }

  lemma {:induction false} LongerWrites(effects: seq<Effect>, j: nat, k: nat, e: Cell)
    requires j <= k <= |effects| && LastWrite(effects, k, e).None?
    ensures LastWrite(effects, j, e).None?
  {
    if j < k {
      LongerWrites(effects, j, k - 1, e);
    }
  }

  lemma StaysWithin(effects: seq<Effect>, j: nat, k: nat, store: Store, other: Store)
    requires j <= k <= |effects| && Within(effects, k, store, other)
    ensures Within(effects, k, store, StoreAt(effects, other, j))
  {
    forall e | LastWrite(effects, k, e).None? ensures e in StoreAt(effects, other, j) <==> e in store {
      LongerWrites(effects, j, k, e);
      RowAt(effects, other, j, e);
    }
  }

  /** Whoever gets to effect `k` gets there with the same store. */
  lemma SameAtTheEnd(effects: seq<Effect>, k: nat, store: Store, other: Store)
    requires k <= |effects| && Within(effects, k, store, other)
    ensures StoreAt(effects, other, k) == StoreAt(effects, store, k)
  {
    forall e ensures e in StoreAt(effects, other, k) <==> e in StoreAt(effects, store, k) {
      RowAt(effects, other, k, e);
      RowAt(effects, store, k, e);
    }
  }

  /** A retry fails, and no later than the first attempt; the store it leaves is a retry's again. */
  lemma RetryFails(effects: seq<Effect>, store: Store, other: Store, cfg: Config, k: nat)
    requires k < |effects| && RaisesFirst(effects, store, cfg, k) && Within(effects, k, store, other)
    ensures var a := RunEffects(effects, other, cfg);
            a.failed && |a.kinds| <= k + 1 && Within(effects, k, store, a.store)
  {
    hide Raises, StoreAt, Within;
    SameAtTheEnd(effects, k, store, other);
    FailsAt(effects, other, cfg, k);
    AttemptIs(effects, other, cfg);
    StaysWithin(effects, |RunEffects(effects, other, cfg).kinds| - 1, k, store, other);
  }

  lemma WithinItself(effects: seq<Effect>, k: nat, store: Store)
    requires k <= |effects|
    ensures Within(effects, k, store, store) && Within(effects, k, store, StoreAt(effects, store, k))
  {
    StaysWithin(effects, k, k, store, store);
  }

  /** Retried from the store the first attempt leaves, the step fails sooner exactly if its prefix
      loses a row. */
  lemma SecondAttemptExactly(effects: seq<Effect>, store: Store, cfg: Config, k: nat)
    requires k < |effects| && RaisesFirst(effects, store, cfg, k) && AllIdempotent(effects)
    ensures var a := RunEffects(effects, StoreAt(effects, store, k), cfg);
            a.failed && |a.kinds| <= k + 1 && (|a.kinds| == k + 1 <==> !LosesRow(effects, k))
  {
    hide Raises, StoreAt, Within, LastWrite, AllIdempotent;
    var next := StoreAt(effects, store, k);
    WithinItself(effects, k, store);
    RetryFails(effects, store, next, cfg, k);
    AttemptIs(effects, next, cfg);
    var at := |RunEffects(effects, next, cfg).kinds| - 1;
    if LosesRow(effects, k) {
      var j, e :| Lost(effects, k, j, e);
      LostRowRaises(effects, store, cfg, k, j, e);
      FailsAt(effects, next, cfg, j);
    } else if at < k {
      KeptRowsDoNotRaise(effects, store, cfg, k, at);
    }
  }

  lemma LostRowRaises(effects: seq<Effect>, store: Store, cfg: Config, k: nat, j: nat, e: Cell)
    requires k < |effects| && Lost(effects, k, j, e) && AllIdempotent(effects)
    ensures Raises(effects[j], StoreAt(effects, StoreAt(effects, store, k), j), cfg)
  {
    var next := StoreAt(effects, store, k);
    RowAt(effects, store, k, e);
    RowAt(effects, next, j, e);
    assert Idempotent(effects[j]);
  }

  lemma KeptRowsDoNotRaise(effects: seq<Effect>, store: Store, cfg: Config, k: nat, at: nat)
    requires at < k < |effects| && RaisesFirst(effects, store, cfg, k) && AllIdempotent(effects)
             && !LosesRow(effects, k)
    ensures !Raises(effects[at], StoreAt(effects, StoreAt(effects, store, k), at), cfg)
  {
    var next := StoreAt(effects, store, k);
    var here, there := StoreAt(effects, store, at), StoreAt(effects, next, at);
    assert !Raises(effects[at], here, cfg) && Idempotent(effects[at]);
    forall e | Asks(effects[at], e) ensures e in there <==> e in here {
      AskedRowStays(effects, store, cfg, k, at, e);
    }
    hide Raises, StoreAt, RaisesFirst, AllIdempotent, LosesRow;
    RaisesAlike(effects[at], here, there, cfg);
  }

  lemma AskedRowStays(effects: seq<Effect>, store: Store, cfg: Config, k: nat, at: nat, e: Cell)
    requires at < k < |effects| && !Lost(effects, k, at, e) && Asks(effects[at], e) && Idempotent(effects[at])
    requires !Raises(effects[at], StoreAt(effects, store, at), cfg)
    ensures e in StoreAt(effects, StoreAt(effects, store, k), at) <==> e in StoreAt(effects, store, at)
  {
    hide StoreAt, LastWrite;
    RowAt(effects, store, at, e);
    RowAt(effects, store, k, e);
    RowAt(effects, StoreAt(effects, store, k), at, e);
    assert e in StoreAt(effects, store, at);
  }

  // ---- Main results --------------------------------------------------------------------

  lemma {:induction false} SameEveryTime(step: Step, store: Store, cfg: Config, n: nat)
    requires 1 <= n <= TimesTried(step.effects, cfg.retry)
    requires var a := RunEffects(step.effects, store, cfg);
             a.failed && (n < TimesTried(step.effects, cfg.retry) ==> a.store == store)
    ensures var a := RunEffects(step.effects, store, cfg);
            RunAttempts(step, store, cfg, n)
                == Attempt(a.store, Times(a.kinds, TimesTried(step.effects, cfg.retry) - n + 1), true)
    decreases TimesTried(step.effects, cfg.retry) - n
  {
    hide RunEffects, Retryable, TimesTried;
    var kinds := RunEffects(step.effects, store, cfg).kinds;
    MoreAttempts(step, cfg, n);
    if n < TimesTried(step.effects, cfg.retry) {
      SameEveryTime(step, store, cfg, n + 1);
      TimesFront(kinds, TimesTried(step.effects, cfg.retry) - n);
    } else {
      TimesOnce(kinds);
    }
  }

  /** Every further attempt fails, and leaves no longer a trace than the first. */
  lemma {:induction false} AttemptsBound(step: Step, store: Store, other: Store, cfg: Config, k: nat, n: nat)
    requires 1 <= n <= TimesTried(step.effects, cfg.retry)
    requires k < |step.effects| && RaisesFirst(step.effects, store, cfg, k) && Within(step.effects, k, store, other)
    ensures RunAttempts(step, other, cfg, n).failed
    ensures |RunAttempts(step, other, cfg, n).kinds| <= (TimesTried(step.effects, cfg.retry) - n + 1) * (k + 1)
    decreases TimesTried(step.effects, cfg.retry) - n
  {
    hide RunEffects, Retryable, TimesTried, RaisesFirst, Within;
    MoreAttempts(step, cfg, n);
    RetryFails(step.effects, store, other, cfg, k);
    var left := TimesTried(step.effects, cfg.retry) - n;
    if left > 0 {
      AttemptsBound(step, store, RunEffects(step.effects, other, cfg).store, cfg, k, n + 1);
      assert (left + 1) * (k + 1) == left * (k + 1) + (k + 1);
    } else {
      assert 1 * (k + 1) == k + 1;
    }
  }

  lemma {:induction false} TimesLength<T>(xs: seq<T>, n: nat)
    ensures |Times(xs, n)| == n * |xs|
  {
    if n > 0 {
      TimesLength(xs, n - 1);
      assert n * |xs| == (n - 1) * |xs| + |xs|;
    }
  }

  /** A lost row makes the second attempt fail sooner than the first. */
  lemma LostRowShortensTheTrace(step: Step, store: Store, cfg: Config, k: nat)
    requires k < |step.effects| && RaisesFirst(step.effects, store, cfg, k) && LosesRow(step.effects, k)
    requires AllIdempotent(step.effects) && TimesTried(step.effects, cfg.retry) > 1
    ensures |RunAttempts(step, StoreAt(step.effects, store, k), cfg, 2).kinds|
          < (TimesTried(step.effects, cfg.retry) - 1) * (k + 1)
  {
    hide RunEffects, Retryable, TimesTried, RaisesFirst, Within, LosesRow, AllIdempotent;
    var next := StoreAt(step.effects, store, k);
    var a := RunEffects(step.effects, next, cfg);
    var left := TimesTried(step.effects, cfg.retry) - 1;
    SecondAttemptExactly(step.effects, store, cfg, k);
    WithinItself(step.effects, k, store);
    RetryFails(step.effects, store, next, cfg, k);
    MoreAttempts(step, cfg, 2);
    if left > 1 {
      AttemptsBound(step, store, a.store, cfg, k, 3);
    }
    assert left * (k + 1) == (left - 1) * (k + 1) + (k + 1);
  }

  /** What the first attempt leaves to the others. */
  lemma FirstAttempt(step: Step, store: Store, cfg: Config)
    requires RunEffects(step.effects, store, cfg).failed && TimesTried(step.effects, cfg.retry) > 1
    ensures var a := RunEffects(step.effects, store, cfg);
            RunAttempts(step, store, cfg, 1).kinds == a.kinds + RunAttempts(step, a.store, cfg, 2).kinds
    ensures AllIdempotent(step.effects)
  {
    hide RunEffects, Retryable;
    MoreAttempts(step, cfg, 1);
  }

  lemma PrefixIsSame(effects: seq<Effect>, a: seq<string>, b: seq<string>, k: nat)
    requires k < |effects| && |a| == |b| == k + 1 && a == Kinds(effects[..|a|]) && b == Kinds(effects[..|b|])
    ensures a == b
  {
  }

  lemma TraceRepeats(step: Step, store: Store, cfg: Config, k: nat)
    requires k < |step.effects| && RaisesFirst(step.effects, store, cfg, k) && !LosesRow(step.effects, k)
    requires AllIdempotent(step.effects) && TimesTried(step.effects, cfg.retry) > 1
    requires RunEffects(step.effects, store, cfg).failed && |RunEffects(step.effects, store, cfg).kinds| == k + 1
    ensures RunAttempts(step, StoreAt(step.effects, store, k), cfg, 2).kinds
         == Times(RunEffects(step.effects, store, cfg).kinds, TimesTried(step.effects, cfg.retry) - 1)
  {
    hide RunEffects, Retryable, TimesTried, RaisesFirst, Within, LosesRow, AllIdempotent;
    var next := StoreAt(step.effects, store, k);
    SecondAttemptExactly(step.effects, store, cfg, k);
    AttemptIs(step.effects, next, cfg);
    WithinItself(step.effects, k, store);
    SameAtTheEnd(step.effects, k, store, next);
    FailingPrefix(step.effects, store, cfg);
    FailingPrefix(step.effects, next, cfg);
    PrefixIsSame(step.effects, RunEffects(step.effects, store, cfg).kinds, RunEffects(step.effects, next, cfg).kinds,
                 k);
    SameEveryTime(step, next, cfg, 2);
  }

  /** The retried trace is the failing prefix once per attempt if and only if there is one attempt
      or what comes before the failing effect loses no row it asks for. */
  lemma RetriedTraceExactly(step: Step, store: Store, cfg: Config)
    requires RunEffects(step.effects, store, cfg).failed
    ensures RunAttempts(step, store, cfg, 1).failed
    ensures (var a, n := RunEffects(step.effects, store, cfg), TimesTried(step.effects, cfg.retry);
             RunAttempts(step, store, cfg, 1).kinds == Times(a.kinds, n)
             <==> n == 1 || !LosesRow(step.effects, |a.kinds| - 1))
    ensures |RunAttempts(step, store, cfg, 1).kinds|
         <= TimesTried(step.effects, cfg.retry) * |RunEffects(step.effects, store, cfg).kinds|
  {
    hide RunEffects, RunAttempts, RaisesFirst, Within, LosesRow, AllIdempotent, StoreAt, TimesTried;
    var a, n := RunEffects(step.effects, store, cfg), TimesTried(step.effects, cfg.retry);
    var k := |a.kinds| - 1;
    AttemptIs(step.effects, store, cfg);
    WithinItself(step.effects, k, store);
    AttemptsBound(step, store, store, cfg, k, 1);
    TimesLength(a.kinds, n);
    if n == 1 {
      SameEveryTime(step, store, cfg, 1);
    } else {
      FirstAttempt(step, store, cfg);
      if LosesRow(step.effects, k) {
        LostRowShortensTheTrace(step, store, cfg, k);
        assert n * (k + 1) == (n - 1) * (k + 1) + (k + 1);
      } else {
        TraceRepeats(step, store, cfg, k);
        TimesFront(a.kinds, n - 1);
      }
    }
  }

  /** Deleting a row and then failing, twice: the second attempt fails at the delete. */
  lemma DeletedRowShortensTheTrace(id: string, name: string)
    ensures var step := Step(id, name, [RepositoryCall(Delete, "order"), Validation(true)]);
            var cfg := Config(true, true, 1, None, {});
            && RunEffects(step.effects, {Row("order")}, cfg).failed
            && RunAttempts(step, {Row("order")}, cfg, 1).kinds
               != Times(RunEffects(step.effects, {Row("order")}, cfg).kinds, TimesTried(step.effects, cfg.retry))
  {
    var step := Step(id, name, [RepositoryCall(Delete, "order"), Validation(true)]);
    var cfg, rows: Store := Config(true, true, 1, None, {}), {Row("order")};
    assert step.effects[1..] == [Validation(true)];
    assert RunEffects(step.effects[1..], After(step.effects[0], rows), cfg).kinds == ["Validation"];
    var a := RunEffects(step.effects, rows, cfg);
    assert a.failed && |a.kinds| == 2;
    hide RunEffects, RunAttempts;
    RetriedTraceExactly(step, rows, cfg);
    assert Lost(step.effects, 1, 0, Row("order")) by { LastIsDelete(step.effects, 1, 0); }
    TwoTries(step.effects);
  }

  lemma TwoTries(effects: seq<Effect>)
    requires AllIdempotent(effects)
    ensures TimesTried(effects, 1) == 2
  {
    AttemptsWithoutTimeout(0, 0, 1);
  }

  // ---- On the clock --------------------------------------------------------------------

  /** A step whose first attempt fails, fails: no deadline lets a retry succeed. */
  lemma {:induction false} FailureIsFinal(step: Step, store: Store, cfg: Config, n: nat, now: nat)
    requires 1 <= n <= MAX_STEP_ATTEMPTS && RunEffects(step.effects, store, cfg).failed
    ensures TryStep(step, store, cfg, n, now).failed
    decreases MAX_STEP_ATTEMPTS - n
  {
    hide RunEffects, BackoffMs, AttemptCost, AllIdempotent;
    if !Late(cfg, now) && Retryable(step, cfg, n) {
      var a := RunEffects(step.effects, store, cfg);
      FailsAgain(step.effects, store, cfg);
      FailureIsFinal(step, a.store, cfg, n + 1, now + AttemptCost(step.effects, a, cfg) + BackoffMs(n));
    }
  }

  lemma FailsAgain(effects: seq<Effect>, store: Store, cfg: Config)
    requires RunEffects(effects, store, cfg).failed
    ensures RunEffects(effects, RunEffects(effects, store, cfg).store, cfg).failed
  {
    hide RunEffects, RaisesFirst, Within, StoreAt;
    var k := |RunEffects(effects, store, cfg).kinds| - 1;
    AttemptIs(effects, store, cfg);
    WithinItself(effects, k, store);
    RetryFails(effects, store, StoreAt(effects, store, k), cfg, k);
  }

  lemma LateMakesNone(step: Step, store: Store, cfg: Config, n: nat, now: nat)
    requires 1 <= n <= MAX_STEP_ATTEMPTS && Late(cfg, now)
    ensures TryStep(step, store, cfg, n, now) == Tried(store, [], true, n, now)
  {
  }

  /** A step that succeeds does so at its first attempt. */
  lemma SucceedsOnce(step: Step, store: Store, cfg: Config, n: nat, now: nat)
    requires 1 <= n <= MAX_STEP_ATTEMPTS && !RunEffects(step.effects, store, cfg).failed && !Late(cfg, now)
    ensures var a := RunEffects(step.effects, store, cfg);
            TryStep(step, store, cfg, n, now) == Tried(a.store, a.kinds, false, n, now + |step.effects| + STEP_COST_MS)
  {
    hide RunEffects, BackoffMs;
  }

  lemma SuccessIsFirst(step: Step, store: Store, cfg: Config, now: nat)
    ensures !TryStep(step, store, cfg, 1, now).failed
       <==> !Late(cfg, now) && !RunEffects(step.effects, store, cfg).failed
  {
    hide RunEffects, TryStep;
    if Late(cfg, now) {
      LateMakesNone(step, store, cfg, 1, now);
    } else if RunEffects(step.effects, store, cfg).failed {
      FailureIsFinal(step, store, cfg, 1, now);
    } else {
      SucceedsOnce(step, store, cfg, 1, now);
    }
  }
}
