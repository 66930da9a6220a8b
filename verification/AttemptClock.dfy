/** A failing step on the virtual clock: which of its attempts a deadline leaves, and what they add
    to its trace (the retry loop of `run_workflow`, `_retryable` and `_run_step` in
    `impl/lnpl/interp.py`). */
module AttemptClock {
  import opened Wrappers
  import opened Text
  import opened Workflow
  import opened Flattening
  import opened Attempts
  import opened Footprint
  import opened Retry
  import opened RetryTrace

  /** Nothing that was bound is unbound. */
  ghost predicate StaysBound(before: Store, after: Store) {
    forall e :: Bound(e) in before ==> Bound(e) in after
  }

  lemma AttemptsBind(effects: seq<Effect>, before: Store, store: Store, cfg: Config)
    requires StaysBound(before, store)
    ensures StaysBound(before, RunEffects(effects, store, cfg).store)
  {
    hide RunEffects, Succeeded, ReadAmong;
    forall e | Bound(e) in before ensures Bound(e) in RunEffects(effects, store, cfg).store {
      BindsWhatItReads(effects, store, cfg, e);
    }
  }

  /** An assignment that succeeded at first succeeds again. */
  lemma AssignedAgain(effects: seq<Effect>, store: Store, other: Store, cfg: Config, j: nat)
    requires j < |effects| && effects[j].Assignment? && cfg.faults == {} && StaysBound(store, other)
    requires !Raises(effects[j], StoreAt(effects, store, j), cfg)
    ensures !Raises(effects[j], StoreAt(effects, other, j), cfg)
  {
    hide StoreAt;
    RowAt(effects, store, j, Bound(effects[j].entity));
    RowAt(effects, other, j, Bound(effects[j].entity));
  }

  /** A retry costs no less than the failing effect alone. */
  lemma RetryCost(effects: seq<Effect>, store: Store, other: Store, cfg: Config, k: nat)
    requires k < |effects| && RaisesFirst(effects, store, cfg, k) && Within(effects, k, store, other)
    requires AllIdempotent(effects) && cfg.faults == {} && StaysBound(store, other)
    ensures RunEffects(effects, other, cfg).failed
    ensures AttemptCost(effects, RunEffects(effects, other, cfg), cfg) >= MissCost(effects[k])
  {
    hide RunEffects, StoreAt, Within, StaysBound;
    RetryFails(effects, store, other, cfg, k);
    AttemptIs(effects, other, cfg);
    var j := |RunEffects(effects, other, cfg).kinds| - 1;
    if j < k {
      assert !Raises(effects[j], StoreAt(effects, store, j), cfg)
             && Raises(effects[j], StoreAt(effects, other, j), cfg);
      assert Idempotent(effects[j]);
      if effects[j].Assignment? {
        AssignedAgain(effects, store, other, cfg, j);
      }
    }
  }

  /** The attempts from number `n` on stop no later than the prediction does. */
  lemma {:induction false} TriesWithin(step: Step, store: Store, other: Store, cfg: Config, k: nat, n: nat, now: nat,
                                       b: Budget)
    requires 1 <= n <= MAX_STEP_ATTEMPTS && k < |step.effects| && RaisesFirst(step.effects, store, cfg, k)
    requires Within(step.effects, k, store, other) && AllIdempotent(step.effects) && cfg.faults == {}
    requires StaysBound(store, other)
    requires b.cost == MissCost(step.effects[k]) && b.retry == cfg.retry && b.timeout == cfg.timeout
    requires now >= AfterBackoff(b, n - 1)
    ensures TryStep(step, other, cfg, n, now).attempts <= LastAttempt(b, n)
    decreases MAX_STEP_ATTEMPTS - n
  {
    hide RunEffects, BackoffMs, BackoffSum, MissCost, RaisesFirst, Within, AllIdempotent, AttemptCost, StaysBound;
    var a := RunEffects(step.effects, other, cfg);
    RetryCost(step.effects, store, other, cfg, k);
    RetryFails(step.effects, store, other, cfg, k);
    AttemptsBind(step.effects, store, other, cfg);
    if !Late(cfg, now) {
      var ended := now + AttemptCost(step.effects, a, cfg);
      BackoffEnds(b, n);
      OneBackoff(b, n);
      if Retryable(step, cfg, n) && !Late(cfg, ended + BackoffMs(n)) {
        assert !Stops(b, n);
        TriesWithin(step, store, a.store, cfg, k, n + 1, ended + BackoffMs(n), b);
      }
    }
  }

  lemma OneBackoff(b: Budget, n: nat)
    requires n >= 1
    ensures AfterBackoff(b, n) == AfterBackoff(b, n - 1) + b.cost + BackoffMs(n)
  {
    assert n * b.cost == (n - 1) * b.cost + b.cost;
  }

  /** The attempts at a step that fails the same way every time. */
  lemma {:induction false} SameTries(step: Step, store: Store, cfg: Config, n: nat, now: nat, b: Budget)
    requires 1 <= n <= MAX_STEP_ATTEMPTS && AllIdempotent(step.effects) && !Late(cfg, now)
    requires var a := RunEffects(step.effects, store, cfg);
             a.failed && a.store == store && b.cost == AttemptCost(step.effects, a, cfg)
    requires b.retry == cfg.retry && b.timeout == cfg.timeout && now == AfterBackoff(b, n - 1)
    ensures var t := TryStep(step, store, cfg, n, now);
            && t.failed && t.attempts == LastAttempt(b, n)
            && t.kinds == Times(RunEffects(step.effects, store, cfg).kinds, LastAttempt(b, n) - n + 1)
    decreases MAX_STEP_ATTEMPTS - n
  {
    hide RunEffects, BackoffMs, BackoffSum, AllIdempotent, AttemptCost, AfterBackoff;
    var a := RunEffects(step.effects, store, cfg);
    BackoffEnds(b, n);
    OneBackoff(b, n);
    assert Retryable(step, cfg, n) <==> n < MAX_STEP_ATTEMPTS && n <= cfg.retry;
    if !Stops(b, n) {
      SameTries(step, store, cfg, n + 1, AfterBackoff(b, n), b);
      TimesFront(a.kinds, LastAttempt(b, n + 1) - n);
    } else {
      TimesOnce(a.kinds);
    }
  }

  /** A step that loses no row fails the same way again. */
  lemma FailsTheSame(step: Step, store: Store, cfg: Config)
    requires var a := RunEffects(step.effects, store, cfg); a.failed && !LosesRow(step.effects, |a.kinds| - 1)
    requires AllIdempotent(step.effects)
    ensures RunEffects(step.effects, RunEffects(step.effects, store, cfg).store, cfg)
            == RunEffects(step.effects, store, cfg)
  {
    hide RunEffects, AllIdempotent, RaisesFirst, Within, LosesRow, StoreAt;
    var a := RunEffects(step.effects, store, cfg);
    var k := |a.kinds| - 1;
    AttemptIs(step.effects, store, cfg);
    SecondAttemptExactly(step.effects, store, cfg, k);
    AttemptIs(step.effects, a.store, cfg);
    WithinItself(step.effects, k, store);
    SameAtTheEnd(step.effects, k, store, a.store);
    FailingPrefix(step.effects, store, cfg);
    FailingPrefix(step.effects, a.store, cfg);
    PrefixIsSame(step.effects, a.kinds, RunEffects(step.effects, a.store, cfg).kinds, k);
  }

  /** What the deadline leaves of the attempts at a step whose trace repeats. */
  lemma TriesAre(step: Step, store: Store, cfg: Config, now: nat, b: Budget)
    requires var a := RunEffects(step.effects, store, cfg);
             && a.failed && !LosesRow(step.effects, |a.kinds| - 1)
             && b == Budget(now, AttemptCost(step.effects, a, cfg), cfg.retry, cfg.timeout)
    requires AllIdempotent(step.effects) && !Late(cfg, now)
    ensures var t := TryStep(step, store, cfg, 1, now);
            && t.failed && t.attempts == LastAttempt(b, 1)
            && t.kinds == Times(RunEffects(step.effects, store, cfg).kinds, LastAttempt(b, 1))
  {
    hide RunEffects, BackoffMs, AllIdempotent, LosesRow, AttemptCost, Times, LastAttempt, BackoffSum, TryStep,
         Retryable, AfterBackoff, ClockAt, Late, Stops;
    var a := RunEffects(step.effects, store, cfg);
    FailsTheSame(step, store, cfg);
    LastFromFirst(b);
    FirstTry(step, store, cfg, now, b);
    if Stops(b, 1) {
      TimesOnce(a.kinds);
    } else {
      NotLateYet(b, cfg);
      SameTries(step, a.store, cfg, 2, AfterBackoff(b, 1), b);
      TimesFront(a.kinds, LastAttempt(b, 2) - 1);
    }
  }

  lemma FirstTry(step: Step, store: Store, cfg: Config, now: nat, b: Budget)
    requires RunEffects(step.effects, store, cfg).failed && AllIdempotent(step.effects) && !Late(cfg, now)
    requires b == Budget(now, AttemptCost(step.effects, RunEffects(step.effects, store, cfg), cfg), cfg.retry,
                         cfg.timeout)
    ensures AfterBackoff(b, 1) >= 0
    ensures var a, t := RunEffects(step.effects, store, cfg), TryStep(step, store, cfg, 1, now);
            if Stops(b, 1) then t.failed && t.kinds == a.kinds && t.attempts == 1
            else var rest := TryStep(step, a.store, cfg, 2, AfterBackoff(b, 1));
                 t.failed == rest.failed && t.kinds == a.kinds + rest.kinds && t.attempts == rest.attempts
  {
    hide RunEffects, BackoffMs, AllIdempotent, AttemptCost, TryStep;
    assert BackoffSum(0) == 0;
    assert BackoffSum(1) == BackoffMs(1);
    assert Retryable(step, cfg, 1) <==> 1 <= cfg.retry;
    OneTry(step, store, cfg, 1, now);
  }

  lemma OneTry(step: Step, store: Store, cfg: Config, n: nat, now: nat)
    requires 1 <= n < MAX_STEP_ATTEMPTS && RunEffects(step.effects, store, cfg).failed && !Late(cfg, now)
    ensures var a, t := RunEffects(step.effects, store, cfg), TryStep(step, store, cfg, n, now);
            var ended := now + AttemptCost(step.effects, a, cfg);
            if !Retryable(step, cfg, n) || Late(cfg, ended + BackoffMs(n))
            then t == Tried(a.store, a.kinds, true, n, ended)
            else var rest := TryStep(step, a.store, cfg, n + 1, ended + BackoffMs(n));
                 t == Tried(rest.store, a.kinds + rest.kinds, rest.failed, rest.attempts, rest.now)
  {
    hide RunEffects, BackoffMs, AttemptCost, Late, Retryable;
  }

  lemma NotLateYet(b: Budget, cfg: Config)
    requires !Stops(b, 1) && b.timeout == cfg.timeout && AfterBackoff(b, 1) >= 0
    ensures !Late(cfg, AfterBackoff(b, 1))
  {
    BackoffEnds(b, 1);
  }

  lemma LastFromFirst(b: Budget)
    ensures LastAttempt(b, 1) == if Stops(b, 1) then 1 else LastAttempt(b, 2)
    ensures AfterBackoff(b, 1) == b.start + b.cost + BackoffMs(1)
  {
    assert BackoffSum(0) == 0;
  }

  // ---- The trace under a deadline ------------------------------------------------------

  function FailCost(effect: Effect, cfg: Config): nat {
    if effect in cfg.faults then 0 else MissCost(effect)
  }

  /** Attempt `n` starts before the deadline when the first starts at `now` and each fails at effect
      `failAt`, every effect charged. */
  predicate StartsInTime(effects: seq<Effect>, failAt: nat, n: nat, now: nat, cfg: Config)
    requires failAt < |effects| && n >= 1
  {
    cfg.timeout.None?
    || now + (n - 1) * (failAt + FailCost(effects[failAt], cfg)) + BackoffSum(n - 1) < cfg.timeout.value
  }

  /** Attempt `n` is the last: it starts in time, and there is no other to make or no time for it. */
  predicate LastInTime(effects: seq<Effect>, failAt: nat, n: nat, now: nat, cfg: Config)
    requires failAt < |effects| && n >= 1
  {
    && StartsInTime(effects, failAt, n, now, cfg)
    && (n == TimesTried(effects, cfg.retry) || !StartsInTime(effects, failAt, n + 1, now, cfg))
  }

  lemma TimesApart(kinds: seq<string>, m: nat, n: nat)
    requires kinds != [] && m != n
    ensures Times(kinds, m) != Times(kinds, n)
  {
    TimesLength(kinds, m);
    TimesLength(kinds, n);
    if m < n {
      assert n * |kinds| - m * |kinds| == (n - m) * |kinds| > 0;
    } else {
      assert m * |kinds| - n * |kinds| == (m - n) * |kinds| > 0;
    }
  }

  lemma LateStartsNone(effects: seq<Effect>, failAt: nat, n: nat, now: nat, cfg: Config)
    requires failAt < |effects| && n >= 1 && Late(cfg, now)
    ensures !StartsInTime(effects, failAt, n, now, cfg)
  {
    assert (n - 1) * (failAt + FailCost(effects[failAt], cfg)) >= 0;
  }

  lemma OnlyTry(step: Step, store: Store, cfg: Config, now: nat)
    requires RunEffects(step.effects, store, cfg).failed && !Late(cfg, now)
             && TimesTried(step.effects, cfg.retry) == 1
    ensures TryStep(step, store, cfg, 1, now).kinds == RunEffects(step.effects, store, cfg).kinds
    ensures LastInTime(step.effects, |RunEffects(step.effects, store, cfg).kinds| - 1, 1, now, cfg)
  {
    hide RunEffects, BackoffMs;
    MoreAttempts(step, cfg, 1);
    OneTry(step, store, cfg, 1, now);
  }

  /** A second attempt leaves something on the trace. */
  lemma SecondTry(step: Step, store: Store, cfg: Config, now: nat)
    requires RunEffects(step.effects, store, cfg).failed && !Late(cfg, now)
             && TimesTried(step.effects, cfg.retry) > 1
    ensures TryStep(step, store, cfg, 1, now).kinds == RunEffects(step.effects, store, cfg).kinds
       <==> LastInTime(step.effects, |RunEffects(step.effects, store, cfg).kinds| - 1, 1, now, cfg)
  {
    hide RunEffects, BackoffMs, TryStep, TimesTried;
    var a := RunEffects(step.effects, store, cfg);
    var next := now + AttemptCost(step.effects, a, cfg) + BackoffMs(1);
    MoreAttempts(step, cfg, 1);
    OneTry(step, store, cfg, 1, now);
    FirstBackoffs();
    if !Late(cfg, next) {
      FailsAgain(step.effects, store, cfg);
      TriesLeaveATrace(step, a.store, cfg, 2, next);
    }
  }

  lemma TriesLeaveATrace(step: Step, store: Store, cfg: Config, n: nat, now: nat)
    requires 1 <= n <= MAX_STEP_ATTEMPTS && RunEffects(step.effects, store, cfg).failed && !Late(cfg, now)
    ensures TryStep(step, store, cfg, n, now).kinds != []
  {
    hide RunEffects, BackoffMs;
  }

  lemma SeveralTries(step: Step, store: Store, cfg: Config, n: nat, now: nat)
    requires RunEffects(step.effects, store, cfg).failed && !Late(cfg, now)
    requires 1 <= n <= TimesTried(step.effects, cfg.retry) && TimesTried(step.effects, cfg.retry) > 1
    requires !LosesRow(step.effects, |RunEffects(step.effects, store, cfg).kinds| - 1)
    ensures var kinds := RunEffects(step.effects, store, cfg).kinds;
            TryStep(step, store, cfg, 1, now).kinds == Times(kinds, n)
            <==> LastInTime(step.effects, |kinds| - 1, n, now, cfg)
  {
    hide RunEffects, TryStep, BackoffMs, BackoffSum, LosesRow, Times, LastAttempt, ClockAt, AllIdempotent, MissCost;
    var a := RunEffects(step.effects, store, cfg);
    var b := Budget(now, AttemptCost(step.effects, a, cfg), cfg.retry, cfg.timeout);
    var all := TimesTried(step.effects, cfg.retry);
    TriesAre(step, store, cfg, now, b);
    AttemptsMonotone(b, b.(timeout := None));
    AttemptsWithoutTimeout(b.start, b.cost, cfg.retry);
    AttemptsWithoutTimeout(0, 0, cfg.retry);
    if LastAttempt(b, 1) != n {
      TimesApart(a.kinds, LastAttempt(b, 1), n);
    }
    if cfg.timeout.Some? {
      assert BackoffSum(0) == 0 by { FirstBackoffs(); }
      ReachedExactly(b, n);
      if n < all {
        ReachedExactly(b, n + 1);
      }
    }
  }

  /** A failing step leaves `n` copies of its failing prefix exactly if attempt `n` is the last. */
  lemma TraceOnTime(step: Step, store: Store, cfg: Config, n: nat, now: nat)
    requires RunEffects(step.effects, store, cfg).failed && 1 <= n <= TimesTried(step.effects, cfg.retry)
    requires n == 1 || !LosesRow(step.effects, |RunEffects(step.effects, store, cfg).kinds| - 1)
    ensures TryStep(step, store, cfg, 1, now).failed
    ensures var kinds := RunEffects(step.effects, store, cfg).kinds;
            TryStep(step, store, cfg, 1, now).kinds == Times(kinds, n)
            <==> LastInTime(step.effects, |kinds| - 1, n, now, cfg)
  {
    hide RunEffects, TryStep, LosesRow, Times, TimesTried, LastInTime;
    var kinds := RunEffects(step.effects, store, cfg).kinds;
    FailureIsFinal(step, store, cfg, 1, now);
    TimesOnce(kinds);
    if Late(cfg, now) {
      LateMakesNone(step, store, cfg, 1, now);
      TimesLength(kinds, n);
      assert n * |kinds| > 0;
      LateIsNotLast(step.effects, |kinds| - 1, n, now, cfg);
    } else if TimesTried(step.effects, cfg.retry) == 1 {
      OnlyTry(step, store, cfg, now);
    } else if n == 1 {
      SecondTry(step, store, cfg, now);
    } else {
      SeveralTries(step, store, cfg, n, now);
    }
  }

  lemma LateIsNotLast(effects: seq<Effect>, failAt: nat, n: nat, now: nat, cfg: Config)
    requires failAt < |effects| && n >= 1 && Late(cfg, now)
    ensures !LastInTime(effects, failAt, n, now, cfg)
  {
    LateStartsNone(effects, failAt, n, now, cfg);
  }

  /** How often a step is attempted, against any number predicted for it: at most that often exactly if
      there are no more attempts to make, or no time for one. */
  lemma AttemptsExactly(step: Step, store: Store, cfg: Config, n: nat, now: nat)
    requires RunEffects(step.effects, store, cfg).failed && 1 <= n <= TimesTried(step.effects, cfg.retry)
    requires n == 1 || !LosesRow(step.effects, |RunEffects(step.effects, store, cfg).kinds| - 1)
    ensures TryStep(step, store, cfg, 1, now).attempts <= n
       <==> n == TimesTried(step.effects, cfg.retry)
            || !StartsInTime(step.effects, |RunEffects(step.effects, store, cfg).kinds| - 1, n + 1, now, cfg)
  {
    hide RunEffects, TryStep, BackoffMs, BackoffSum, LosesRow, LastAttempt, ClockAt, AllIdempotent, MissCost,
         TimesTried,
         Retryable;
    var a, all := RunEffects(step.effects, store, cfg), TimesTried(step.effects, cfg.retry);
    MoreAttempts(step, cfg, 1);
    if Late(cfg, now) {
      LateMakesNone(step, store, cfg, 1, now);
      LateStartsNone(step.effects, |a.kinds| - 1, n + 1, now, cfg);
    } else if n == 1 {
      OneTry(step, store, cfg, 1, now);
      FirstBackoffs();
    } else {
      var b := Budget(now, AttemptCost(step.effects, a, cfg), cfg.retry, cfg.timeout);
      TriedAgain(step.effects, cfg.retry);
      TriesAre(step, store, cfg, now, b);
      AttemptsMonotone(b, b.(timeout := None));
      AttemptsWithoutTimeout(b.start, b.cost, cfg.retry);
      if cfg.timeout.Some? && n < all {
        ReachedExactly(b, n + 1);
      }
    }
  }

  lemma FirstBackoffs()
    ensures BackoffSum(0) == 0 && BackoffSum(1) == BackoffMs(1)
  {
    assert BackoffSum(0) == 0;
  }

  lemma TriedAgain(effects: seq<Effect>, retry: int)
    requires TimesTried(effects, retry) > 1
    ensures retry > 0 && AllIdempotent(effects)
    ensures TimesTried(effects, retry) == if retry + 1 < MAX_STEP_ATTEMPTS then retry + 1 else MAX_STEP_ATTEMPTS
  {
    AttemptsWithoutTimeout(0, 0, retry);
  }

  // ---- Without a deadline --------------------------------------------------------------

  lemma {:induction false} UntimedCount(step: Step, store: Store, cfg: Config, n: nat, now: nat)
    requires 1 <= n <= MAX_STEP_ATTEMPTS && cfg.timeout.None? && RunEffects(step.effects, store, cfg).failed
    ensures TryStep(step, store, cfg, n, now).attempts
         == if !AllIdempotent(step.effects) || cfg.retry < n then n else if cfg.retry < 100 then cfg.retry + 1 else 100
    decreases MAX_STEP_ATTEMPTS - n
  {
    hide RunEffects, BackoffMs, AttemptCost, AllIdempotent;
    if Retryable(step, cfg, n) {
      var a := RunEffects(step.effects, store, cfg);
      FailsAgain(step.effects, store, cfg);
      OneTry(step, store, cfg, n, now);
      UntimedCount(step, a.store, cfg, n + 1, now + AttemptCost(step.effects, a, cfg) + BackoffMs(n));
    }
  }

  /** A step that fails, without a deadline: as often as the policy says, and once where it creates a row,
      calls the network or emits an event. */
  lemma FailingStepAttempts(step: Step, store: Store, cfg: Config, now: nat)
    requires cfg.timeout.None? && RunEffects(step.effects, store, cfg).failed
    ensures var safe := forall k :: 0 <= k < |step.effects| ==>
              !step.effects[k].NetworkCall? && !step.effects[k].EventEmit?
              && !(step.effects[k].RepositoryCall? && step.effects[k].op.Create?);
            TryStep(step, store, cfg, 1, now).attempts
            == if cfg.retry <= 0 || !safe then 1 else if cfg.retry < 100 then cfg.retry + 1 else 100
  {
    hide RunEffects, TryStep;
    UntimedCount(step, store, cfg, 1, now);
  }
}
