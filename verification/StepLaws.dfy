/** What one step does, effect by effect and millisecond by millisecond (`_run_effect`, `_run_step` and the
    retry loop of `run_workflow` in `impl/lnpl/interp.py`), each stated by what the run leaves. */
module StepLaws {
  import opened Wrappers
  import opened Workflow
  import opened Attempts
  import opened Blocks
  import opened Retry
  import opened RetryTrace
  import opened AttemptClock
  import opened Interp

  // ---- Effects -------------------------------------------------------------------------

  lemma OneEffect(x: Effect, store: Store, cfg: Config)
    ensures RunEffects([x], store, cfg) == if Raises(x, store, cfg) then Attempt(store, [x.Kind()], true)
                                           else Attempt(After(x, store), [x.Kind()], false)
  {
    hide Raises, Attempts.After;
    assert [x][1..] == [];
    assert RunEffects([], After(x, store), cfg) == Attempt(After(x, store), [], false);
    assert [x.Kind()] + [] == [x.Kind()];
  }

  /** The repository: a read needs its row and binds it, a query needs nothing, a create needs an id and no
      row and writes one, an update needs its row, a delete needs its row and takes it away. */
  lemma RepositoryEffects(e: string, store: Store, cfg: Config)
    requires cfg.faults == {}
    ensures RunEffects([RepositoryCall(Read, e)], store, cfg)
         == if Row(e) in store then Attempt(store + {Bound(e)}, ["RepositoryCall"], false)
            else Attempt(store, ["RepositoryCall"], true)
    ensures RunEffects([RepositoryCall(Query, e)], store, cfg) == Attempt(store, ["RepositoryCall"], false)
    ensures RunEffects([RepositoryCall(Create, e)], store, cfg)
         == if cfg.hasId && Row(e) !in store then Attempt(store + {Row(e)}, ["RepositoryCall"], false)
            else Attempt(store, ["RepositoryCall"], true)
    ensures RunEffects([RepositoryCall(Update, e)], store, cfg)
         == if Row(e) in store then Attempt(store, ["RepositoryCall"], false)
            else Attempt(store, ["RepositoryCall"], true)
    ensures RunEffects([RepositoryCall(Delete, e)], store, cfg)
         == if Row(e) in store then Attempt(store - {Row(e)}, ["RepositoryCall"], false)
            else Attempt(store, ["RepositoryCall"], true)
  {
    hide RunEffects;
    OneEffect(RepositoryCall(Read, e), store, cfg);
    OneEffect(RepositoryCall(Query, e), store, cfg);
    OneEffect(RepositoryCall(Create, e), store, cfg);
    OneEffect(RepositoryCall(Update, e), store, cfg);
    OneEffect(RepositoryCall(Delete, e), store, cfg);
  }

  /** The others: an assignment needs a bound row and writes it back, a cache is set only under a time to
      live, a validation fails if it rejects the payload, and a call, an event and anything else succeed. */
  lemma OtherEffects(e: string, s: string, rejects: bool, store: Store, cfg: Config)
    requires cfg.faults == {}
    ensures RunEffects([Assignment(e, s)], store, cfg)
         == if Bound(e) in store then Attempt(store + {Row(e)}, ["Assignment"], false)
            else Attempt(store, ["Assignment"], true)
    ensures RunEffects([CacheAccess(Set)], store, cfg)
         == if cfg.cacheBudget then Attempt(store, ["CacheAccess"], false) else Attempt(store, ["CacheAccess"], true)
    ensures RunEffects([CacheAccess(Get)], store, cfg) == Attempt(store, ["CacheAccess"], false)
    ensures RunEffects([CacheAccess(Invalidate)], store, cfg) == Attempt(store, ["CacheAccess"], false)
    ensures RunEffects([Validation(rejects)], store, cfg) == Attempt(store, ["Validation"], rejects)
    ensures RunEffects([NetworkCall(s)], store, cfg) == Attempt(store, ["NetworkCall"], false)
    ensures RunEffects([EventEmit(s)], store, cfg) == Attempt(store, ["EventEmit"], false)
    ensures RunEffects([OtherEffect(s)], store, cfg) == Attempt(store, [s], false)
  {
    hide RunEffects;
    OneEffect(Assignment(e, s), store, cfg);
    OneEffect(CacheAccess(Set), store, cfg);
    OneEffect(CacheAccess(Get), store, cfg);
    OneEffect(CacheAccess(Invalidate), store, cfg);
    OneEffect(Validation(rejects), store, cfg);
    OneEffect(NetworkCall(s), store, cfg);
    OneEffect(EventEmit(s), store, cfg);
    OneEffect(OtherEffect(s), store, cfg);
  }

  /** Any effect may fail for a reason the document does not show, and then changes nothing. */
  lemma FaultyEffect(x: Effect, store: Store, cfg: Config)
    requires x in cfg.faults
    ensures RunEffects([x], store, cfg) == Attempt(store, [x.Kind()], true)
  {
    hide RunEffects;
    OneEffect(x, store, cfg);
  }

  lemma FirstEffect(x: Effect, rest: seq<Effect>, store: Store, cfg: Config)
    ensures RunEffects([x] + rest, store, cfg)
         == if Raises(x, store, cfg) then Attempt(store, [x.Kind()], true)
            else var r := RunEffects(rest, After(x, store), cfg); Attempt(r.store, [x.Kind()] + r.kinds, r.failed)
  {
    hide Raises, Attempts.After;
    assert ([x] + rest)[1..] == rest;
  }

  lemma NoEffect(store: Store, cfg: Config)
    ensures RunEffects([], store, cfg) == Attempt(store, [], false)
  {
  }

  /** The effects of a step are run in order up to the first that fails, which is recorded too. */
  lemma {:induction false} EffectsInOrder(a: seq<Effect>, b: seq<Effect>, store: Store, cfg: Config)
    ensures var x := RunEffects(a, store, cfg);
            RunEffects(a + b, store, cfg)
            == if x.failed then x
               else var y := RunEffects(b, x.store, cfg); Attempt(y.store, x.kinds + y.kinds, y.failed)
  {
    hide *;
    if a == [] {
      NoEffect(store, cfg);
      assert a + b == b;
      assert [] + RunEffects(b, store, cfg).kinds == RunEffects(b, store, cfg).kinds;
    } else {
      var first, rest := a[0], a[1..];
      assert a == [first] + rest && a + b == [first] + (rest + b);
      FirstEffect(first, rest, store, cfg);
      FirstEffect(first, rest + b, store, cfg);
      if !Raises(first, store, cfg) {
        var x := RunEffects(rest, After(first, store), cfg);
        EffectsInOrder(rest, b, After(first, store), cfg);
        var y := RunEffects(b, x.store, cfg);
        assert ([first.Kind()] + x.kinds) + y.kinds == [first.Kind()] + (x.kinds + y.kinds);
      }
    }
  }

  /** A store at the start of a run: a row for each entity given, and nothing bound. */
  lemma SeededRows(rows: set<string>, e: string)
    ensures (Row(e) in Seeded(rows) <==> e in rows) && Bound(e) !in Seeded(rows)
    ensures RunEffects([Assignment(e, "f")], Seeded(rows), Config(true, true, 0, None, {})).failed
  {
  }

  // ---- Time ----------------------------------------------------------------------------

  /** A single attempt takes a millisecond per effect that succeeds, five more when all do, and one for
      noticing that a row is not there. */
  lemma StepTime(step: Step, store: Store, cfg: Config, now: nat)
    requires cfg.retry <= 0 && cfg.timeout.None?
    ensures var a, t := RunEffects(step.effects, store, cfg), TryStep(step, store, cfg, 1, now);
            && t.store == a.store && t.kinds == a.kinds && t.failed == a.failed && t.attempts == 1
            && if !a.failed then t.now == now + |step.effects| + 5
               else var x := step.effects[|a.kinds| - 1];
                    t.now == now + |a.kinds| - 1
                             + (if x.RepositoryCall? && x.op in {Read, Update, Delete} && x !in cfg.faults then 1
                                else 0)
  {
    hide RunEffects, BackoffMs;
  }

  /** From its deadline on a step does nothing, and fails. */
  lemma LateStep(step: Step, store: Store, cfg: Config, now: nat)
    requires cfg.timeout.Some?
    ensures now >= cfg.timeout.value ==> TryStep(step, store, cfg, 1, now) == Tried(store, [], true, 1, now)
    ensures var a, t := RunEffects(step.effects, store, cfg), TryStep(step, store, cfg, 1, now);
            now < cfg.timeout.value ==> a.kinds <= t.kinds
  {
    hide RunEffects, BackoffMs;
  }

  /** `n` steps that own nothing. */
  function Pauses(n: nat): Body {
    if n == 0 then Done else StepItem(Step("pause", "Pause", []), Pauses(n - 1))
  }

  lemma OnePause(inp: Inputs, run: Run)
    requires inp.cfg.timeout.Some? && run.status.Completed? && run.now <= inp.cfg.timeout.value
    ensures var r := RunStep(Step("pause", "Pause", []), inp.cfg, run);
            if run.now + 5 <= inp.cfg.timeout.value then r.status.Completed? && r.now == run.now + 5
            else r.status.Failed?
  {
    hide BackoffMs;
  }

  /** A run may end on its deadline but not after it. */
  lemma {:induction false} PausesRun(n: nat, inp: Inputs, run: Run)
    requires inp.cfg.timeout.Some? && run.status.Completed? && run.now <= inp.cfg.timeout.value
    ensures RunBody(Pauses(n), inp, run).status
         == if run.now + 5 * n <= inp.cfg.timeout.value then Completed else Failed
  {
    if n > 0 {
      hide RunStep;
      OnePause(inp, run);
      var next := RunStep(Step("pause", "Pause", []), inp.cfg, run);
      if next.status.Completed? {
        PausesRun(n - 1, inp, next);
      } else {
        FailedStays(Pauses(n - 1), inp, next);
      }
    }
  }

  lemma FailedStays(body: Body, inp: Inputs, run: Run)
    requires !run.status.Completed?
    ensures RunBody(body, inp, run) == run
  {
  }

  lemma AttemptsLeft(step: Step, store: Store, cfg: Config, now: nat, m: nat)
    requires RunEffects(step.effects, store, cfg).failed && AllIdempotent(step.effects)
    requires cfg.timeout.Some? && 1 <= m <= cfg.retry && m < 100
    requires !LosesRow(step.effects, |RunEffects(step.effects, store, cfg).kinds| - 1)
    ensures var k := |RunEffects(step.effects, store, cfg).kinds| - 1;
            TryStep(step, store, cfg, 1, now).attempts > m
            <==> now + m * (k + FailCost(step.effects[k], cfg)) + Waited(m) < cfg.timeout.value
  {
    hide RunEffects, TryStep, BackoffMs, BackoffSum, LosesRow, LastAttempt, AllIdempotent, FailCost, Waited;
    AttemptsExactly(step, store, cfg, m, now);
    AttemptsWithoutTimeout(0, 0, cfg.retry);
    BackoffsAre(m);
  }

  /** A step that fails under a deadline and may be repeated: attempt `m` is followed by another exactly if
      the attempts so far and the waits between them leave time for it. */
  lemma AttemptsInMillis(step: Step, store: Store, cfg: Config, now: nat, m: nat)
    requires RunEffects(step.effects, store, cfg).failed && cfg.timeout.Some? && 1 <= m <= cfg.retry && m < 100
    requires forall k :: 0 <= k < |step.effects| ==>
               !step.effects[k].NetworkCall? && !step.effects[k].EventEmit?
               && !(step.effects[k].RepositoryCall? && step.effects[k].op.Create?)
    requires !LosesRow(step.effects, |RunEffects(step.effects, store, cfg).kinds| - 1)
    ensures var k := |RunEffects(step.effects, store, cfg).kinds| - 1;
            var x := step.effects[k];
            var cost := k + if x.RepositoryCall? && x.op in {Read, Update, Delete} && x !in cfg.faults then 1 else 0;
            TryStep(step, store, cfg, 1, now).attempts > m <==> now + m * cost + Waited(m) < cfg.timeout.value
  {
    hide RunEffects, TryStep, LosesRow, Waited;
    AttemptsLeft(step, store, cfg, now, m);
  }

  /** The wait after the first, second, third and fourth attempt, and after every later one. */
  lemma Waits(k: nat)
    requires k >= 1
    ensures BackoffMs(k) == if k == 1 then 100 else if k == 2 then 200 else if k == 3 then 400
                            else if k == 4 then 800 else 1000
  {
    if k >= 5 {
      Pow2Grows(k - 1);
    }
  }
}
