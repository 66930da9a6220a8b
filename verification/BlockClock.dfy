/** A parallel block on the virtual clock: when none of its steps fails it takes what its steps take
    one after the other, whatever its schedule, and a deadline leaves it alone or ends the run. */
module BlockClock {
  import opened Wrappers
  import opened Workflow
  import opened Attempts
  import opened Blocks
  import opened Footprint
  import opened BlockOrder

  function SuccessCost(step: Step): nat {
    |step.effects| + STEP_COST_MS
  }

  function TotalCost(steps: seq<Step>): nat {
    if steps == [] then 0 else SuccessCost(steps[0]) + TotalCost(steps[1..])
  }

  /** What the tasks that are over have cost. */
  function Spent(steps: seq<Step>, tasks: seq<Task>): nat
    requires |steps| == |tasks|
  {
    if steps == [] then 0 else (if tasks[0].Ended? then SuccessCost(steps[0]) else 0) + Spent(steps[1..], tasks[1..])
  }

  lemma {:induction false} SpentNext(steps: seq<Step>, tasks: seq<Task>, i: nat, task: Task)
    requires i < |steps| == |tasks| && !tasks[i].Ended? && task.Ended?
    ensures Spent(steps, tasks) + SuccessCost(steps[i]) == Spent(steps, tasks[i := task]) <= TotalCost(steps)
  {
    hide SuccessCost;
    var after := tasks[i := task];
    if i == 0 {
      assert after[1..] == tasks[1..];
      SpentAtMost(steps[1..], tasks[1..]);
    } else {
      assert after[1..] == tasks[1..][i - 1 := task];
      SpentNext(steps[1..], tasks[1..], i - 1, task);
    }
  }

  lemma {:induction false} SpentAtMost(steps: seq<Step>, tasks: seq<Task>)
    requires |steps| == |tasks|
    ensures Spent(steps, tasks) <= TotalCost(steps)
    ensures (forall i :: 0 <= i < |tasks| ==> tasks[i].Ended?) ==> Spent(steps, tasks) == TotalCost(steps)
  {
    if steps != [] {
      SpentAtMost(steps[1..], tasks[1..]);
    }
  }

  lemma {:induction false} NothingSpent(steps: seq<Step>, tasks: seq<Task>)
    requires |steps| == |tasks| && forall i :: 0 <= i < |tasks| ==> tasks[i].Waiting?
    ensures Spent(steps, tasks) == 0
  {
    if steps != [] {
      NothingSpent(steps[1..], tasks[1..]);
    }
  }

  // ---- Without a deadline --------------------------------------------------------------

  /** A step that has started is over, and has not failed. */
  predicate AllCalm(steps: seq<Step>, tasks: seq<Task>) {
    |steps| == |tasks|
    && forall i :: 0 <= i < |steps| ==> tasks[i].Waiting? || tasks[i] == Ended(Kinds(steps[i].effects), false)
  }

  lemma CalmTasks(steps: seq<Step>, cfg: Config, store: Store, now: nat, schedule: seq<nat>)
    requires cfg.timeout.None? && Calm(steps, store, cfg)
    ensures AllCalm(steps, RunBlock(steps, cfg, store, now, schedule).tasks)
  {
    hide RunBlock, RunEffects, Untangled, Tracks;
    var b := RunBlock(steps, cfg, store, now, schedule);
    var own := BlockTracks(steps, cfg, store, now, schedule);
    forall i | 0 <= i < |steps| ensures b.tasks[i].Waiting? || b.tasks[i] == Ended(Kinds(steps[i].effects), false) {
      StartedAlone(steps, cfg, store, b, own, i);
      CalmAlone(steps[i], store, cfg);
    }
  }

  lemma CalmAlone(step: Step, store: Store, cfg: Config)
    requires !RunEffects(step.effects, store, cfg).failed
    ensures RunAttempts(step, store, cfg, 1) == RunEffects(step.effects, store, cfg)
  {
  }

  /** The clock of a calm block shows what its steps have cost so far. */
  lemma {:induction false} CalmClock(steps: seq<Step>, cfg: Config, store: Store, now: nat, schedule: seq<nat>)
    requires cfg.timeout.None? && Calm(steps, store, cfg)
    ensures var b := RunBlock(steps, cfg, store, now, schedule);
            b.now == now + Spent(steps, b.tasks)
    decreases |schedule|
  {
    hide Calm, RunEffects, BackoffMs, Kinds;
    if schedule == [] {
      NothingSpent(steps, Submitted(steps, store, now).tasks);
    } else {
      var last := |schedule| - 1;
      var before, i := RunBlock(steps, cfg, store, now, schedule[..last]), schedule[last];
      CalmClock(steps, cfg, store, now, schedule[..last]);
      CalmTasks(steps, cfg, store, now, schedule[..last]);
      CalmTasks(steps, cfg, store, now, schedule);
      var after := RunBlock(steps, cfg, store, now, schedule);
      assert after == Advance(steps, cfg, before, i);
      if i < |steps| && !before.tasks[i].Ended? {
        SpentNext(steps, before.tasks, i, after.tasks[i]);
        assert after.tasks == before.tasks[i := after.tasks[i]];
      }
    }
  }

  // ---- Under a deadline ----------------------------------------------------------------

  lemma CalmUntimed(steps: seq<Step>, store: Store, cfg: Config)
    requires Calm(steps, store, cfg)
    ensures Calm(steps, store, Untimed(cfg))
  {
    hide RunEffects, Untangled;
    forall i | 0 <= i < |steps| ensures !RunEffects(steps[i].effects, store, Untimed(cfg)).failed {
      TimeoutUnread(steps[i].effects, store, cfg);
    }
  }

  lemma {:induction false} SerialUntimed(steps: seq<Step>, store: Store, cfg: Config)
    ensures SerialStore(steps, store, Untimed(cfg)) == SerialStore(steps, store, cfg)
    decreases steps
  {
    if steps != [] {
      hide RunEffects;
      TimeoutUnread(steps[0].effects, store, cfg);
      SerialUntimed(steps[1..], RunEffects(steps[0].effects, store, cfg).store, cfg);
    }
  }

  predicate SomeFailed(tasks: seq<Task>) {
    exists i :: 0 <= i < |tasks| && tasks[i].Ended? && tasks[i].failed
  }

  predicate TooLate(cfg: Config, end: nat) {
    cfg.timeout.Some? && end > cfg.timeout.value
  }

  lemma FailureStays(steps: seq<Step>, cfg: Config, b: Block, i: nat)
    requires |b.tasks| == |steps| && SomeFailed(b.tasks)
    ensures SomeFailed(Advance(steps, cfg, b, i).tasks)
  {
    hide RunEffects, Kinds0, Made;
    var j :| 0 <= j < |b.tasks| && b.tasks[j].Ended? && b.tasks[j].failed;
    assert Advance(steps, cfg, b, i).tasks[j] == b.tasks[j];
  }

  /** The same attempt under a deadline. */
  lemma AdvanceInTime(steps: seq<Step>, cfg: Config, b: Block, i: nat)
    requires |b.tasks| == |steps| && AllCalm(steps, b.tasks)
    requires AllCalm(steps, Advance(steps, Untimed(cfg), b, i).tasks)
    ensures Advance(steps, cfg, b, i) == Advance(steps, Untimed(cfg), b, i)
            || (i < |steps| && !b.tasks[i].Ended? && Late(cfg, b.now) && SomeFailed(Advance(steps, cfg, b, i).tasks))
  {
    hide RunEffects, BackoffMs;
    if i < |steps| && !b.tasks[i].Ended? {
      TimeoutUnread(steps[i].effects, b.store, cfg);
      if Late(cfg, b.now) {
        assert Advance(steps, cfg, b, i).tasks[i] == Ended([], true);
      }
    }
  }

  /** A calm block runs as without a deadline, or its steps take longer than there is time and one of
      them fails. */
  lemma {:induction false} CalmInTime(steps: seq<Step>, cfg: Config, store: Store, now: nat, schedule: seq<nat>)
    requires Calm(steps, store, cfg)
    ensures var b := RunBlock(steps, cfg, store, now, schedule);
            b == RunBlock(steps, Untimed(cfg), store, now, schedule)
            || (TooLate(cfg, now + TotalCost(steps)) && SomeFailed(b.tasks))
    decreases |schedule|
  {
    if schedule != [] {
      hide Calm, Advance, SomeFailed, AllCalm, Spent, TotalCost;
      var last := |schedule| - 1;
      var before, i := RunBlock(steps, cfg, store, now, schedule[..last]), schedule[last];
      CalmInTime(steps, cfg, store, now, schedule[..last]);
      CalmUntimed(steps, store, cfg);
      if before == RunBlock(steps, Untimed(cfg), store, now, schedule[..last]) {
        CalmTasks(steps, Untimed(cfg), store, now, schedule[..last]);
        CalmTasks(steps, Untimed(cfg), store, now, schedule);
        AdvanceInTime(steps, cfg, before, i);
        if i < |steps| && !before.tasks[i].Ended? {
          CalmClock(steps, Untimed(cfg), store, now, schedule[..last]);
          SpentNext(steps, before.tasks, i, Ended([], true));
        }
      } else {
        FailureStays(steps, cfg, before, i);
      }
    }
  }

  lemma CalmFailsNone(steps: seq<Step>, tasks: seq<Task>)
    requires AllCalm(steps, tasks)
    ensures !AnyFails(tasks) && !SomeFailed(tasks)
  {
  }

  lemma {:induction false} FewSpans(steps: seq<Step>, tasks: seq<Task>)
    requires |steps| == |tasks|
    ensures |BlockSpans(steps, tasks)| <= |steps|
  {
    if steps != [] {
      FewSpans(steps[1..], tasks[1..]);
    }
  }

  /** A settled block of which no step fails on its own: its steps in written order, taking what they
      take together; or there is no time for all of them, and one fails. */
  lemma CalmBlockOnClock(steps: seq<Step>, cfg: Config, store: Store, now: nat, schedule: seq<nat>)
    requires Calm(steps, store, cfg) && Settled(RunBlock(steps, cfg, store, now, schedule).tasks)
    ensures var b := RunBlock(steps, cfg, store, now, schedule);
            && |BlockSpans(steps, b.tasks)| <= |steps|
            && if AnyFails(b.tasks) then TooLate(cfg, now + TotalCost(steps))
               else b.store == SerialStore(steps, store, cfg) && BlockSpans(steps, b.tasks) == AllSpans(steps)
                    && b.now == now + TotalCost(steps)
  {
    hide Calm, RunBlock, BlockSpans, Spent, TotalCost, SerialStore;
    var b := RunBlock(steps, cfg, store, now, schedule);
    FewSpans(steps, b.tasks);
    CalmInTime(steps, cfg, store, now, schedule);
    if b == RunBlock(steps, Untimed(cfg), store, now, schedule) {
      CalmUntimed(steps, store, cfg);
      CalmTasks(steps, Untimed(cfg), store, now, schedule);
      CalmFailsNone(steps, b.tasks);
      CalmBlockIsSerial(steps, Untimed(cfg), store, now, schedule);
      CalmClock(steps, Untimed(cfg), store, now, schedule);
      SpentAtMost(steps, b.tasks);
      SerialUntimed(steps, store, cfg);
    }
  }

  // ---- Any block -----------------------------------------------------------------------

  /** The tasks that have succeeded. */
  function Successes(tasks: seq<Task>): nat {
    if tasks == [] then 0 else (if tasks[0].Ended? && !tasks[0].failed then 1 else 0) + Successes(tasks[1..])
  }

  lemma {:induction false} OneMore(tasks: seq<Task>, i: nat, task: Task)
    requires i < |tasks| && !tasks[i].Ended?
    ensures Successes(tasks[i := task]) == Successes(tasks) + if task.Ended? && !task.failed then 1 else 0
  {
    var after := tasks[i := task];
    if i == 0 {
      assert after[1..] == tasks[1..];
    } else {
      assert after[1..] == tasks[1..][i - 1 := task];
      OneMore(tasks[1..], i - 1, task);
    }
  }

  lemma {:induction false} SuccessesOf(tasks: seq<Task>)
    ensures (forall i :: 0 <= i < |tasks| ==> tasks[i].Waiting?) ==> Successes(tasks) == 0
    ensures (forall i :: 0 <= i < |tasks| ==> tasks[i].Ended? && !tasks[i].failed) ==> Successes(tasks) == |tasks|
  {
    if tasks != [] {
      SuccessesOf(tasks[1..]);
    }
  }

  lemma {:induction false} SuccessesTakeTime(steps: seq<Step>, cfg: Config, store: Store, now: nat, schedule: seq<nat>)
    ensures var b := RunBlock(steps, cfg, store, now, schedule); b.now >= now + STEP_COST_MS * Successes(b.tasks)
    decreases |schedule|
  {
    hide RunEffects, BackoffMs, Successes;
    if schedule == [] {
      SuccessesOf(Submitted(steps, store, now).tasks);
    } else {
      var last := |schedule| - 1;
      var before, i := RunBlock(steps, cfg, store, now, schedule[..last]), schedule[last];
      SuccessesTakeTime(steps, cfg, store, now, schedule[..last]);
      var after := RunBlock(steps, cfg, store, now, schedule);
      assert after == Advance(steps, cfg, before, i);
      if i < |steps| && !before.tasks[i].Ended? {
        OneMore(before.tasks, i, after.tasks[i]);
        assert after.tasks == before.tasks[i := after.tasks[i]];
      }
    }
  }

  /** A settled block of which nothing fails takes at least a step's cost per step. */
  lemma BlockTakesTime(steps: seq<Step>, cfg: Config, store: Store, now: nat, schedule: seq<nat>)
    requires var b := RunBlock(steps, cfg, store, now, schedule); Settled(b.tasks) && !AnyFails(b.tasks)
    ensures var b := RunBlock(steps, cfg, store, now, schedule);
            b.now >= now + STEP_COST_MS * |steps| && |BlockSpans(steps, b.tasks)| == |steps|
  {
    hide RunBlock, Successes, BlockSpans;
    var b := RunBlock(steps, cfg, store, now, schedule);
    SuccessesTakeTime(steps, cfg, store, now, schedule);
    forall i | 0 <= i < |b.tasks| ensures b.tasks[i].Ended? && !b.tasks[i].failed {
      assert !Fails(b.tasks[i]);
    }
    SuccessesOf(b.tasks);
    EachHasASpan(steps, b.tasks);
  }

  lemma {:induction false} EachHasASpan(steps: seq<Step>, tasks: seq<Task>)
    requires |steps| == |tasks| && forall i :: 0 <= i < |tasks| ==> tasks[i].Ended?
    ensures |BlockSpans(steps, tasks)| == |steps|
  {
    if steps != [] {
      EachHasASpan(steps[1..], tasks[1..]);
    }
  }

  // ---- After the deadline --------------------------------------------------------------

  predicate NoneStarted(tasks: seq<Task>) {
    forall i :: 0 <= i < |tasks| ==> tasks[i].Waiting? || tasks[i] == Ended([], true)
  }

  /** A block that starts after the deadline executes nothing. */
  lemma {:induction false} LateBlock(steps: seq<Step>, cfg: Config, store: Store, now: nat, schedule: seq<nat>)
    requires Late(cfg, now)
    ensures var b := RunBlock(steps, cfg, store, now, schedule);
            b.store == store && b.now == now && NoneStarted(b.tasks)
    decreases |schedule|
  {
    if schedule != [] {
      LateBlock(steps, cfg, store, now, schedule[..|schedule| - 1]);
    }
  }

  lemma {:induction false} LateSpans(steps: seq<Step>, tasks: seq<Task>)
    requires |steps| == |tasks| && NoneStarted(tasks)
    ensures forall k :: 0 <= k < |BlockSpans(steps, tasks)| ==> BlockSpans(steps, tasks)[k].kinds == []
    ensures (exists i :: 0 <= i < |tasks| && tasks[i].Ended?) ==> BlockSpans(steps, tasks) != []
  {
    if steps != [] {
      LateSpans(steps[1..], tasks[1..]);
      if i :| 0 <= i < |tasks| && tasks[i].Ended? {
        assert i > 0 ==> tasks[1..][i - 1].Ended?;
      }
    }
  }

  /** Settled, it has failed, and its spans are empty. */
  lemma LateBlockFails(steps: seq<Step>, cfg: Config, store: Store, now: nat, schedule: seq<nat>)
    requires steps != [] && Late(cfg, now) && Settled(RunBlock(steps, cfg, store, now, schedule).tasks)
    ensures var b := RunBlock(steps, cfg, store, now, schedule);
            var spans := BlockSpans(steps, b.tasks);
            AnyFails(b.tasks) && b.now == now && spans != [] && spans[|spans| - 1].kinds == []
  {
    hide RunBlock, BlockSpans;
    var b := RunBlock(steps, cfg, store, now, schedule);
    LateBlock(steps, cfg, store, now, schedule);
    LateSpans(steps, b.tasks);
    var i :| 0 <= i < |b.tasks| && b.tasks[i].Ended?;
    assert Fails(b.tasks[i]);
  }
}
