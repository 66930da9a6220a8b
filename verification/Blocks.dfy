/** A `parallel` block (`_run_parallel_block`, `_execute_step_with_retry` in `impl/lnpl/interp.py`):
    every step is submitted, each attempt runs under the block's lock, and the order of the attempts
    is the schedule's. A step's failure stops what has not started and the retries that have not
    begun, at a moment the schedule chooses. */
module Blocks {
  import opened Wrappers
  import opened Workflow
  import opened Attempts

  datatype Span = Span(name: string, kinds: seq<string>)

  // `Retrying` has failed and waits for its next attempt.
  datatype Task = Waiting | Retrying(attempts: nat, kinds: seq<string>) | Ended(kinds: seq<string>, failed: bool)

  datatype Block = Block(store: Store, now: nat, tasks: seq<Task>)

  function Submitted(steps: seq<Step>, store: Store, now: nat): Block {
    Block(store, now, seq(|steps|, _ => Waiting))
  }

  /** The attempts a task has made, and the effects they left on its span. */
  function Made(task: Task): nat {
    if task.Retrying? then task.attempts else 0
  }

  function Kinds0(task: Task): seq<string> {
    if task.Waiting? then [] else task.kinds
  }

  /** The next attempt at step `i`, if it has one to make. */
  function Advance(steps: seq<Step>, cfg: Config, b: Block, i: nat): (after: Block)
    requires |b.tasks| == |steps|
    ensures |after.tasks| == |steps| && after.now >= b.now
  {
    if i >= |steps| || b.tasks[i].Ended? then b
    else
      var kinds, n := Kinds0(b.tasks[i]), Made(b.tasks[i]) + 1;
      if Late(cfg, b.now) then b.(tasks := b.tasks[i := Ended(kinds, true)])
      else
        var a := RunEffects(steps[i].effects, b.store, cfg);
        var ended := b.now + AttemptCost(steps[i].effects, a, cfg);
        if !a.failed || !Retryable(steps[i], cfg, n) || Late(cfg, ended + BackoffMs(n))
        then Block(a.store, ended, b.tasks[i := Ended(kinds + a.kinds, a.failed)])
        else Block(a.store, ended + BackoffMs(n), b.tasks[i := Retrying(n, kinds + a.kinds)])
  }

  function Scheduled(steps: seq<Step>, cfg: Config, b: Block, schedule: seq<nat>): (after: Block)
    requires |b.tasks| == |steps|
    ensures |after.tasks| == |steps| && after.now >= b.now
    decreases |schedule|
  {
    if schedule == [] then b
    else
      var last := |schedule| - 1;
      Advance(steps, cfg, Scheduled(steps, cfg, b, schedule[..last]), schedule[last])
  }

  function RunBlock(steps: seq<Step>, cfg: Config, store: Store, now: nat, schedule: seq<nat>): (after: Block)
    ensures |after.tasks| == |steps| && after.now >= now
  {
    Scheduled(steps, cfg, Submitted(steps, store, now), schedule)
  }

  predicate Fails(task: Task) {
    task.Retrying? || (task.Ended? && task.failed)
  }

  /** The block is over: every step ended, or one of them failed for good. */
  predicate Settled(tasks: seq<Task>) {
    || (forall i :: 0 <= i < |tasks| ==> tasks[i].Ended?)
    || (exists i :: 0 <= i < |tasks| && tasks[i].Ended? && tasks[i].failed)
  }

  predicate AnyFails(tasks: seq<Task>) {
    exists i :: 0 <= i < |tasks| && Fails(tasks[i])
  }

  /** The spans of the steps that started, in written order. */
  function BlockSpans(steps: seq<Step>, tasks: seq<Task>): seq<Span>
    requires |steps| == |tasks|
  {
    if steps == [] then []
    else
      (if tasks[0].Waiting? then [] else [Span(steps[0].name, tasks[0].kinds)]) + BlockSpans(steps[1..], tasks[1..])
  }

  // ---- Every block can settle ----------------------------------------------------------

  lemma {:induction false} ScheduledFirst(steps: seq<Step>, cfg: Config, b: Block, i: nat, rest: seq<nat>)
    requires |b.tasks| == |steps|
    ensures Scheduled(steps, cfg, b, [i] + rest) == Scheduled(steps, cfg, Advance(steps, cfg, b, i), rest)
    decreases |rest|
  {
    hide Advance;
    var all := [i] + rest;
    if rest == [] {
      assert all[..0] == [] && all[0] == i;
    } else {
      assert all[..|all| - 1] == [i] + rest[..|rest| - 1];
      ScheduledFirst(steps, cfg, b, i, rest[..|rest| - 1]);
    }
  }

  /** Attempts that the tasks may still make. */
  function AttemptsLeft(tasks: seq<Task>): nat {
    if tasks == [] then 0
    else
      (if tasks[0].Ended? || Made(tasks[0]) >= MAX_STEP_ATTEMPTS then 0 else MAX_STEP_ATTEMPTS - Made(tasks[0]))
      + AttemptsLeft(tasks[1..])
  }

  lemma {:induction false} AttemptsFall(tasks: seq<Task>, i: nat, task: Task)
    requires i < |tasks| && !tasks[i].Ended? && Made(tasks[i]) < MAX_STEP_ATTEMPTS
    requires task.Ended? || Made(task) > Made(tasks[i])
    ensures AttemptsLeft(tasks[i := task]) < AttemptsLeft(tasks)
  {
    if i == 0 {
      assert tasks[0 := task][1..] == tasks[1..];
    } else {
      assert tasks[i := task][1..] == tasks[1..][i - 1 := task];
      AttemptsFall(tasks[1..], i - 1, task);
    }
  }

  predicate Bounded(tasks: seq<Task>) {
    forall i :: 0 <= i < |tasks| ==> Made(tasks[i]) < MAX_STEP_ATTEMPTS
  }

  /** An executor that goes on settles any block: the attempts run out. */
  lemma {:induction false} CanSettle(steps: seq<Step>, cfg: Config, b: Block) returns (schedule: seq<nat>)
    requires |b.tasks| == |steps| && Bounded(b.tasks)
    ensures Settled(Scheduled(steps, cfg, b, schedule).tasks)
    decreases AttemptsLeft(b.tasks)
  {
    schedule := [];
    if !Settled(b.tasks) {
      hide RunEffects, BackoffMs, AttemptCost, AttemptsLeft;
      var i :| 0 <= i < |b.tasks| && !b.tasks[i].Ended?;
      var after := Advance(steps, cfg, b, i);
      AttemptsFall(b.tasks, i, after.tasks[i]);
      assert after.tasks == b.tasks[i := after.tasks[i]];
      var rest := CanSettle(steps, cfg, after);
      ScheduledFirst(steps, cfg, b, i, rest);
      schedule := [i] + rest;
    }
  }

  /** A block whose clock stays before the deadline runs as if there were none. */
  lemma {:induction false} BlockInTime(steps: seq<Step>, cfg: Config, b: Block, schedule: seq<nat>)
    requires |b.tasks| == |steps| && !Late(cfg, Scheduled(steps, Untimed(cfg), b, schedule).now)
    ensures Scheduled(steps, cfg, b, schedule) == Scheduled(steps, Untimed(cfg), b, schedule)
    decreases |schedule|
  {
    if schedule != [] {
      var last := |schedule| - 1;
      var before := Scheduled(steps, Untimed(cfg), b, schedule[..last]);
      BlockInTime(steps, cfg, b, schedule[..last]);
      if schedule[last] < |steps| {
        TimeoutUnread(steps[schedule[last]].effects, before.store, cfg);
      }
    }
  }
}
