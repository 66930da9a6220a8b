/** Mode A: the interpreter that walks a workflow's tree (`_flatten_items`, `run_workflow` in
    `impl/lnpl/interp.py`) on the virtual clock, for a run whose references have fixed values. */
module Interp {
  import opened Wrappers
  import opened Text
  import opened Evaluation
  import opened ConditionSyntax
  import opened Workflow
  import opened Attempts
  import opened Blocks

  // `rounds` is `None` for `when` and 0 for an `until` that never entered its body.
  datatype SkipRecord = SkipRecord(mode: GuardMode, condition: string, steps: seq<string>, rounds: Option<nat>)

  // `Raised` is a fault in a guard: the run has no result.
  datatype Status = Completed | Failed | Raised

  datatype Run = Run(store: Store, now: nat, spans: seq<Span>, skips: seq<SkipRecord>, status: Status)

  predicate Overdue(cfg: Config, now: nat) {
    cfg.timeout.Some? && now > cfg.timeout.value
  }

  /** A step on its own: it fails, or leaves the clock past the deadline, or the run goes on. */
  function RunStep(step: Step, cfg: Config, run: Run): Run {
    var t := TryStep(step, run.store, cfg, 1, run.now);
    run.(store := t.store, now := t.now, spans := run.spans + [Span(step.name, t.kinds)],
         status := if t.failed || Overdue(cfg, t.now) then Failed else run.status)
  }

  /** The truth of one guard text: a blank condition holds, a malformed one is a fault. */
  function TextVerdict(u: CharClass, text: string, scope: Scope): Verdict {
    match ParseCondition(u, text)
    case Failure(_) => GuardFault
    case Success(None) => Holds(true)
    case Success(Some(c)) => EvalCondition(c, scope)
  }

  /** The disjunction of a guard's texts. Every one is evaluated, and a fault in any is a fault. */
  function TextsVerdict(u: CharClass, texts: seq<string>, scope: Scope): Verdict {
    if texts == [] then Holds(false)
    else
      var first := TextVerdict(u, texts[0], scope);
      var rest := TextsVerdict(u, texts[1..], scope);
      if first.GuardFault? || rest.GuardFault? then GuardFault else Holds(first.truth || rest.truth)
  }

  function GuardVerdict(u: CharClass, g: Guard, scope: Scope): Verdict {
    TextsVerdict(u, GuardTexts(g), scope)
  }

  /** `guard_condition_text`. */
  function GuardText(g: Guard): string {
    Join(GuardTexts(g), " or ")
  }

  /** `_guarded_step_names`: the steps of a subtree that never ran, each once, in tree order. */
  function StepNames(body: Body): seq<string> {
    match body
    case Done => []
    case StepItem(step, rest) => [step.name] + StepNames(rest)
    case GroupItem(kids, rest) => StepNames(kids) + StepNames(rest)
    case ParallelItem(kids, rest) => StepNames(kids) + StepNames(rest)
    case RepeatItem(_, kids, rest) => StepNames(kids) + StepNames(rest)
    case GuardItem(_, kids, rest) => StepNames(kids) + StepNames(rest)
  }

  function SkipOf(g: Guard, kids: Body): SkipRecord {
    SkipRecord(g.mode, GuardText(g), StepNames(kids), if g.mode.Until? then Some(0) else None)
  }

  function Skip(g: Guard, kids: Body, run: Run): Run {
    run.(skips := run.skips + [SkipOf(g, kids)])
  }

  /** What a run reads besides its tree and its store. `schedule` orders the attempts of a parallel
      block, given its steps and the run so far. */
  datatype Inputs = Inputs(u: CharClass, scope: Scope, cfg: Config, schedule: (seq<Step>, Run) -> seq<nat>)

  /** The executor leaves no block unfinished. */
  ghost predicate Settles(inp: Inputs) {
    forall steps: seq<Step>, run: Run ::
      Settled(RunBlock(steps, inp.cfg, run.store, run.now, inp.schedule(steps, run)).tasks)
  }

  lemma BlockSettles(steps: seq<Step>, cfg: Config, run: Run)
    ensures exists schedule :: Settled(RunBlock(steps, cfg, run.store, run.now, schedule).tasks)
  {
    var schedule := CanSettle(steps, cfg, Submitted(steps, run.store, run.now));
    assert Settled(RunBlock(steps, cfg, run.store, run.now, schedule).tasks);
  }

  ghost function Settling(steps: seq<Step>, cfg: Config, run: Run): (schedule: seq<nat>)
    ensures Settled(RunBlock(steps, cfg, run.store, run.now, schedule).tasks)
  {
    BlockSettles(steps, cfg, run);
    var schedule :| Settled(RunBlock(steps, cfg, run.store, run.now, schedule).tasks);
    schedule
  }

  /** There is such an executor, whatever the configuration. */
  lemma ExecutorsSettle(inp: Inputs)
    ensures Settles(inp.(schedule := (steps, run) => Settling(steps, inp.cfg, run)))
  {
    hide RunBlock, Settled;
  }

  function RunParallel(steps: seq<Step>, inp: Inputs, run: Run): Run {
    var b := RunBlock(steps, inp.cfg, run.store, run.now, inp.schedule(steps, run));
    run.(store := b.store, now := b.now, spans := run.spans + BlockSpans(steps, b.tasks),
         status := if AnyFails(b.tasks) || (steps != [] && Overdue(inp.cfg, b.now)) then Failed else run.status)
  }

  /** The walk. A run that is no longer `Completed` goes no further. */
  function RunBody(body: Body, inp: Inputs, run: Run): (r: Run)
    ensures r.now >= run.now
    decreases body, 0, 0
  {
    if !run.status.Completed? then run
    else
      match body
      case Done => run
      case StepItem(step, rest) => RunBody(rest, inp, RunStep(step, inp.cfg, run))
      case GroupItem(kids, rest) => RunBody(rest, inp, RunBody(kids, inp, run))
      case ParallelItem(kids, rest) => RunBody(rest, inp, RunParallel(AllSteps(kids), inp, run))
      case RepeatItem(count, kids, rest) => RunBody(rest, inp, RunRepeat(count, kids, inp, run))
      case GuardItem(g, kids, rest) =>
        RunBody(rest, inp, if g.mode.When? then RunWhen(g, kids, inp, run) else RunUntil(g, kids, inp, run.now, 0, run))
  }

  function RunRepeat(count: nat, kids: Body, inp: Inputs, run: Run): (r: Run)
    ensures r.now >= run.now
    decreases kids, 1, count
  {
    if count == 0 then run else RunRepeat(count - 1, kids, inp, RunBody(kids, inp, run))
  }

  function RunWhen(g: Guard, kids: Body, inp: Inputs, run: Run): (r: Run)
    ensures r.now >= run.now
    decreases kids, 1, 0
  {
    match GuardVerdict(inp.u, g, inp.scope)
    case GuardFault => run.(status := Raised)
    case Holds(truth) => if truth then RunBody(kids, inp, run) else Skip(g, kids, run)
  }

  /** Repeats the body while the condition is false, for at most 16 rounds and until the loop's own
      deadline, counted from the clock it started at. */
  function RunUntil(g: Guard, kids: Body, inp: Inputs, start: nat, rounds: nat, run: Run): (r: Run)
    requires rounds <= UNTIL_ROUND_CAP
    ensures r.now >= run.now
    decreases kids, 1, UNTIL_ROUND_CAP - rounds
  {
    if !run.status.Completed? then run
    else
      match GuardVerdict(inp.u, g, inp.scope)
      case GuardFault => run.(status := Raised)
      case Holds(truth) =>
        if truth || (inp.cfg.timeout.Some? && run.now >= start + inp.cfg.timeout.value) || rounds == UNTIL_ROUND_CAP
        then (if rounds == 0 then Skip(g, kids, run) else run)
        else RunUntil(g, kids, inp, start, rounds + 1, RunBody(kids, inp, run))
  }

  function Started(store: Store): Run {
    Run(store, 0, [], [], Completed)
  }

  function RunWorkflow(body: Body, inp: Inputs, store: Store): Run {
    RunBody(body, inp, Started(store))
  }

  // ---- Without a deadline --------------------------------------------------------------

  function NoDeadline(inp: Inputs): Inputs {
    inp.(cfg := Untimed(inp.cfg))
  }

  /** The clock of the walk without a deadline stays before the deadline. */
  predicate InTime(body: Body, inp: Inputs, run: Run) {
    !Late(inp.cfg, RunBody(body, NoDeadline(inp), run).now)
  }

  lemma StepInTime(step: Step, cfg: Config, run: Run)
    requires !Late(cfg, RunStep(step, Untimed(cfg), run).now)
    ensures RunStep(step, cfg, run) == RunStep(step, Untimed(cfg), run)
  {
    TriesInTime(step, run.store, cfg, 1, run.now);
  }

  lemma ParallelInTime(steps: seq<Step>, inp: Inputs, run: Run)
    requires !Late(inp.cfg, RunParallel(steps, NoDeadline(inp), run).now)
    ensures RunParallel(steps, inp, run) == RunParallel(steps, NoDeadline(inp), run)
  {
    BlockInTime(steps, inp.cfg, Submitted(steps, run.store, run.now), inp.schedule(steps, run));
  }

  lemma {:induction false} RepeatInTime(count: nat, kids: Body, inp: Inputs, run: Run)
    requires !Late(inp.cfg, RunRepeat(count, kids, NoDeadline(inp), run).now)
    ensures RunRepeat(count, kids, inp, run) == RunRepeat(count, kids, NoDeadline(inp), run)
    decreases kids, 1, count
  {
    if count > 0 {
      hide RunBody;
      var next := RunBody(kids, NoDeadline(inp), run);
      RepeatInTime(count - 1, kids, inp, next);
      InTimeIsUntimed(kids, inp, run);
    }
  }

  /** One round of a loop that is taken. */
  lemma UntilStep(g: Guard, kids: Body, inp: Inputs, start: nat, rounds: nat, run: Run)
    requires rounds <= UNTIL_ROUND_CAP && GuardVerdict(inp.u, g, inp.scope) == Holds(false)
    ensures RunUntil(g, kids, inp, start, rounds, run)
         == if !run.status.Completed? then run
            else if (inp.cfg.timeout.Some? && run.now >= start + inp.cfg.timeout.value) || rounds == UNTIL_ROUND_CAP
            then (if rounds == 0 then Skip(g, kids, run) else run)
            else RunUntil(g, kids, inp, start, rounds + 1, RunBody(kids, inp, run))
  {
    hide RunBody, GuardVerdict, Skip;
  }

  lemma StillTime(cfg: Config, end: nat, now: nat, start: nat)
    requires !Late(cfg, end) && end >= now
    ensures !(cfg.timeout.Some? && now >= start + cfg.timeout.value)
  {
  }

  lemma UntilOver(g: Guard, kids: Body, inp: Inputs, start: nat, rounds: nat, run: Run)
    requires rounds <= UNTIL_ROUND_CAP
    requires !run.status.Completed? || GuardVerdict(inp.u, g, inp.scope) != Holds(false) || rounds == UNTIL_ROUND_CAP
    ensures RunUntil(g, kids, inp, start, rounds, run) == RunUntil(g, kids, NoDeadline(inp), start, rounds, run)
  {
    hide RunBody, GuardVerdict, Skip;
  }

  lemma NothingElseChanges(inp: Inputs)
    ensures NoDeadline(inp) == inp.(cfg := Untimed(inp.cfg)) && NoDeadline(inp).cfg.timeout.None?
  {
  }

  lemma {:induction false} UntilInTime(g: Guard, kids: Body, inp: Inputs, start: nat, rounds: nat, run: Run)
    requires rounds <= UNTIL_ROUND_CAP && !Late(inp.cfg, RunUntil(g, kids, NoDeadline(inp), start, rounds, run).now)
    ensures RunUntil(g, kids, inp, start, rounds, run) == RunUntil(g, kids, NoDeadline(inp), start, rounds, run)
    decreases kids, 1, UNTIL_ROUND_CAP - rounds
  {
    hide *;
    NothingElseChanges(inp);
    if run.status.Completed? && GuardVerdict(inp.u, g, inp.scope) == Holds(false) && rounds < UNTIL_ROUND_CAP {
      var next := RunBody(kids, NoDeadline(inp), run);
      UntilStep(g, kids, NoDeadline(inp), start, rounds, run);
      UntilInTime(g, kids, inp, start, rounds + 1, next);
      EndsLater(inp.cfg, next.now, RunUntil(g, kids, NoDeadline(inp), start, rounds + 1, next).now);
      assert InTime(kids, inp, run) by { InTimeIs(kids, inp, run); }
      InTimeIsUntimed(kids, inp, run);
      StillTime(inp.cfg, next.now, run.now, start);
      UntilStep(g, kids, inp, start, rounds, run);
    } else {
      UntilOver(g, kids, inp, start, rounds, run);
    }
  }

  lemma EndsLater(cfg: Config, now: nat, end: nat)
    requires end >= now && !Late(cfg, end)
    ensures !Late(cfg, now)
  {
  }

  lemma InTimeIs(body: Body, inp: Inputs, run: Run)
    ensures InTime(body, inp, run) <==> !Late(inp.cfg, RunBody(body, NoDeadline(inp), run).now)
  {
    hide RunBody;
  }

  /** A walk whose accumulated clock stays before the deadline is the walk without one. */
  lemma {:induction false} InTimeIsUntimed(body: Body, inp: Inputs, run: Run)
    requires InTime(body, inp, run)
    ensures RunBody(body, inp, run) == RunBody(body, NoDeadline(inp), run)
    decreases body, 0, 0
  {
    if run.status.Completed? {
      hide GuardVerdict, RunStep, RunParallel, RunRepeat, RunUntil;
      match body
      case Done =>
      case StepItem(step, rest) =>
        InTimeIsUntimed(rest, inp, RunStep(step, Untimed(inp.cfg), run));
        StepInTime(step, inp.cfg, run);
      case GroupItem(kids, rest) =>
        InTimeIsUntimed(rest, inp, RunBody(kids, NoDeadline(inp), run));
        InTimeIsUntimed(kids, inp, run);
      case ParallelItem(kids, rest) =>
        InTimeIsUntimed(rest, inp, RunParallel(AllSteps(kids), NoDeadline(inp), run));
        ParallelInTime(AllSteps(kids), inp, run);
      case RepeatItem(count, kids, rest) =>
        InTimeIsUntimed(rest, inp, RunRepeat(count, kids, NoDeadline(inp), run));
        RepeatInTime(count, kids, inp, run);
      case GuardItem(g, kids, rest) =>
        if g.mode.When? {
          InTimeIsUntimed(rest, inp, RunWhen(g, kids, NoDeadline(inp), run));
          WhenInTime(g, kids, inp, run);
        } else {
          InTimeIsUntimed(rest, inp, RunUntil(g, kids, NoDeadline(inp), run.now, 0, run));
          UntilInTime(g, kids, inp, run.now, 0, run);
        }
    }
  }

  lemma WhenInTime(g: Guard, kids: Body, inp: Inputs, run: Run)
    requires !Late(inp.cfg, RunWhen(g, kids, NoDeadline(inp), run).now)
    ensures RunWhen(g, kids, inp, run) == RunWhen(g, kids, NoDeadline(inp), run)
    decreases kids, 1, 0
  {
    if GuardVerdict(inp.u, g, inp.scope) == Holds(true) {
      InTimeIsUntimed(kids, inp, run);
    }
  }
}
