/** One step of mode A: its effects against the store, its retries, and the virtual clock and
    deadline they run under (`_run_step`, `_run_effect`, `_retryable`, `_backoff_ms` and the retry
    loop of `run_workflow` in `impl/lnpl/interp.py`). */
module Attempts {
  import opened Wrappers
  import opened Workflow

  const MAX_STEP_ATTEMPTS: nat := 100
  const STEP_COST_MS: nat := 5
  const READ_MISS_COST_MS: nat := 1

  // What a run has of an entity: a row in its table, and a row that a read bound to its name. One run
  // addresses one key, so a table holds at most one row.
  datatype Cell = Row(entity: string) | Bound(entity: string)

  type Store = set<Cell>

  /** A store of rows, nothing bound yet. */
  function Seeded(rows: set<string>): Store {
    set e | e in rows :: Row(e)
  }

  datatype Config = Config(
    hasId: bool,           // the payload carries an id
    cacheBudget: bool,     // the owning service declares a cache TTL
    retry: int,            // the retry budget of its policy
    timeout: Option<int>,  // the deadline of its policy, in milliseconds
    faults: set<Effect>)   // the effects that fail for a reason the document does not show

  function Untimed(cfg: Config): Config {
    cfg.(timeout := None)
  }

  // ---- Effects -------------------------------------------------------------------------

  /** Whether executing the effect raises: a driver fault or an assignment that cannot be evaluated, or
      what the document and the store say. An assignment needs a row that a read has bound. */
  predicate Raises(effect: Effect, store: Store, cfg: Config) {
    effect in cfg.faults || (
      match effect
      case RepositoryCall(Read, e) => Row(e) !in store
      case RepositoryCall(Query, _) => false
      case RepositoryCall(Create, e) => !cfg.hasId || Row(e) in store
      case RepositoryCall(Update, e) => Row(e) !in store
      case RepositoryCall(Delete, e) => Row(e) !in store
      case Assignment(e, _) => Bound(e) !in store
      case CacheAccess(Set) => !cfg.cacheBudget
      case Validation(rejects) => rejects
      case _ => false)
  }

  /** A read binds its row for the rest of the run. An assignment writes the row that is bound back,
      whether the table still has it or not. */
  function After(effect: Effect, store: Store): Store {
    match effect
    case RepositoryCall(Read, e) => store + {Bound(e)}
    case RepositoryCall(Create, e) => store + {Row(e)}
    case RepositoryCall(Delete, e) => store - {Row(e)}
    case Assignment(e, _) => store + {Row(e)}
    case _ => store
  }

  datatype Attempt = Attempt(store: Store, kinds: seq<string>, failed: bool)

  /** One attempt at a step: its effects in order, the one that raises recorded before it does
      and none after it. What it wrote stays written. */
  function RunEffects(effects: seq<Effect>, store: Store, cfg: Config): (a: Attempt)
    ensures |a.kinds| <= |effects|
    ensures a.failed ==> a.kinds != []
    ensures !a.failed ==> a.kinds == Kinds(effects)
  {
    if effects == [] then Attempt(store, [], false)
    else if Raises(effects[0], store, cfg) then Attempt(store, [effects[0].Kind()], true)
    else
      var rest := RunEffects(effects[1..], After(effects[0], store), cfg);
      Attempt(rest.store, [effects[0].Kind()] + rest.kinds, rest.failed)
  }

  predicate Idempotent(effect: Effect) {
    match effect
    case RepositoryCall(op, _) => op != Create
    case NetworkCall(_) => false
    case EventEmit(_) => false
    case _ => true
  }

  predicate AllIdempotent(effects: seq<Effect>) {
    forall k :: 0 <= k < |effects| ==> Idempotent(effects[k])
  }

  /** May attempt number `attempts`, just failed, be followed by another, as far as the budget and
      the effects go? */
  predicate Retryable(step: Step, cfg: Config, attempts: nat) {
    attempts < MAX_STEP_ATTEMPTS && attempts <= cfg.retry && AllIdempotent(step.effects)
  }

  /** A step under its retry policy alone: every attempt's effects accumulate on its span. */
  function RunAttempts(step: Step, store: Store, cfg: Config, attempts: nat): (a: Attempt)
    requires 1 <= attempts <= MAX_STEP_ATTEMPTS
    decreases MAX_STEP_ATTEMPTS - attempts
  {
    var first := RunEffects(step.effects, store, cfg);
    if !first.failed || !Retryable(step, cfg, attempts) then first
    else
      var rest := RunAttempts(step, first.store, cfg, attempts + 1);
      Attempt(rest.store, first.kinds + rest.kinds, rest.failed)
  }

  // ---- The clock -----------------------------------------------------------------------

  function Pow2(n: nat): (p: nat)
    ensures p > 0
  {
    if n == 0 then 1 else 2 * Pow2(n - 1)
  }

  /** Capped exponential backoff after attempt `attempt`. */
  function BackoffMs(attempt: nat): (ms: nat)
    requires attempt >= 1
    ensures 100 <= ms <= 1000
  {
    var ms := 100 * Pow2(attempt - 1);
    if ms < 1000 then ms else 1000
  }

  /** A row that is not there is noticed after a millisecond. */
  function MissCost(failing: Effect): nat {
    if failing.RepositoryCall? && (failing.op.Read? || failing.op.Update? || failing.op.Delete?)
    then READ_MISS_COST_MS
    else 0
  }

  /** What an attempt advances the clock by: a millisecond per effect that succeeds, a step's cost
      when all of them do, and the failing effect's own share. */
  function AttemptCost(effects: seq<Effect>, a: Attempt, cfg: Config): nat
    requires a.failed ==> 0 < |a.kinds| <= |effects|
  {
    if !a.failed then |effects| + STEP_COST_MS
    else
      var failing := effects[|a.kinds| - 1];
      |a.kinds| - 1 + if failing in cfg.faults then 0 else MissCost(failing)
  }

  predicate Late(cfg: Config, now: nat) {
    cfg.timeout.Some? && now >= cfg.timeout.value
  }

  // A step that is over: what its attempts left, how many they were, and the clock.
  datatype Tried = Tried(store: Store, kinds: seq<string>, failed: bool, attempts: nat, now: nat)

  /** The step from attempt number `attempts` on. An attempt that would start after the deadline
      fails before its first effect; one whose backoff would end after it is the last. */
  function TryStep(step: Step, store: Store, cfg: Config, attempts: nat, now: nat): (t: Tried)
    requires 1 <= attempts <= MAX_STEP_ATTEMPTS
    ensures attempts <= t.attempts <= MAX_STEP_ATTEMPTS && t.now >= now
    decreases MAX_STEP_ATTEMPTS - attempts
  {
    if Late(cfg, now) then Tried(store, [], true, attempts, now)
    else
      var first := RunEffects(step.effects, store, cfg);
      var ended := now + AttemptCost(step.effects, first, cfg);
      if !first.failed || !Retryable(step, cfg, attempts) || Late(cfg, ended + BackoffMs(attempts))
      then Tried(first.store, first.kinds, first.failed, attempts, ended)
      else
        var rest := TryStep(step, first.store, cfg, attempts + 1, ended + BackoffMs(attempts));
        Tried(rest.store, first.kinds + rest.kinds, rest.failed, rest.attempts, rest.now)
  }

  /** Without a deadline the clock decides nothing. */
  lemma {:induction false} UntimedTries(step: Step, store: Store, cfg: Config, attempts: nat, now: nat)
    requires 1 <= attempts <= MAX_STEP_ATTEMPTS && cfg.timeout.None?
    ensures var t, a := TryStep(step, store, cfg, attempts, now), RunAttempts(step, store, cfg, attempts);
            t.store == a.store && t.kinds == a.kinds && t.failed == a.failed
    decreases MAX_STEP_ATTEMPTS - attempts
  {
    hide RunEffects, AttemptCost, BackoffMs, AllIdempotent;
    var first := RunEffects(step.effects, store, cfg);
    if first.failed && Retryable(step, cfg, attempts) {
      UntimedTries(step, first.store, cfg, attempts + 1,
                   now + AttemptCost(step.effects, first, cfg) + BackoffMs(attempts));
    }
  }

  lemma {:induction false} TimeoutUnread(effects: seq<Effect>, store: Store, cfg: Config)
    ensures RunEffects(effects, store, Untimed(cfg)) == RunEffects(effects, store, cfg)
  {
    if effects != [] {
      TimeoutUnread(effects[1..], After(effects[0], store), cfg);
    }
  }

  lemma CostUntimed(effects: seq<Effect>, a: Attempt, cfg: Config)
    requires a.failed ==> 0 < |a.kinds| <= |effects|
    ensures AttemptCost(effects, a, Untimed(cfg)) == AttemptCost(effects, a, cfg)
  {
  }

  /** A step whose clock stays before the deadline runs as if there were none. */
  lemma {:induction false} TriesInTime(step: Step, store: Store, cfg: Config, attempts: nat, now: nat)
    requires 1 <= attempts <= MAX_STEP_ATTEMPTS
    requires !Late(cfg, TryStep(step, store, Untimed(cfg), attempts, now).now)
    ensures TryStep(step, store, cfg, attempts, now) == TryStep(step, store, Untimed(cfg), attempts, now)
    decreases MAX_STEP_ATTEMPTS - attempts
  {
    hide RunEffects, BackoffMs, AttemptCost;
    TimeoutUnread(step.effects, store, cfg);
    var first := RunEffects(step.effects, store, cfg);
    CostUntimed(step.effects, first, cfg);
    if first.failed && Retryable(step, cfg, attempts) {
      TriesInTime(step, first.store, cfg, attempts + 1,
                  now + AttemptCost(step.effects, first, cfg) + BackoffMs(attempts));
    }
  }
}
