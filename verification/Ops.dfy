/** The op stream (`_lnpl_ops` in `impl/lnpl/backend.py`): the flattened steps numbered and given
    their unroll rounds, and the static scan for the effect that fails. */
module Ops {
  import opened Wrappers
  import opened Text
  import opened Workflow
  import opened Attempts
  import opened Retry

  datatype Op = Op(id: string, name: string, index: nat, guard: Option<Guard>, round: Option<nat>, effects: seq<Effect>)

  // ---- Numbering -----------------------------------------------------------------------

  /** Occurrences of a node id among the first `k` entries. */
  function Count(flats: seq<Flat>, id: string, k: nat): nat
    requires k <= |flats|
  {
    if k == 0 then 0 else Count(flats, id, k - 1) + if flats[k - 1].step.id == id then 1 else 0
  }

  /** The unroll round of entry `k`: its occurrence number, for an id that occurs again. */
  function RoundOf(flats: seq<Flat>, k: nat): Option<nat>
    requires k < |flats|
  {
    var id := flats[k].step.id;
    if Count(flats, id, |flats|) > 1 then Some(Count(flats, id, k + 1)) else None
  }

  function OpOf(flats: seq<Flat>, k: nat): Op
    requires k < |flats|
  {
    var step := flats[k].step;
    Op(step.id, step.name, k + 1, flats[k].guard, RoundOf(flats, k), step.effects)
  }

  function Numbered(flats: seq<Flat>, k: nat): (ops: seq<Op>)
    requires k <= |flats|
    ensures |ops| == k && forall i :: 0 <= i < k ==> ops[i] == OpOf(flats, i)
  {
    if k == 0 then [] else Numbered(flats, k - 1) + [OpOf(flats, k - 1)]
  }

  /** A map that counts ids, absent ids counting zero. */
  ghost predicate Counts(m: map<string, nat>, flats: seq<Flat>, k: nat)
    requires k <= |flats|
  {
    forall id :: (if id in m then m[id] else 0) == Count(flats, id, k)
  }

  method CountIds(flats: seq<Flat>) returns (occurrences: map<string, nat>)
    ensures Counts(occurrences, flats, |flats|)
  {
    occurrences := map[];
    for k := 0 to |flats|
      invariant Counts(occurrences, flats, k)
    {
      var id := flats[k].step.id;
      occurrences := occurrences[id := (if id in occurrences then occurrences[id] else 0) + 1];
    }
  }

  /** The entries of an id among the first `k`. */
  function Occurrences(flats: seq<Flat>, id: string, k: nat): set<nat>
    requires k <= |flats|
  {
    set j: nat | j < k && flats[j].step.id == id
  }

  lemma {:induction false} CountsOccurrences(flats: seq<Flat>, id: string, k: nat)
    requires k <= |flats|
    ensures Count(flats, id, k) == |Occurrences(flats, id, k)|
  {
    if k > 0 {
      CountsOccurrences(flats, id, k - 1);
      assert Occurrences(flats, id, k)
          == Occurrences(flats, id, k - 1) + if flats[k - 1].step.id == id then {k - 1} else {};
    }
  }

  /** Counting first keeps the round marker off the ids that occur once. */
  method NumberOps(flats: seq<Flat>) returns (ops: seq<Op>)
    ensures ops == Numbered(flats, |flats|)
  {
    var occurrences := CountIds(flats);
    var rounds: map<string, nat> := map[];
    ops := [];
    for k := 0 to |flats|
      invariant ops == Numbered(flats, k)
      invariant forall id :: Count(flats, id, |flats|) > 1 ==>
                  (if id in rounds then rounds[id] else 0) == Count(flats, id, k)
    {
      var step := flats[k].step;
      CountGrows(flats, step.id, k + 1, |flats|);
      var round: Option<nat> := None;
      if occurrences[step.id] > 1 {
        rounds := rounds[step.id := (if step.id in rounds then rounds[step.id] else 0) + 1];
        round := Some(rounds[step.id]);
      }
      ops := ops + [Op(step.id, step.name, k + 1, flats[k].guard, round, step.effects)];
    }
  }

  lemma {:induction false} CountGrows(flats: seq<Flat>, id: string, j: nat, k: nat)
    requires j <= k <= |flats|
    ensures Count(flats, id, j) <= Count(flats, id, k)
  {
    if j < k {
      CountGrows(flats, id, j, k - 1);
    }
  }

  /** The ops are the entries numbered from 1; an entry whose id occurs again carries the number of its
      occurrence. */
  lemma NumberedMeans(flats: seq<Flat>)
    ensures var ops := Numbered(flats, |flats|);
            forall k :: 0 <= k < |ops| ==>
              && ops[k].index == k + 1 && ops[k].id == flats[k].step.id && ops[k].name == flats[k].step.name
              && ops[k].guard == flats[k].guard && ops[k].effects == flats[k].step.effects
              && ops[k].round == if |Occurrences(flats, flats[k].step.id, |flats|)| == 1 then None
                                 else Some(|Occurrences(flats, flats[k].step.id, k + 1)|)
  {
    hide Occurrences, Numbered;
    forall k | 0 <= k < |flats|
      ensures RoundOf(flats, k) == if |Occurrences(flats, flats[k].step.id, |flats|)| == 1 then None
                                   else Some(|Occurrences(flats, flats[k].step.id, k + 1)|)
    {
      var id := flats[k].step.id;
      CountGrows(flats, id, k + 1, |flats|);
      CountsOccurrences(flats, id, |flats|);
      CountsOccurrences(flats, id, k + 1);
    }
  }

  // ---- The scan ------------------------------------------------------------------------

  // The entry the run stops at and the effect of it that fails.
  datatype Cut = Cut(entry: nat, failAt: nat)

  /** Whether the scan sees the effect fail: nothing it knows tells it of driver faults. */
  predicate Foretold(effect: Effect, rows: Store, cfg: Config) {
    match effect
    case RepositoryCall(Read, e) => Row(e) !in rows
    case RepositoryCall(Query, _) => false
    case RepositoryCall(Create, e) => !cfg.hasId || Row(e) in rows
    case RepositoryCall(Update, e) => Row(e) !in rows
    case RepositoryCall(Delete, e) => Row(e) !in rows
    case CacheAccess(Set) => !cfg.cacheBudget
    case Validation(rejects) => rejects
    case _ => false
  }

  /** The rows the scan tracks: it does not follow assignments. What it knows of bound rows it never
      asks. */
  function TrackedAfter(effect: Effect, rows: Store): Store {
    if effect.Assignment? then rows else After(effect, rows)
  }

  /** The scan of one step, as an attempt. */
  function Scan(effects: seq<Effect>, rows: Store, cfg: Config): (a: Attempt)
    ensures |a.kinds| <= |effects|
    ensures a.failed ==> a.kinds != []
    ensures !a.failed ==> a.kinds == Kinds(effects)
  {
    if effects == [] then Attempt(rows, [], false)
    else if Foretold(effects[0], rows, cfg) then Attempt(rows, [effects[0].Kind()], true)
    else
      var rest := Scan(effects[1..], TrackedAfter(effects[0], rows), cfg);
      Attempt(rest.store, [effects[0].Kind()] + rest.kinds, rest.failed)
  }

  /** Where the unguarded entries from `k` on first fail, as far as the scan sees. */
  function FirstFailure(flats: seq<Flat>, k: nat, rows: Store, cfg: Config): (cut: Option<Cut>)
    requires k <= |flats|
    ensures cut.Some? ==> k <= cut.value.entry < |flats| && flats[cut.value.entry].guard.None?
                          && cut.value.failAt < |flats[cut.value.entry].step.effects|
    decreases |flats| - k
  {
    if k == |flats| then None
    else if flats[k].guard.Some? then FirstFailure(flats, k + 1, rows, cfg)
    else
      var a := Scan(flats[k].step.effects, rows, cfg);
      if a.failed then Some(Cut(k, |a.kinds| - 1)) else FirstFailure(flats, k + 1, a.store, cfg)
  }

  lemma ScanStep(effects: seq<Effect>, k: nat, rows: Store, cfg: Config)
    requires k < |effects|
    ensures var a := Scan(effects[k..], rows, cfg);
            if Foretold(effects[k], rows, cfg) then a.failed && |a.kinds| == 1
            else var rest := Scan(effects[k + 1..], TrackedAfter(effects[k], rows), cfg);
                 a.failed == rest.failed && |a.kinds| == |rest.kinds| + 1 && a.store == rest.store
  {
    assert effects[k..][1..] == effects[k + 1..];
  }

  /** The rows of a store are those of the entities. */
  ghost predicate HasRows(store: Store, entities: set<string>) {
    forall e :: Row(e) in store <==> e in entities
  }

  /** The scan of one step. The seeded entities and the created ones together are, all the way,
      the entities that have a row. */
  method ScanEffects(effects: seq<Effect>, cfg: Config, seeded: set<string>, created: set<string>, ghost rows: Store)
    returns (failAt: Option<nat>, seededNow: set<string>, createdNow: set<string>)
    requires HasRows(rows, seeded + created)
    ensures var a := Scan(effects, rows, cfg);
            match failAt
            case None => !a.failed && HasRows(a.store, seededNow + createdNow)
            case Some(n) => a.failed && |a.kinds| == n + 1
  {
    seededNow, createdNow := seeded, created;
    ghost var all, now := Scan(effects, rows, cfg), rows;
    assert effects[0..] == effects;
    for k := 0 to |effects|
      invariant HasRows(now, seededNow + createdNow)
      invariant var rest := Scan(effects[k..], now, cfg);
                all.failed == rest.failed && |all.kinds| == k + |rest.kinds| && all.store == rest.store
    {
      ScanStep(effects, k, now, cfg);
      match effects[k] {
        case CacheAccess(Set) =>
          if !cfg.cacheBudget {
            return Some(k), seededNow, createdNow;
          }
        case RepositoryCall(Read, entity) =>
          if entity !in seededNow && entity !in createdNow {
            return Some(k), seededNow, createdNow;
          }
        case RepositoryCall(Update, entity) =>
          if entity !in seededNow && entity !in createdNow {
            return Some(k), seededNow, createdNow;
          }
        case RepositoryCall(Delete, entity) =>
          if entity !in seededNow && entity !in createdNow {
            return Some(k), seededNow, createdNow;
          }
          seededNow, createdNow := seededNow - {entity}, createdNow - {entity};
        case RepositoryCall(Create, entity) =>
          if !cfg.hasId || entity in seededNow || entity in createdNow {
            return Some(k), seededNow, createdNow;
          }
          createdNow := createdNow + {entity};
        case Validation(rejects) =>
          if rejects {
            return Some(k), seededNow, createdNow;
          }
        case _ =>
      }
      now := TrackedAfter(effects[k], now);
    }
    failAt := None;
  }

  // ---- The stream ----------------------------------------------------------------------

  /** The prediction of `FailureAttempts`. */
  function StaticAttempts(effects: seq<Effect>, failAt: nat, before: nat, retry: int, timeout: Option<int>): nat
    requires failAt < |effects|
  {
    if retry <= 0 || !AllIdempotent(effects) then 1
    else LastAttempt(Budget(STEP_COST_MS * before, MissCost(effects[failAt]), retry, timeout), 1)
  }

  /** One copy of the failing prefix per attempt. */
  function Truncated(op: Op, failAt: nat, attempts: nat): Op
    requires failAt < |op.effects|
  {
    op.(effects := Times(op.effects[..failAt + 1], attempts))
  }

  // The op stream, and whether the run's terminal status is `failed`.
  datatype Stream = Stream(ops: seq<Op>, failed: bool)

  function StreamOf(flats: seq<Flat>, seeded: Store, cfg: Config): Stream {
    match FirstFailure(flats, 0, seeded, cfg)
    case None => Stream(Numbered(flats, |flats|), false)
    case Some(cut) =>
      var op := OpOf(flats, cut.entry);
      var attempts := StaticAttempts(op.effects, cut.failAt, cut.entry, cfg.retry, cfg.timeout);
      Stream(Numbered(flats, cut.entry) + [Truncated(op, cut.failAt, attempts)], true)
  }

  method RepeatEffects(effects: seq<Effect>, n: nat) returns (out: seq<Effect>)
    ensures out == Times(effects, n)
  {
    out := [];
    for k := 0 to n
      invariant out == Times(effects, k)
    {
      out := out + effects;
    }
  }

  lemma NumberedPrefix(flats: seq<Flat>, k: nat)
    requires k <= |flats|
    ensures Numbered(flats, |flats|)[..k] == Numbered(flats, k)
  {
  }

  method LnplOps(flats: seq<Flat>, seeded: set<string>, cfg: Config) returns (stream: Stream)
    ensures stream == StreamOf(flats, Seeded(seeded), cfg)
  {
    hide Scan, LastAttempt, MissCost, AllIdempotent, Numbered, RoundOf, Times;
    var ops := NumberOps(flats);
    var seededNow, created := seeded, {};
    ghost var rows := Seeded(seeded);
    for cut := 0 to |ops|
      invariant HasRows(rows, seededNow + created)
      invariant FirstFailure(flats, 0, Seeded(seeded), cfg) == FirstFailure(flats, cut, rows, cfg)
    {
      if ops[cut].guard.None? {
        var failAt: Option<nat>;
        failAt, seededNow, created := ScanEffects(ops[cut].effects, cfg, seededNow, created, rows);
        if failAt.Some? {
          var attempts := FailureAttempts(ops[cut].effects, failAt.value, cut, cfg.retry, cfg.timeout);
          var prefix := RepeatEffects(ops[cut].effects[..failAt.value + 1], attempts);
          NumberedPrefix(flats, cut);
          return Stream(ops[..cut] + [ops[cut].(effects := prefix)], true);
        }
        rows := Scan(ops[cut].effects, rows, cfg).store;
      }
    }
    stream := Stream(ops, false);
  }
}
