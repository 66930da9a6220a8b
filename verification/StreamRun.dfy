/** What a compiled stream tells about its run, and how the skips are read back from what the
    binary printed (`ran_step_indices`, `restore_skips` in `impl/lnpl/backend.py`). */
module StreamRun {
  import opened Wrappers
  import opened Text
  import opened Workflow
  import opened Flattening
  import opened Attempts
  import opened Blocks
  import opened Interp
  import opened Events
  import opened SkipGrain
  import opened Retry
  import opened RetryTrace
  import opened Ops
  import opened Prediction

  predicate Taken(op: Op, takes: Outcomes) {
    op.guard.None? || takes(op.guard.value)
  }

  /** The spans of the steps whose guard is taken. */
  function OpSpans(ops: seq<Op>, takes: Outcomes): seq<Span> {
    if ops == [] then []
    else (if Taken(ops[0], takes) then [Span(ops[0].name, Kinds(ops[0].effects))] else []) + OpSpans(ops[1..], takes)
  }

  /** Round 1's absence already says that an `until` ran no round. */
  predicate LaterRound(op: Op) {
    op.guard.Some? && op.guard.value.mode.Until? && op.round.Some? && op.round.value != 1
  }

  function OpSkips(ops: seq<Op>, takes: Outcomes): seq<SkipEntry> {
    if ops == [] then []
    else
      (if Taken(ops[0], takes) || LaterRound(ops[0]) then [] else [EntryOf(ops[0].guard.value, ops[0].name)])
      + OpSkips(ops[1..], takes)
  }

  // ---- Reading skips back --------------------------------------------------------------

  /** The record of a planned guarded step whose index was not printed. */
  function Absence(op: Op, ran: set<string>): seq<SkipEntry> {
    if op.guard.None? || Decimal(op.index) in ran || LaterRound(op) then []
    else [EntryOf(op.guard.value, op.name)]
  }

  function Restored(ops: seq<Op>, ran: set<string>): seq<SkipEntry> {
    if ops == [] then [] else Absence(ops[0], ran) + Restored(ops[1..], ran)
  }

  lemma RestoredStep(skips: seq<SkipEntry>, ops: seq<Op>, k: nat, ran: set<string>)
    requires k < |ops|
    ensures (skips + Absence(ops[k], ran)) + Restored(ops[k + 1..], ran) == skips + Restored(ops[k..], ran)
  {
    assert ops[k..][1..] == ops[k + 1..];
  }

  method RestoreSkips(ops: seq<Op>, ran: set<string>) returns (skips: seq<SkipEntry>)
    ensures skips == Restored(ops, ran)
  {
    skips := [];
    assert ops[0..] == ops && skips + Restored(ops, ran) == Restored(ops, ran);
    assert Restored([], ran) == [];
    hide Restored, GuardText;
    for k := 0 to |ops|
      invariant skips + Restored(ops[k..], ran) == Restored(ops, ran)
    {
      RestoredStep(skips, ops, k, ran);
      var op := ops[k];
      if op.guard.None? || Decimal(op.index) in ran {
        assert skips + Absence(op, ran) == skips;
        continue;
      }
      var guard := op.guard.value;
      var round := if op.round.Some? then op.round.value else 1;
      if guard.mode.Until? && round != 1 {
        assert skips + Absence(op, ran) == skips;
        continue;
      }
      var rounds := if guard.mode.Until? then Some(0) else None;
      skips := skips + [SkipEntry(guard.mode, GuardText(guard), op.name, rounds)];
    }
    assert ops[|ops|..] == [] && skips + [] == skips;
  }

  /** The indices a run prints. */
  function Printed(ops: seq<Op>, takes: Outcomes): set<string> {
    set k | 0 <= k < |ops| && Taken(ops[k], takes) :: Decimal(ops[k].index)
  }

  predicate DistinctIndices(ops: seq<Op>) {
    forall j, k :: 0 <= j < k < |ops| ==> ops[j].index != ops[k].index
  }

  lemma PrintedExactly(ops: seq<Op>, takes: Outcomes, k: nat)
    requires k < |ops| && DistinctIndices(ops)
    ensures Decimal(ops[k].index) in Printed(ops, takes) <==> Taken(ops[k], takes)
  {
    if Decimal(ops[k].index) in Printed(ops, takes) {
      var j :| 0 <= j < |ops| && Taken(ops[j], takes) && Decimal(ops[j].index) == Decimal(ops[k].index);
      DecimalInjective(ops[j].index, ops[k].index);
    }
  }

  lemma {:induction false} RestoredFrom(ops: seq<Op>, takes: Outcomes, k: nat)
    requires k <= |ops| && DistinctIndices(ops)
    ensures Restored(ops[k..], Printed(ops, takes)) == OpSkips(ops[k..], takes)
    decreases |ops| - k
  {
    if k < |ops| {
      hide DistinctIndices, Printed;
      PrintedExactly(ops, takes, k);
      assert ops[k..][1..] == ops[k + 1..];
      RestoredFrom(ops, takes, k + 1);
    }
  }

  /** Reading the absences of a run back gives the steps it skipped. */
  lemma RestoredIsSkipped(ops: seq<Op>, takes: Outcomes)
    requires DistinctIndices(ops)
    ensures Restored(ops, Printed(ops, takes)) == OpSkips(ops, takes)
  {
    RestoredFrom(ops, takes, 0);
    assert ops[0..] == ops;
  }

  /** The later rounds of an `until` that is not taken. */
  function SilentRounds(ops: seq<Op>, takes: Outcomes): nat {
    if ops == [] then 0
    else (if !Taken(ops[0], takes) && LaterRound(ops[0]) then 1 else 0) + SilentRounds(ops[1..], takes)
  }

  /** Printed and skipped steps account for the whole plan, but for the rounds round 1 speaks for. */
  lemma {:induction false} PlanAccountedFor(ops: seq<Op>, takes: Outcomes)
    ensures |OpSpans(ops, takes)| + |OpSkips(ops, takes)| + SilentRounds(ops, takes) == |ops|
  {
    hide Taken, LaterRound, Kinds;
    if ops != [] {
      PlanAccountedFor(ops[1..], takes);
    }
  }

  // ---- The stream tells the run --------------------------------------------------------

  /** The stream from entry `k` on. */
  function TailOps(flats: seq<Flat>, k: nat, rows: Store, cfg: Config): seq<Op>
    requires k <= |flats|
    decreases |flats| - k
  {
    if k == |flats| then []
    else if flats[k].guard.Some? then [OpOf(flats, k)] + TailOps(flats, k + 1, rows, cfg)
    else
      var a := Scan(flats[k].step.effects, rows, cfg);
      if a.failed then
        [Truncated(OpOf(flats, k), |a.kinds| - 1,
                   StaticAttempts(flats[k].step.effects, |a.kinds| - 1, k, cfg.retry, cfg.timeout))]
      else [OpOf(flats, k)] + TailOps(flats, k + 1, a.store, cfg)
  }

  lemma {:induction false} CompiledTail(flats: seq<Flat>, k: nat, rows: Store, seeded: Store, cfg: Config)
    requires k <= |flats| && FirstFailure(flats, 0, seeded, cfg) == FirstFailure(flats, k, rows, cfg)
    ensures StreamOf(flats, seeded, cfg)
         == Stream(Numbered(flats, k) + TailOps(flats, k, rows, cfg), FirstFailure(flats, k, rows, cfg).Some?)
    decreases |flats| - k
  {
    if k == |flats| {
      assert Numbered(flats, k) + [] == Numbered(flats, k);
    } else {
      hide Scan, StaticAttempts;
      var a := Scan(flats[k].step.effects, rows, cfg);
      if flats[k].guard.Some? || !a.failed {
        var next := if flats[k].guard.Some? then rows else a.store;
        hide OpOf, StreamOf;
        CompiledTail(flats, k + 1, next, seeded, cfg);
        Assoc(Numbered(flats, k), [OpOf(flats, k)], TailOps(flats, k + 1, next, cfg));
      }
    }
  }

  // ---- Rounds --------------------------------------------------------------------------

  lemma {:induction false} CountedBefore(flats: seq<Flat>, id: string, k: nat)
    requires k <= |flats|
    ensures Count(flats, id, k) > 0 <==> id in IdsBefore(flats, k)
  {
    if k > 0 {
      CountedBefore(flats, id, k - 1);
    }
  }

  /** An entry is a later round exactly if its id came before. */
  lemma LaterRoundCameBefore(flats: seq<Flat>, k: nat)
    requires k < |flats|
    ensures (RoundOf(flats, k).Some? && RoundOf(flats, k).value != 1) <==> flats[k].step.id in IdsBefore(flats, k)
  {
    var id := flats[k].step.id;
    CountedBefore(flats, id, k);
    CountGrows(flats, id, k + 1, |flats|);
    assert Count(flats, id, k + 1) == Count(flats, id, k) + 1;
  }

  lemma {:induction false} KindsConcat(a: seq<Effect>, b: seq<Effect>)
    ensures Kinds(a + b) == Kinds(a) + Kinds(b)
  {
    if a == [] {
      assert a + b == b;
    } else {
      assert (a + b)[1..] == a[1..] + b;
      KindsConcat(a[1..], b);
    }
  }

  lemma {:induction false} KindsTimes(effects: seq<Effect>, n: nat)
    ensures Kinds(Times(effects, n)) == Times(Kinds(effects), n)
  {
    if n > 0 {
      KindsTimes(effects, n - 1);
      KindsConcat(Times(effects, n - 1), effects);
    }
  }

  lemma TruncatedKinds(effects: seq<Effect>, rows: Store, cfg: Config, n: nat)
    requires Scan(effects, rows, cfg).failed
    ensures var a := Scan(effects, rows, cfg);
            Kinds(Times(effects[..|a.kinds| - 1 + 1], n)) == Times(a.kinds, n)
  {
    hide Scan;
    var a := Scan(effects, rows, cfg);
    ScanPrefix(effects, rows, cfg);
    KindsTimes(effects[..|a.kinds|], n);
  }

  lemma OneOp(op: Op, rest: seq<Op>, takes: Outcomes)
    ensures OpSpans([op] + rest, takes)
         == (if Taken(op, takes) then [Span(op.name, Kinds(op.effects))] else []) + OpSpans(rest, takes)
    ensures OpSkips([op] + rest, takes)
         == (if Taken(op, takes) || LaterRound(op) then [] else [EntryOf(op.guard.value, op.name)]) + OpSkips(rest,
               takes)
  {
    assert ([op] + rest)[1..] == rest;
  }

  lemma OpIsEntry(flats: seq<Flat>, k: nat, takes: Outcomes)
    requires k < |flats|
    ensures var op, f := OpOf(flats, k), flats[k];
            && op.name == f.step.name && op.effects == f.step.effects && op.guard == f.guard
            && (Taken(op, takes) <==> f.guard.None? || takes(f.guard.value))
            && (LaterRound(op) <==> f.guard.Some? && f.guard.value.mode.Until? && f.step.id in IdsBefore(flats, k))
  {
    hide RoundOf, IdsBefore;
    LaterRoundCameBefore(flats, k);
  }

  /** The stream from entry `k` on tells what the scan expects. */
  lemma {:induction false} TailTells(flats: seq<Flat>, k: nat, rows: Store, takes: Outcomes, cfg: Config)
    requires k <= |flats|
    ensures Tell(flats, k, rows, takes, cfg)
         == Told(OpSpans(TailOps(flats, k, rows, cfg), takes), OpSkips(TailOps(flats, k, rows, cfg), takes),
                 FirstFailure(flats, k, rows, cfg).Some?)
    decreases |flats| - k
  {
    if k < |flats| {
      hide Scan, StaticAttempts, IdsBefore, Kinds, OpSpans, OpSkips, Times, OpOf, Taken, LaterRound;
      var f := flats[k];
      var a := Scan(f.step.effects, rows, cfg);
      OpIsEntry(flats, k, takes);
      if f.guard.None? && a.failed {
        LastTells(flats, k, rows, takes, cfg);
      } else {
        var next := if f.guard.Some? then rows else a.store;
        TailTells(flats, k + 1, next, takes, cfg);
        OneOp(OpOf(flats, k), TailOps(flats, k + 1, next, cfg), takes);
      }
    }
  }

  lemma LastTells(flats: seq<Flat>, k: nat, rows: Store, takes: Outcomes, cfg: Config)
    requires k < |flats| && flats[k].guard.None? && Scan(flats[k].step.effects, rows, cfg).failed
    ensures Tell(flats, k, rows, takes, cfg)
         == Told(OpSpans(TailOps(flats, k, rows, cfg), takes), OpSkips(TailOps(flats, k, rows, cfg), takes),
                 FirstFailure(flats, k, rows, cfg).Some?)
  {
    hide Scan, StaticAttempts, RoundOf, Kinds, Times;
    var a := Scan(flats[k].step.effects, rows, cfg);
    var n := StaticAttempts(flats[k].step.effects, |a.kinds| - 1, k, cfg.retry, cfg.timeout);
    var op := Truncated(OpOf(flats, k), |a.kinds| - 1, n);
    TruncatedKinds(flats[k].step.effects, rows, cfg, n);
    OneOp(op, [], takes);
    assert [op] + [] == [op];
    assert Taken(op, takes);
  }

  lemma StreamIndices(flats: seq<Flat>, seeded: Store, cfg: Config)
    ensures var ops := StreamOf(flats, seeded, cfg).ops;
            forall k :: 0 <= k < |ops| ==> ops[k].index == k + 1
  {
  }

  /** The compiled stream says what the scan expects, retried trace and deadline included. */
  lemma StreamTold(flats: seq<Flat>, seeded: Store, takes: Outcomes, cfg: Config)
    ensures var stream := StreamOf(flats, seeded, cfg);
            Tell(flats, 0, seeded, takes, cfg)
                == Told(OpSpans(stream.ops, takes), OpSkips(stream.ops, takes), stream.failed)
  {
    hide Scan, StreamOf, FirstFailure, TailOps, Tell, OpSpans, OpSkips;
    CompiledTail(flats, 0, seeded, seeded, cfg);
    TailTells(flats, 0, seeded, takes, cfg);
    assert Numbered(flats, 0) + TailOps(flats, 0, seeded, cfg) == TailOps(flats, 0, seeded, cfg);
  }

  /** A run is what the stream tells: spans, skips and terminal status. */
  predicate ToldBy(stream: Stream, takes: Outcomes, end: Observed) {
    && end.spans == OpSpans(stream.ops, takes)
    && end.skips == OpSkips(stream.ops, takes)
    && end.status == if stream.failed then Failed else Completed
  }

  function NothingYet(store: Store): Observed {
    Observed(store, 0, [], [], Completed)
  }

  lemma ToldIsTells(flats: seq<Flat>, seeded: Store, takes: Outcomes, cfg: Config, end: Observed)
    ensures ToldBy(StreamOf(flats, seeded, cfg), takes, end)
       <==> Tells(NothingYet(seeded), Tell(flats, 0, seeded, takes, cfg), end)
  {
    hide StreamOf, Tell, OpSpans, OpSkips;
    StreamTold(flats, seeded, takes, cfg);
    var told := Tell(flats, 0, seeded, takes, cfg);
    assert [] + told.spans == told.spans && [] + told.skips == told.skips;
  }

  /** Main result: the compiled stream tells the interpreter's run of the plan exactly if the run is on
      time; without a deadline it always is. */
  lemma StreamTellsRun(flats: seq<Flat>, seeded: Store, takes: Outcomes, cfg: Config)
    requires Predictable(flats, 0, seeded, {}, cfg) && CutRepeats(flats, 0, seeded, cfg)
    ensures ToldBy(StreamOf(flats, seeded, cfg), takes, Play(FlatEvents(flats, takes, {}), cfg, NothingYet(seeded)))
       <==> OnTime(flats, 0, seeded, 0, takes, cfg)
    ensures cfg.timeout.None? ==> OnTime(flats, 0, seeded, 0, takes, cfg)
  {
    hide Predictable, CutRepeats, StreamOf, Tell, Tells, Play, FlatEvents, OnTime, ToldBy, SameLength;
    PlanTold(flats, 0, seeded, {}, takes, cfg, NothingYet(seeded));
    EventsFromIs(flats, 0, takes);
    assert flats[0..] == flats;
    ToldIsTells(flats, seeded, takes, cfg, Play(FlatEvents(flats, takes, {}), cfg, NothingYet(seeded)));
    if cfg.timeout.None? {
      OnTimeWithout(flats, 0, seeded, 0, takes, cfg);
    }
  }
}
