/** N concurrent relays over a row-locking outbox (`_relay_batch` in `impl/lnpl/cli.py`), as a state
    machine: any peer, any interleaving, any exception. */
module RelayProtocol {
  import opened Wrappers

  // What the peer answered: delivered, rejected for good, or neither.
  datatype Answer = Confirmed | Rejected | Unconfirmed

  /** A drained batch: its rows in drain order, and the answers so far. */
  datatype Batch = Batch(rows: seq<nat>, answers: seq<Answer>) {
    predicate Valid() {
      |answers| <= |rows| && forall j, k :: 0 <= j < k < |rows| ==> rows[j] < rows[k]
    }

    /** The rows to acknowledge: those confirmed or permanently rejected. */
    function Acked(): (s: set<nat>) {
      set k | 0 <= k < |rows| && k < |answers| && !answers[k].Unconfirmed? :: rows[k]
    }

    function Locked(): set<nat> {
      set k | 0 <= k < |rows| :: rows[k]
    }
  }

  // `Begun` has drained nothing yet; `Acknowledged` has acknowledged but not committed; the commit
  // of a `Stranded` batch raised, and nothing closes its transaction but the end of its connection.
  datatype Phase = Idle | Begun | Publishing(batch: Batch) | Acknowledged(batch: Batch) | Stranded(batch: Batch) {
    predicate Valid() {
      (!Idle? && !Begun?) ==> batch.Valid() && (!Publishing? ==> |batch.answers| == |batch.rows|)
    }

    function Locked(): set<nat> {
      if Idle? || Begun? then {} else batch.Locked()
    }

    function Pending(): set<nat> {
      if Idle? || Begun? then {} else batch.Acked()
    }
  }

  datatype State = State(
    rows: set<nat>,                // every emission ever recorded
    delivered: set<nat>,           // marked delivered by a committed batch
    relays: seq<Phase>,
    begins: nat, commits: nat, rollbacks: nat,
    drops: nat,                    // transactions that ended with their connection
    confirmations: multiset<nat>,  // one per answer that confirmed or rejected a row
    undone: multiset<nat>)         // those of batches that rolled back or were dropped

  datatype Event =
    | Emit(row: nat)
    | Begin(r: nat)
    | Drain(r: nat, drained: seq<nat>, limit: Option<nat>)
    | Publish(r: nat, answer: Answer)
    | Acknowledge(r: nat)
    | Commit(r: nat)
    | Rollback(r: nat)
    | CommitRaises(r: nat)
    | ConnectionDrops(r: nat)

  // ---- Steps ---------------------------------------------------------------------------

  function LockedBy(relays: seq<Phase>): set<nat> {
    set k, row | 0 <= k < |relays| && row in relays[k].Locked() :: row
  }

  function Available(s: State): set<nat> {
    s.rows - s.delivered - LockedBy(s.relays)
  }

  /** `SELECT ... ORDER BY seq LIMIT ... FOR UPDATE SKIP LOCKED`. */
  predicate Drains(drained: seq<nat>, available: set<nat>, limit: Option<nat>) {
    && (forall j, k :: 0 <= j < k < |drained| ==> drained[j] < drained[k])
    && (forall k :: 0 <= k < |drained| ==> drained[k] in available)
    && (limit.Some? ==> |drained| <= limit.value)
    && (forall row :: row in available && row !in drained ==>
          limit.Some? && |drained| == limit.value && forall k :: 0 <= k < |drained| ==> drained[k] < row)
  }

  predicate Enabled(s: State, e: Event) {
    match e
    case Emit(row) => row !in s.rows
    case Begin(r) => r < |s.relays| && s.relays[r].Idle?
    case Drain(r, drained, limit) => r < |s.relays| && s.relays[r].Begun? && Drains(drained, Available(s), limit)
    case Publish(r, _) =>
      r < |s.relays| && s.relays[r].Publishing? && |s.relays[r].batch.answers| < |s.relays[r].batch.rows|
    case Acknowledge(r) =>
      r < |s.relays| && s.relays[r].Publishing? && |s.relays[r].batch.answers| == |s.relays[r].batch.rows|
    case Commit(r) => r < |s.relays| && s.relays[r].Acknowledged?
    case Rollback(r) => r < |s.relays| && !s.relays[r].Idle? && !s.relays[r].Stranded?
    case CommitRaises(r) => r < |s.relays| && s.relays[r].Acknowledged?
    case ConnectionDrops(r) => r < |s.relays| && !s.relays[r].Idle?
  }

  function Answered(batch: Batch, answer: Answer): Batch {
    Batch(batch.rows, batch.answers + [answer])
  }

  function Next(s: State, e: Event): State
    requires Enabled(s, e)
  {
    match e
    case Emit(row) => s.(rows := s.rows + {row})
    case Begin(r) => s.(relays := s.relays[r := Begun], begins := s.begins + 1)
    case Drain(r, drained, _) => s.(relays := s.relays[r := Publishing(Batch(drained, []))])
    case Publish(r, answer) =>
      var batch := s.relays[r].batch;
      s.(relays := s.relays[r := Publishing(Answered(batch, answer))],
         confirmations := if answer.Unconfirmed? then s.confirmations
                          else s.confirmations + multiset{batch.rows[|batch.answers|]})
    case Acknowledge(r) => s.(relays := s.relays[r := Acknowledged(s.relays[r].batch)])
    case Commit(r) =>
      s.(delivered := s.delivered + s.relays[r].Pending(), relays := s.relays[r := Idle], commits := s.commits + 1)
    case Rollback(r) =>
      s.(undone := s.undone + multiset(s.relays[r].Pending()), relays := s.relays[r := Idle],
         rollbacks := s.rollbacks + 1)
    case CommitRaises(r) => s.(relays := s.relays[r := Stranded(s.relays[r].batch)])
    case ConnectionDrops(r) =>
      s.(undone := s.undone + multiset(s.relays[r].Pending()), relays := s.relays[r := Idle], drops := s.drops + 1)
  }

  function Initial(rows: set<nat>, n: nat): State {
    State(rows, {}, seq(n, _ => Idle), 0, 0, 0, 0, multiset{}, multiset{})
  }

  // ---- The invariant -------------------------------------------------------------------

  function Pendings(relays: seq<Phase>): multiset<nat> {
    if relays == [] then multiset{} else multiset(relays[0].Pending()) + Pendings(relays[1..])
  }

  function OpenCount(relays: seq<Phase>): nat {
    if relays == [] then 0 else (if relays[0].Idle? then 0 else 1) + OpenCount(relays[1..])
  }

  predicate AllValid(relays: seq<Phase>) {
    forall k :: 0 <= k < |relays| ==> relays[k].Valid()
  }

  predicate LocksDisjoint(relays: seq<Phase>) {
    forall j, k :: 0 <= j < |relays| && 0 <= k < |relays| && j != k ==> relays[j].Locked() !! relays[k].Locked()
  }

  /** Locked rows are undelivered rows. */
  predicate LocksUndelivered(s: State) {
    forall k :: 0 <= k < |s.relays| ==> s.relays[k].Locked() <= s.rows - s.delivered
  }

  predicate LocksHold(s: State) {
    AllValid(s.relays) && LocksDisjoint(s.relays) && LocksUndelivered(s) && s.delivered <= s.rows
  }

  /** Every begin is closed by one commit or one rollback, or by the end of its connection, or is
      still open. */
  predicate BeginsMatched(s: State) {
    && s.begins == s.commits + s.rollbacks + s.drops + OpenCount(s.relays)
    && (s.rollbacks + s.drops == 0 ==> s.undone == multiset{})
  }

  /** Every answer is delivered, pending in an open batch, or undone. */
  predicate Conserved(s: State) {
    s.confirmations == multiset(s.delivered) + Pendings(s.relays) + s.undone
  }

  predicate Invariant(s: State) {
    LocksHold(s) && BeginsMatched(s) && Conserved(s)
  }

  // ---- One relay changes ---------------------------------------------------------------

  lemma {:induction false} PendingsUpdate(relays: seq<Phase>, r: nat, p: Phase)
    requires r < |relays|
    ensures Pendings(relays[r := p]) + multiset(relays[r].Pending()) == Pendings(relays) + multiset(p.Pending())
    ensures OpenCount(relays[r := p]) + (if relays[r].Idle? then 0 else 1)
         == OpenCount(relays) + if p.Idle? then 0 else 1
  {
    hide Phase.Pending;
    if r == 0 {
      assert relays[0 := p][1..] == relays[1..];
    } else {
      assert relays[r := p][1..] == relays[1..][r - 1 := p];
      PendingsUpdate(relays[1..], r - 1, p);
      AddFirst(multiset(relays[0].Pending()), Pendings(relays[1..][r - 1 := p]), multiset(relays[r].Pending()),
               Pendings(relays[1..]), multiset(p.Pending()));
    }
  }

  lemma AddFirst(f: multiset<nat>, a: multiset<nat>, o: multiset<nat>, b: multiset<nat>, n: multiset<nat>)
    requires a + o == b + n
    ensures (f + a) + o == (f + b) + n
  {
    assert (f + a) + o == f + (a + o);
    assert (f + b) + n == f + (b + n);
  }

  /** What leaves the pending answers is delivered or undone; what joins them is new. */
  lemma Rebalance(s: State, next: State, before: multiset<nat>, after: multiset<nat>)
    requires Conserved(s) && Pendings(next.relays) + before == Pendings(s.relays) + after
    requires next.confirmations + multiset(s.delivered) + before + s.undone
          == s.confirmations + multiset(next.delivered) + after + next.undone
    ensures Conserved(next)
  {
    hide Pendings;
    var c, d, p, u := s.confirmations, multiset(s.delivered), Pendings(s.relays), s.undone;
    var c2, d2, p2, u2 := next.confirmations, multiset(next.delivered), Pendings(next.relays), next.undone;
    forall row ensures c2[row] == (d2 + p2 + u2)[row] {
      assert (p2 + before)[row] == (p + after)[row];
      assert (c2 + d + before + u)[row] == (c + d2 + after + u2)[row];
      assert c[row] == (d + p + u)[row];
    }
  }

  /** Replacing one relay's phase by one that locks no other rows keeps the locks apart. */
  lemma PhaseUpdate(s: State, r: nat, p: Phase)
    requires r < |s.relays| && AllValid(s.relays) && LocksDisjoint(s.relays) && LocksUndelivered(s)
    requires p.Valid() && p.Locked() <= s.relays[r].Locked() + Available(s)
    ensures AllValid(s.relays[r := p]) && LocksDisjoint(s.relays[r := p])
    ensures LocksUndelivered(s.(relays := s.relays[r := p]))
  {
    hide Phase.Locked, Phase.Valid;
    var next := s.relays[r := p];
    forall k | 0 <= k < |next| && k != r ensures next[k].Locked() !! p.Locked() {
      assert next[k] == s.relays[k];
      forall row | row in next[k].Locked() ensures row !in p.Locked() {
        assert row in LockedBy(s.relays);
      }
    }
  }

  lemma AnsweredBatch(batch: Batch, answer: Answer)
    requires batch.Valid() && |batch.answers| < |batch.rows|
    ensures Answered(batch, answer).Valid() && Answered(batch, answer).Locked() == batch.Locked()
    ensures batch.rows[|batch.answers|] !in batch.Acked()
    ensures Answered(batch, answer).Acked()
         == batch.Acked() + if answer.Unconfirmed? then {} else {batch.rows[|batch.answers|]}
  {
    var next, n := Answered(batch, answer), |batch.answers|;
    forall row | row in batch.Acked() ensures row in next.Acked() {
      var k :| 0 <= k < n && !batch.answers[k].Unconfirmed? && batch.rows[k] == row;
      assert next.answers[k] == batch.answers[k] && next.rows[k] == row;
    }
    if !answer.Unconfirmed? {
      assert next.answers[n] == answer && next.rows[n] == batch.rows[n];
    }
  }

  lemma AckedIsLocked(p: Phase)
    requires p.Valid()
    ensures p.Pending() <= p.Locked()
  {
  }

  // ---- Every step keeps it -------------------------------------------------------------

  lemma LocksKept(s: State, e: Event)
    requires Invariant(s) && Enabled(s, e)
    ensures LocksHold(Next(s, e))
  {
    match e
    case Emit(_) =>
    case Begin(r) => PhaseUpdate(s, r, Begun);
    case Drain(r, drained, _) =>
      hide LocksDisjoint, LocksUndelivered;
      PhaseUpdate(s, r, Publishing(Batch(drained, [])));
    case Publish(r, answer) =>
      hide LocksDisjoint, LocksUndelivered, Batch.Acked, Batch.Locked, Batch.Valid;
      assert s.relays[r].Valid();
      AnsweredBatch(s.relays[r].batch, answer);
      PhaseUpdate(s, r, Publishing(Answered(s.relays[r].batch, answer)));
    case Acknowledge(r) =>
      hide LocksDisjoint, LocksUndelivered;
      assert s.relays[r].Valid();
      PhaseUpdate(s, r, Acknowledged(s.relays[r].batch));
    case Commit(r) => CommitLocks(s, r);
    case Rollback(r) => PhaseUpdate(s, r, Idle);
    case CommitRaises(r) =>
      hide LocksDisjoint, LocksUndelivered;
      assert s.relays[r].Valid();
      PhaseUpdate(s, r, Stranded(s.relays[r].batch));
    case ConnectionDrops(r) => PhaseUpdate(s, r, Idle);
  }

  lemma CommitLocks(s: State, r: nat)
    requires Invariant(s) && Enabled(s, Commit(r))
    ensures LocksHold(Next(s, Commit(r)))
  {
    assert s.relays[r].Valid() && s.relays[r].Locked() <= s.rows - s.delivered;
    AckedIsLocked(s.relays[r]);
    NothingLocked();
    hide Phase.Locked, Phase.Pending, Phase.Valid, AllValid;
    PhaseUpdate(s, r, Idle) by { assert Idle.Valid() by { IdleIsValid(); } }
    var next := Next(s, Commit(r));
    forall k | 0 <= k < |next.relays| ensures next.relays[k].Locked() <= next.rows - next.delivered {
      if k != r {
        assert s.relays[k].Locked() !! s.relays[r].Locked();
        assert s.relays[k].Locked() <= s.rows - s.delivered;
      }
    }
  }

  lemma IdleIsValid()
    ensures Idle.Valid()
  {
  }

  lemma NothingLocked()
    ensures Idle.Locked() == {} && Idle.Pending() == {} && Begun.Pending() == {}
    ensures forall drained: seq<nat> :: Publishing(Batch(drained, [])).Pending() == {}
  {
  }

  lemma CountsKept(s: State, e: Event)
    requires Invariant(s) && Enabled(s, e)
    ensures BeginsMatched(Next(s, e)) && Conserved(Next(s, e))
  {
    hide LocksHold, Phase.Pending, Pendings, OpenCount, Drains;
    var next := Next(s, e);
    NothingLocked();
    match e
    case Emit(_) =>
    case Begin(r) =>
      PendingsUpdate(s.relays, r, Begun);
      assert s.relays[r] == Idle;
      Rebalance(s, next, multiset(s.relays[r].Pending()), multiset(Begun.Pending()));
    case Drain(r, drained, _) =>
      PendingsUpdate(s.relays, r, Publishing(Batch(drained, [])));
      assert s.relays[r] == Begun;
      Rebalance(s, next, multiset(s.relays[r].Pending()), multiset(Publishing(Batch(drained, [])).Pending()));
    case Publish(r, answer) =>
      PublishCounts(s, r, answer);
    case Acknowledge(r) =>
      PendingsUpdate(s.relays, r, Acknowledged(s.relays[r].batch));
      SamePending(s.relays[r].batch);
      Rebalance(s, next, multiset(s.relays[r].Pending()), multiset(s.relays[r].Pending()));
    case Commit(r) =>
      CommitCounts(s, r);
    case Rollback(r) =>
      PendingsUpdate(s.relays, r, Idle);
      Rebalance(s, next, multiset(s.relays[r].Pending()), multiset{});
    case CommitRaises(r) =>
      PendingsUpdate(s.relays, r, Stranded(s.relays[r].batch));
      SamePending(s.relays[r].batch);
      Rebalance(s, next, multiset(s.relays[r].Pending()), multiset(s.relays[r].Pending()));
    case ConnectionDrops(r) =>
      PendingsUpdate(s.relays, r, Idle);
      Rebalance(s, next, multiset(s.relays[r].Pending()), multiset{});
  }

  lemma SamePending(batch: Batch)
    ensures Publishing(batch).Pending() == Acknowledged(batch).Pending() == Stranded(batch).Pending() == batch.Acked()
  {
  }

  lemma AnswerMoves(c: multiset<nat>, d: multiset<nat>, a: multiset<nat>, u: multiset<nat>, one: multiset<nat>)
    ensures (c + one) + d + a + u == c + d + (a + one) + u
  {
  }

  lemma PublishCounts(s: State, r: nat, answer: Answer)
    requires Invariant(s) && Enabled(s, Publish(r, answer))
    ensures BeginsMatched(Next(s, Publish(r, answer))) && Conserved(Next(s, Publish(r, answer)))
  {
    var batch, next := s.relays[r].batch, Next(s, Publish(r, answer));
    var after := Answered(batch, answer);
    assert s.relays[r].Valid();
    assert s.relays[r] == Publishing(batch);
    AnsweredBatch(batch, answer);
    SamePending(batch);
    SamePending(after);
    var row := batch.rows[|batch.answers|];
    var one := if answer.Unconfirmed? then multiset{} else multiset{row};
    assert next.confirmations == s.confirmations + one && next.relays == s.relays[r := Publishing(after)];
    assert next.delivered == s.delivered && next.undone == s.undone;
    assert BeginsMatched(next) by { PendingsUpdate(s.relays, r, Publishing(after)); }
    assert multiset(after.Acked()) == multiset(batch.Acked()) + one;
    hide *;
    PendingsUpdate(s.relays, r, Publishing(after));
    AnswerMoves(s.confirmations, multiset(s.delivered), multiset(batch.Acked()), s.undone, one);
    assert Conserved(s) by { InvariantConserves(s); }
    Rebalance(s, next, multiset(batch.Acked()), multiset(after.Acked()));
  }

  lemma InvariantConserves(s: State)
    requires Invariant(s)
    ensures Conserved(s)
  {
  }

  lemma PendingUndelivered(s: State, r: nat)
    requires LocksHold(s) && r < |s.relays|
    ensures s.relays[r].Pending() !! s.delivered
  {
    assert s.relays[r].Valid() && s.relays[r].Locked() <= s.rows - s.delivered;
    AckedIsLocked(s.relays[r]);
  }

  lemma DisjointSum(a: set<nat>, b: set<nat>)
    requires a !! b
    ensures multiset(a + b) == multiset(a) + multiset(b)
  {
  }

  lemma CommitCounts(s: State, r: nat)
    requires Invariant(s) && Enabled(s, Commit(r))
    ensures BeginsMatched(Next(s, Commit(r))) && Conserved(Next(s, Commit(r)))
  {
    hide LocksHold, Phase.Pending, Phase.Locked, Pendings, OpenCount;
    NothingLocked();
    PendingUndelivered(s, r);
    PendingsUpdate(s.relays, r, Idle);
    DisjointSum(s.delivered, s.relays[r].Pending());
    Rebalance(s, Next(s, Commit(r)), multiset(s.relays[r].Pending()), multiset(Idle.Pending()));
  }

  /** Every step of every relay, with any answer of the peer and an exception anywhere, keeps the
      locks apart, every begin matched, and every confirmation accounted for. */
  lemma StepKeepsInvariant(s: State, e: Event)
    requires Invariant(s) && Enabled(s, e)
    ensures Invariant(Next(s, e))
  {
    LocksKept(s, e);
    CountsKept(s, e);
  }

  // ---- Runs ----------------------------------------------------------------------------

  /** The state after a run, or `None` when one of its steps is not possible. */
  function After(s: State, events: seq<Event>): Option<State>
    decreases events
  {
    if events == [] then Some(s)
    else if Enabled(s, events[0]) then After(Next(s, events[0]), events[1..])
    else None
  }

  lemma {:induction false} RunKeepsInvariant(s: State, events: seq<Event>)
    requires Invariant(s) && After(s, events).Some?
    ensures Invariant(After(s, events).value)
    decreases events
  {
    hide Invariant, Next, Enabled;
    if events != [] {
      StepKeepsInvariant(s, events[0]);
      RunKeepsInvariant(Next(s, events[0]), events[1..]);
    }
  }

  lemma {:induction false} IdleRelays(relays: seq<Phase>)
    requires forall k :: 0 <= k < |relays| ==> relays[k].Idle?
    ensures Pendings(relays) == multiset{} && OpenCount(relays) == 0
  {
    if relays != [] {
      IdleRelays(relays[1..]);
    }
  }

  /** Every state that N relays reach from N idle ones satisfies the invariant. */
  lemma EveryRunIsSafe(rows: set<nat>, n: nat, events: seq<Event>)
    requires After(Initial(rows, n), events).Some?
    ensures Invariant(After(Initial(rows, n), events).value)
  {
    var s := Initial(rows, n);
    IdleRelays(s.relays);
    assert multiset(s.delivered) == multiset{};
    assert Invariant(s);
    hide After, Initial, Invariant;
    RunKeepsInvariant(s, events);
  }

  // ---- What follows --------------------------------------------------------------------

  /** The `j`-th event of a run is the answer that confirms `row`, or rejects it for good, to
      relay `r`, which is publishing a batch that holds it. */
  predicate AnswersRow(s: State, events: seq<Event>, j: nat, r: nat, row: nat) {
    && j < |events| && After(s, events[..j]).Some? && Enabled(After(s, events[..j]).value, events[j])
    && events[j].Publish? && events[j].r == r && !events[j].answer.Unconfirmed?
    && var batch := After(s, events[..j]).value.relays[r].batch;
       batch.rows[|batch.answers|] == row
  }

  /** Relay `r` closes no batch between the two moments. */
  predicate OneBatch(events: seq<Event>, j: nat, k: nat, r: nat) {
    forall i :: j < i < k && i < |events| ==>
      events[i] != Commit(r) && events[i] != Rollback(r) && events[i] != ConnectionDrops(r)
  }

  lemma {:induction false} AfterSnoc(s: State, events: seq<Event>, e: Event)
    requires After(s, events + [e]).Some?
    ensures After(s, events).Some? && Enabled(After(s, events).value, e)
    ensures After(s, events + [e]).value == Next(After(s, events).value, e)
    decreases events
  {
    hide Enabled, Next;
    if events == [] {
      assert (events + [e])[1..] == [];
    } else {
      assert (events + [e])[1..] == events[1..] + [e];
      AfterSnoc(Next(s, events[0]), events[1..], e);
    }
  }

  /** What a step adds to the rows a relay is to acknowledge is the row it is answered for. */
  lemma PendingGrowsByAnswer(s: State, e: Event, r: nat, row: nat)
    requires Enabled(s, e) && r < |s.relays| && row in Next(s, e).relays[r].Pending()
    ensures e != Commit(r) && e != Rollback(r) && e != ConnectionDrops(r)
    ensures row !in s.relays[r].Pending() ==>
              && e.Publish? && e.r == r && !e.answer.Unconfirmed?
              && s.relays[r].batch.rows[|s.relays[r].batch.answers|] == row
  {
    if e.Publish? && e.r == r {
      var batch, next := s.relays[r].batch, Answered(s.relays[r].batch, e.answer);
      var k :| 0 <= k < |next.rows| && k < |next.answers| && !next.answers[k].Unconfirmed? && next.rows[k] == row;
      if k < |batch.answers| {
        assert next.answers[k] == batch.answers[k];
      }
    }
  }

  /** A step more changes nothing about an answer already given. */
  lemma AnswerStays(s: State, events: seq<Event>, e: Event, j: nat, k: nat, r: nat, row: nat)
    requires AnswersRow(s, events, j, r, row) && OneBatch(events, j, k, r) && k <= |events|
    ensures AnswersRow(s, events + [e], j, r, row) && OneBatch(events + [e], j, k, r)
  {
    hide After, Enabled;
    assert (events + [e])[..j] == events[..j] && (events + [e])[j] == events[j];
  }

  ghost predicate WasAnswered(s: State, events: seq<Event>, r: nat, row: nat) {
    exists j: nat :: AnswersRow(s, events, j, r, row) && OneBatch(events, j, |events|, r)
  }

  lemma PendingStep(s: State, events: seq<Event>, e: Event, r: nat, row: nat)
    requires After(s, events + [e]).Some? && r < |After(s, events + [e]).value.relays|
    requires row in After(s, events + [e]).value.relays[r].Pending()
    requires After(s, events).Some?
    requires r < |After(s, events).value.relays| && row in After(s, events).value.relays[r].Pending()
             ==> WasAnswered(s, events, r, row)
    ensures WasAnswered(s, events + [e], r, row)
  {
    var all, before := events + [e], After(s, events).value;
    AfterSnoc(s, events, e);
    assert |Next(before, e).relays| == |before.relays|;
    PendingGrowsByAnswer(before, e, r, row);
    hide After, Enabled, Next, Phase.Pending;
    if row in before.relays[r].Pending() {
      var j: nat :| AnswersRow(s, events, j, r, row) && OneBatch(events, j, |events|, r);
      AnswerStays(s, events, e, j, |events|, r, row);
      assert OneBatch(all, j, |all|, r);
    } else {
      assert all[..|events|] == events;
      assert AnswersRow(s, all, |events|, r, row) && OneBatch(all, |events|, |all|, r);
    }
  }

  lemma {:induction false} PendingWasAnswered(rows: set<nat>, n: nat, events: seq<Event>, r: nat, row: nat)
    requires After(Initial(rows, n), events).Some? && r < |After(Initial(rows, n), events).value.relays|
    requires row in After(Initial(rows, n), events).value.relays[r].Pending()
    ensures WasAnswered(Initial(rows, n), events, r, row)
    decreases |events|
  {
    var s := Initial(rows, n);
    if events != [] {
      hide After, Enabled, Next, Phase.Pending, Initial, WasAnswered;
      var init, e := events[..|events| - 1], events[|events| - 1];
      assert events == init + [e];
      AfterSnoc(s, init, e);
      if r < |After(s, init).value.relays| && row in After(s, init).value.relays[r].Pending() {
        PendingWasAnswered(rows, n, init, r, row);
      }
      PendingStep(s, init, e, r, row);
    }
  }

  lemma DeliveredStep(s: State, e: Event, row: nat)
    requires Enabled(s, e) && row in Next(s, e).delivered - s.delivered
    ensures e.Commit? && e.r < |s.relays| && row in s.relays[e.r].Pending()
  {
  }

  /** In every run, a row that ends up delivered was committed by a relay that the peer had
      answered for it, confirming it or rejecting it for good, within the same batch. */
  lemma {:induction false} DeliveredWasAnswered(rows: set<nat>, n: nat, events: seq<Event>, row: nat)
    requires After(Initial(rows, n), events).Some? && row in After(Initial(rows, n), events).value.delivered
    ensures exists r: nat, j: nat, k: nat :: j < k < |events| && events[k] == Commit(r)
                              && AnswersRow(Initial(rows, n), events, j, r, row) && OneBatch(events, j, k, r)
    decreases |events|
  {
    var s := Initial(rows, n);
    if events != [] {
      hide After, Enabled, Next, Phase.Pending, Initial, OneBatch, AnswersRow;
      var last := |events| - 1;
      var init, e := events[..last], events[last];
      assert events == init + [e];
      AfterSnoc(s, init, e);
      if row in After(s, init).value.delivered {
        DeliveredWasAnswered(rows, n, init, row);
        var r: nat, j: nat, k: nat :| j < k < |init| && init[k] == Commit(r) && AnswersRow(s, init, j, r, row)
            && OneBatch(init, j, k, r);
        AnswerStays(s, init, e, j, k, r, row);
        assert events[k] == Commit(r);
      } else {
        DeliveredStep(After(s, init).value, e, row);
        PendingWasAnswered(rows, n, init, e.r, row);
        var j: nat :| AnswersRow(s, init, j, e.r, row) && OneBatch(init, j, last, e.r);
        AnswerStays(s, init, e, j, last, e.r, row);
        AnswerIsWithin(s, init, j, e.r, row);
        assert events[last] == Commit(e.r);
      }
    }
  }

  lemma AnswerIsWithin(s: State, events: seq<Event>, j: nat, r: nat, row: nat)
    requires AnswersRow(s, events, j, r, row)
    ensures j < |events|
  {
  }

  lemma {:induction false} PendingOnce(relays: seq<Phase>, row: nat)
    requires AllValid(relays) && LocksDisjoint(relays)
    ensures Pendings(relays)[row] <= 1
    ensures Pendings(relays)[row] == 1 ==> exists k :: 0 <= k < |relays| && row in relays[k].Locked()
  {
    if relays != [] {
      assert relays[0].Valid();
      AckedIsLocked(relays[0]);
      hide Phase.Locked, Phase.Pending, Phase.Valid;
      var rest := relays[1..];
      assert forall k :: 0 <= k < |rest| ==> rest[k] == relays[k + 1];
      PendingOnce(rest, row);
      if Pendings(rest)[row] == 1 {
        var k :| 0 <= k < |rest| && row in rest[k].Locked();
        assert relays[0].Locked() !! relays[k + 1].Locked();
      }
    }
  }

  /** A row the peer has answered more than once was in a batch that rolled back, or lost its
      connection, after the answer: duplicates come from nothing else. */
  lemma DuplicatesComeFromRollbacks(s: State, row: nat)
    requires Invariant(s)
    ensures s.confirmations[row] <= 1 + s.undone[row]
    ensures s.rollbacks + s.drops == 0 ==> s.confirmations[row] <= 1
  {
    hide Pendings, OpenCount, AllValid, LocksDisjoint, Phase.Locked;
    PendingOnce(s.relays, row);
    if Pendings(s.relays)[row] == 1 {
      var k :| 0 <= k < |s.relays| && row in s.relays[k].Locked();
      assert s.relays[k].Locked() <= s.rows - s.delivered;
    }
  }

  // ---- When every begin is closed ------------------------------------------------------

  /** The commit of relay `r` raised at event `j`, and its connection has lived on. */
  predicate RaisedAt(events: seq<Event>, j: nat, r: nat) {
    j < |events| && events[j] == CommitRaises(r) && forall k :: j < k < |events| ==> events[k] != ConnectionDrops(r)
  }

  predicate Dropless(events: seq<Event>) {
    forall k :: 0 <= k < |events| ==> !events[k].ConnectionDrops?
  }

  lemma RaisedSnoc(events: seq<Event>, e: Event, r: nat)
    ensures (exists j: nat :: RaisedAt(events + [e], j, r))
       <==> e == CommitRaises(r) || (e != ConnectionDrops(r) && exists j: nat :: RaisedAt(events, j, r))
  {
    var all := events + [e];
    if j: nat :| RaisedAt(events, j, r) {
      assert e != ConnectionDrops(r) ==> RaisedAt(all, j, r);
    }
    if e == CommitRaises(r) {
      assert RaisedAt(all, |events|, r);
    }
    if j: nat :| RaisedAt(all, j, r) {
      assert all[|events|] == e;
      if j < |events| {
        assert all[j] == events[j] && forall k :: j < k < |events| ==> all[k] == events[k];
        assert RaisedAt(events, j, r);
      }
    }
  }

  lemma StrandedStep(s: State, e: Event, r: nat)
    requires Enabled(s, e) && r < |s.relays|
    ensures Next(s, e).relays[r].Stranded?
       <==> e == CommitRaises(r) || (e != ConnectionDrops(r) && s.relays[r].Stranded?)
  {
  }

  lemma {:induction false} DropsCounted(rows: set<nat>, n: nat, events: seq<Event>)
    requires After(Initial(rows, n), events).Some?
    ensures var s := After(Initial(rows, n), events).value;
            |s.relays| == n && (s.drops == 0 <==> Dropless(events))
    decreases |events|
  {
    if events != [] {
      hide Enabled, After;
      var init, e := events[..|events| - 1], events[|events| - 1];
      assert events == init + [e];
      AfterSnoc(Initial(rows, n), init, e);
      DropsCounted(rows, n, init);
      DropsStep(After(Initial(rows, n), init).value, e);
    }
  }

  lemma DropsStep(s: State, e: Event)
    requires Enabled(s, e)
    ensures |Next(s, e).relays| == |s.relays|
    ensures Next(s, e).drops == s.drops + if e.ConnectionDrops? then 1 else 0
  {
  }

  lemma {:induction false} StrandedExactly(rows: set<nat>, n: nat, events: seq<Event>, r: nat)
    requires After(Initial(rows, n), events).Some? && r < n
    ensures var s := After(Initial(rows, n), events).value;
            |s.relays| == n && (s.relays[r].Stranded? <==> exists j: nat :: RaisedAt(events, j, r))
    decreases |events|
  {
    if events != [] {
      hide Enabled, Next, After, Initial, RaisedAt, Dropless;
      var init, e := events[..|events| - 1], events[|events| - 1];
      assert events == init + [e];
      AfterSnoc(Initial(rows, n), init, e);
      StrandedExactly(rows, n, init, r);
      StrandedStep(After(Initial(rows, n), init).value, e, r);
      DropsCounted(rows, n, events);
      RaisedSnoc(init, e, r);
    }
  }

  lemma OpenCanRollBack(s: State)
    ensures (forall r :: 0 <= r < |s.relays| && !s.relays[r].Idle? ==> Enabled(s, Rollback(r)))
       <==> forall r :: 0 <= r < |s.relays| ==> !s.relays[r].Stranded?
  {
  }

  /** In every run of N relays: exactly one commit or rollback closes every begin that is not open if and
      only if no connection has ended, and every open batch can still be rolled back if and only if the
      connection of every commit that raised has ended since. */
  lemma ClosedExactly(rows: set<nat>, n: nat, events: seq<Event>)
    requires After(Initial(rows, n), events).Some?
    ensures var s := After(Initial(rows, n), events).value;
            && (s.begins == s.commits + s.rollbacks + OpenCount(s.relays) <==> Dropless(events))
            && ((forall r :: 0 <= r < |s.relays| && !s.relays[r].Idle? ==> Enabled(s, Rollback(r)))
                <==> forall r: nat, j: nat :: r < n ==> !RaisedAt(events, j, r))
  {
    hide After, Initial, Enabled, RaisedAt, Dropless;
    var s := After(Initial(rows, n), events).value;
    EveryRunIsSafe(rows, n, events);
    DropsCounted(rows, n, events);
    OpenCanRollBack(s);
    forall r: nat, j: nat | r < n && RaisedAt(events, j, r) ensures s.relays[r].Stranded? {
      StrandedExactly(rows, n, events, r);
    }
    if forall r: nat, j: nat :: r < n ==> !RaisedAt(events, j, r) {
      forall r: nat | r < n ensures !s.relays[r].Stranded? {
        StrandedExactly(rows, n, events, r);
      }
    }
  }

  const RAISING: seq<Event> :=
    [Begin(0), Drain(0, [1], None), Publish(0, Confirmed), Acknowledge(0), CommitRaises(0)]

  lemma OneRow(s: State)
    requires s == Initial({1}, 1).(relays := [Begun], begins := 1)
    ensures Drains([1], Available(s), None)
  {
    assert LockedBy(s.relays) == {};
    assert Available(s) == {1};
  }

  /** A row is drained and confirmed, and the commit raises: the one batch begun is neither committed nor
      rolled back, cannot be, and keeps its row. */
  lemma RaisingCommitLeavesItOpen()
    ensures After(Initial({1}, 1), RAISING).Some?
    ensures var s := After(Initial({1}, 1), RAISING).value;
            && s.begins == 1 && s.commits == 0 && s.rollbacks == 0 && !s.relays[0].Idle? && !Enabled(s, Rollback(0))
            && 1 !in s.delivered && 1 !in Available(s)
  {
    hide Drains, Available;
    var s0 := Initial({1}, 1);
    var s1, s2 := s0.(relays := [Begun], begins := 1), s0.(relays := [Publishing(Batch([1], []))], begins := 1);
    var batch := Batch([1], [Confirmed]);
    var s3 := s0.(relays := [Publishing(batch)], begins := 1, confirmations := multiset{1});
    var s4, s5 := s3.(relays := [Acknowledged(batch)]), s3.(relays := [Stranded(batch)]);
    OneRow(s1);
    assert Next(s0, RAISING[0]) == s1 && Next(s1, RAISING[1]) == s2;
    assert [] + [Confirmed] == [Confirmed];
    assert Next(s2, RAISING[2]) == s3 && Next(s3, RAISING[3]) == s4 && Next(s4, RAISING[4]) == s5;
    Steps(s0, s1, s2, s3, s4, s5);
    assert 1 in s5.relays[0].Locked() by { assert batch.rows[0] == 1; }
    assert 1 !in Available(s5) by { LockedIsTaken(s5, 0, 1); }
  }

  lemma LockedIsTaken(s: State, k: nat, row: nat)
    requires k < |s.relays| && row in s.relays[k].Locked()
    ensures row !in Available(s)
  {
    hide Phase.Locked;
  }

  lemma Steps(s0: State, s1: State, s2: State, s3: State, s4: State, s5: State)
    requires Enabled(s0, RAISING[0]) && Next(s0, RAISING[0]) == s1 && Enabled(s1, RAISING[1])
             && Next(s1, RAISING[1]) == s2 && Enabled(s2, RAISING[2]) && Next(s2, RAISING[2]) == s3
             && Enabled(s3, RAISING[3]) && Next(s3, RAISING[3]) == s4 && Enabled(s4, RAISING[4])
             && Next(s4, RAISING[4]) == s5
    ensures After(s0, RAISING) == Some(s5)
  {
    hide Enabled, Next;
    assert RAISING[1..][1..][1..][1..][1..] == [];
    assert After(s5, []) == Some(s5);
    assert After(s4, RAISING[1..][1..][1..][1..]) == Some(s5);
    assert After(s3, RAISING[1..][1..][1..]) == Some(s5);
    assert After(s2, RAISING[1..][1..]) == Some(s5);
    assert After(s1, RAISING[1..]) == Some(s5);
  }

  /** A batch whose commit raised keeps its rows from every other relay, and the relay does nothing
      more about it: only the end of the connection gives them back. */
  lemma StrandedKeepsItsRows(s: State, e: Event, r: nat, q: nat)
    requires Invariant(s) && Enabled(s, e) && r < |s.relays| && s.relays[r].Stranded?
    ensures e == ConnectionDrops(r) || (r < |Next(s, e).relays| && Next(s, e).relays[r] == s.relays[r])
    ensures e.Drain? && e.r == q ==> forall k :: 0 <= k < |e.drained| ==> e.drained[k] !in s.relays[r].Locked()
  {
    if e.Drain? {
      forall k | 0 <= k < |e.drained| ensures e.drained[k] !in s.relays[r].Locked() {
        assert e.drained[k] in Available(s);
      }
    }
  }

  /** Nothing is lost: rows stay, deliveries stay, and every idle system's confirmations
      are its deliveries and its undone answers. */
  lemma NothingIsLost(s: State, e: Event)
    requires Invariant(s) && Enabled(s, e)
    ensures s.rows <= Next(s, e).rows && s.delivered <= Next(s, e).delivered
    ensures (forall k :: 0 <= k < |s.relays| ==> s.relays[k].Idle?) ==>
              s.confirmations == multiset(s.delivered) + s.undone && s.begins == s.commits + s.rollbacks + s.drops
  {
    if forall k :: 0 <= k < |s.relays| ==> s.relays[k].Idle? {
      IdleRelays(s.relays);
    }
  }
}
