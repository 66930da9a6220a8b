/** One relay's pass over the outbox (`_relay_batch`, `_relay_pass` in `impl/lnpl/cli.py`): how it
    ends and exactly which rows it acknowledges. */
module RelayPass {
  import opened Wrappers
  import opened Text

  datatype Row = Row(id: nat, event: string)

  // What publishing through a registered publisher comes to.
  datatype Outcome = Published | PublishRejected | PublishFault

  /** What the far side answers to row `row` in batch number `b`. A batch asks about a row once, so
      this is any behaviour at all. */
  datatype Peer =
    | Http(post: (nat, Row) -> Option<int>)
    | Publisher(publish: (nat, Row) -> Outcome)

  /** The exception a batch meets, if any: the drain raises, something raises at a row (a publisher
      error that is not a publishing error, an interrupt), the acknowledgement raises, or the commit. */
  datatype Trouble = NoTrouble | DrainRaises | RowRaises(k: nat) | AckRaises | CommitRaises

  /** The run of a relay: the declared events, the peer, and what goes wrong in which batch. */
  datatype World = World(declared: set<string>, peer: Peer, trouble: nat -> Trouble)

  /** Delivered, or permanently rejected: the row is acknowledged. */
  predicate Acks(w: World, b: nat, row: Row) {
    row.event in w.declared
    && match w.peer
       case Http(post) => post(b, row) == Some(200) || post(b, row) == Some(422)
       case Publisher(publish) => publish(b, row) != PublishFault
  }

  // ---- Rows ----------------------------------------------------------------------------

  function AckedOf(w: World, b: nat, rows: seq<Row>): seq<Row> {
    if rows == [] then [] else (if Acks(w, b, rows[0]) then [rows[0]] else []) + AckedOf(w, b, rows[1..])
  }

  function FailedOf(w: World, b: nat, rows: seq<Row>): seq<Row> {
    if rows == [] then [] else (if Acks(w, b, rows[0]) then [] else [rows[0]]) + FailedOf(w, b, rows[1..])
  }

  function IdsOf(rows: seq<Row>): (ids: seq<nat>)
    ensures |ids| == |rows| && forall k :: 0 <= k < |rows| ==> ids[k] == rows[k].id
  {
    if rows == [] then [] else [rows[0].id] + IdsOf(rows[1..])
  }

  /** What an acknowledgement leaves undelivered. */
  function Without(rows: seq<Row>, ids: seq<nat>): seq<Row> {
    if rows == [] then [] else (if rows[0].id in ids then [] else [rows[0]]) + Without(rows[1..], ids)
  }

  /** Ascending by `seq`, as the outbox is read. */
  predicate Sorted(rows: seq<Row>) {
    forall j, k :: 0 <= j < k < |rows| ==> rows[j].id < rows[k].id
  }

  function Window(limit: Option<nat>, rows: seq<Row>): (n: nat)
    ensures n <= |rows|
  {
    if limit.Some? && limit.value < |rows| then limit.value else |rows|
  }

  /** An exception escapes the batch before its commit. */
  predicate Escapes(w: World, b: nat, rows: seq<Row>) {
    match w.trouble(b)
    case DrainRaises => true
    case RowRaises(k) => k < |rows|
    case AckRaises => AckedOf(w, b, rows) != []
    case _ => false
  }

  lemma {:induction false} AckedMembers(w: World, b: nat, rows: seq<Row>)
    ensures forall row :: row in AckedOf(w, b, rows) <==> row in rows && Acks(w, b, row)
  {
    hide Acks;
    if rows != [] {
      AckedMembers(w, b, rows[1..]);
      assert rows == [rows[0]] + rows[1..];
    }
  }

  lemma AckedIds(w: World, b: nat, rows: seq<Row>, id: nat)
    ensures id in IdsOf(AckedOf(w, b, rows)) <==> exists k :: 0 <= k < |rows| && rows[k].id == id && Acks(w, b, rows[k])
  {
    hide Acks, AckedOf;
    var acked := AckedOf(w, b, rows);
    AckedMembers(w, b, rows);
    if id in IdsOf(acked) {
      var j :| 0 <= j < |acked| && IdsOf(acked)[j] == id;
      assert acked[j] in acked;
    }
    if k :| 0 <= k < |rows| && rows[k].id == id && Acks(w, b, rows[k]) {
      assert rows[k] in acked;
      var j :| 0 <= j < |acked| && acked[j] == rows[k];
      assert IdsOf(acked)[j] == id;
    }
  }

  lemma AllAckedIds(w: World, b: nat, rows: seq<Row>)
    ensures forall id :: id in IdsOf(AckedOf(w, b, rows)) <==> exists k ::
              0 <= k < |rows| && rows[k].id == id && rows[k].event in w.declared
              && if w.peer.Http? then w.peer.post(b, rows[k]) in {Some(200), Some(422)}
                 else w.peer.publish(b, rows[k]) in {Published, PublishRejected}
  {
    hide AckedOf, IdsOf;
    forall id
      ensures id in IdsOf(AckedOf(w, b, rows))
              <==> exists k :: 0 <= k < |rows| && rows[k].id == id && Acks(w, b, rows[k])
    {
      AckedIds(w, b, rows, id);
    }
  }

  // ---- The driver ----------------------------------------------------------------------

  class Repository {
    var backlog: seq<Row>                           // undelivered rows
    var delivered: seq<nat>                         // in the order they were acknowledged
    var saved: Option<(seq<Row>, seq<nat>)>         // the state `begin` found
    var begins: nat
    var commits: nat
    var rollbacks: nat

    method Begin()
      requires saved.None?
      modifies this
      ensures saved == Some((backlog, delivered)) && begins == old(begins) + 1
      ensures backlog == old(backlog) && delivered == old(delivered)
      ensures commits == old(commits) && rollbacks == old(rollbacks)
    {
      saved := Some((backlog, delivered));
      begins := begins + 1;
    }

    /** A commit that raises leaves the transaction open. */
    method Commit(raises: bool)
      requires saved.Some?
      modifies this
      ensures saved == (if raises then old(saved) else None) && commits == old(commits) + if raises then 0 else 1
      ensures backlog == old(backlog) && delivered == old(delivered)
      ensures begins == old(begins) && rollbacks == old(rollbacks)
    {
      if !raises {
        saved := None;
        commits := commits + 1;
      }
    }

    method Rollback()
      requires saved.Some?
      modifies this
      ensures saved.None? && rollbacks == old(rollbacks) + 1
      ensures backlog == old(saved).value.0 && delivered == old(saved).value.1
      ensures begins == old(begins) && commits == old(commits)
    {
      backlog, delivered := saved.value.0, saved.value.1;
      saved := None;
      rollbacks := rollbacks + 1;
    }

    method Acknowledge(ids: seq<nat>)
      modifies this`backlog, this`delivered
      ensures backlog == Without(old(backlog), ids) && delivered == old(delivered) + ids
    {
      backlog := Without(backlog, ids);
      delivered := delivered + ids;
    }
  }

  /** The outbox view one batch drains. */
  class BoundedOutbox {
    const repository: Repository
    const limit: Option<nat>
    var drained: nat

    constructor (repository: Repository, limit: Option<nat>)
      ensures this.repository == repository && this.limit == limit && drained == 0
    {
      this.repository := repository;
      this.limit := limit;
      drained := 0;
    }

    method DrainOutbox() returns (rows: seq<Row>)
      modifies this`drained
      ensures rows == repository.backlog[..Window(limit, repository.backlog)] && drained == |rows|
    {
      rows := repository.backlog[..Window(limit, repository.backlog)];
      drained := |rows|;
    }
  }

  // ---- One batch -----------------------------------------------------------------------

  predicate Interrupted(w: World, b: nat, rows: seq<Row>) {
    w.trouble(b).RowRaises? && w.trouble(b).k < |rows|
  }

  /** The loop of `_relay_drain_once`. */
  method PostAll(rows: seq<Row>, w: World, b: nat) returns (answered: Option<seq<nat>>)
    requires w.peer.Http?
    ensures answered.None? <==> w.trouble(b).RowRaises? && w.trouble(b).k < |rows|
    ensures answered.Some? ==>
              forall id :: id in answered.value <==> exists k ::
                0 <= k < |rows| && rows[k].id == id && rows[k].event in w.declared
                && w.peer.post(b, rows[k]) in {Some(200), Some(422)}
    ensures answered == if Interrupted(w, b, rows) then None else Some(IdsOf(AckedOf(w, b, rows)))
  {
    var acked := [];
    assert rows[0..] == rows && acked + IdsOf(AckedOf(w, b, rows)) == IdsOf(AckedOf(w, b, rows));
    assert IdsOf(AckedOf(w, b, [])) == [];
    hide AckedOf, IdsOf;
    forall id
      ensures id in IdsOf(AckedOf(w, b, rows))
              <==> exists k :: 0 <= k < |rows| && rows[k].id == id && Acks(w, b, rows[k])
    {
      AckedIds(w, b, rows, id);
    }
    for k := 0 to |rows|
      invariant acked + IdsOf(AckedOf(w, b, rows[k..])) == IdsOf(AckedOf(w, b, rows))
      invariant w.trouble(b).RowRaises? ==> w.trouble(b).k >= k
    {
      if w.trouble(b) == RowRaises(k) {
        return None;
      }
      AckedStep(w, b, rows, k, acked);
      assert acked + [] == acked;
      if rows[k].event !in w.declared {
        continue;
      }
      var status := w.peer.post(b, rows[k]);
      if status == Some(200) {
        acked := acked + [rows[k].id];
      } else if status == Some(422) {
        acked := acked + [rows[k].id];
      }
    }
    assert rows[|rows|..] == [] && acked + [] == acked;
    answered := Some(acked);
  }

  /** The loop of `_relay_drain_once_via_publisher`. */
  method PublishAll(rows: seq<Row>, w: World, b: nat) returns (answered: Option<seq<nat>>)
    requires w.peer.Publisher?
    ensures answered.None? <==> w.trouble(b).RowRaises? && w.trouble(b).k < |rows|
    ensures answered.Some? ==>
              forall id :: id in answered.value <==> exists k ::
                0 <= k < |rows| && rows[k].id == id && rows[k].event in w.declared
                && w.peer.publish(b, rows[k]) in {Published, PublishRejected}
    ensures answered == if Interrupted(w, b, rows) then None else Some(IdsOf(AckedOf(w, b, rows)))
  {
    var acked := [];
    assert rows[0..] == rows && acked + IdsOf(AckedOf(w, b, rows)) == IdsOf(AckedOf(w, b, rows));
    assert IdsOf(AckedOf(w, b, [])) == [];
    hide AckedOf, IdsOf;
    forall id
      ensures id in IdsOf(AckedOf(w, b, rows))
              <==> exists k :: 0 <= k < |rows| && rows[k].id == id && Acks(w, b, rows[k])
    {
      AckedIds(w, b, rows, id);
    }
    for k := 0 to |rows|
      invariant acked + IdsOf(AckedOf(w, b, rows[k..])) == IdsOf(AckedOf(w, b, rows))
      invariant w.trouble(b).RowRaises? ==> w.trouble(b).k >= k
    {
      if w.trouble(b) == RowRaises(k) {
        return None;
      }
      AckedStep(w, b, rows, k, acked);
      assert acked + [] == acked;
      if rows[k].event !in w.declared {
        continue;
      }
      match w.peer.publish(b, rows[k]) {
        case PublishRejected => acked := acked + [rows[k].id];
        case PublishFault => continue;
        case Published => acked := acked + [rows[k].id];
      }
    }
    assert rows[|rows|..] == [] && acked + [] == acked;
    answered := Some(acked);
  }

  lemma AckedStep(w: World, b: nat, rows: seq<Row>, k: nat, acked: seq<nat>)
    requires k < |rows|
    ensures acked + IdsOf(AckedOf(w, b, rows[k..]))
         == (acked + if Acks(w, b, rows[k]) then [rows[k].id] else []) + IdsOf(AckedOf(w, b, rows[k + 1..]))
  {
    hide Acks;
    assert rows[k..][1..] == rows[k + 1..];
    var rest := AckedOf(w, b, rows[k + 1..]);
    assert ([rows[k]] + rest)[1..] == rest && [] + rest == rest;
  }

  /** `drain_once`: `None` when an exception escapes it. */
  method DrainOnce(outbox: BoundedOutbox, w: World) returns (acked: Option<nat>)
    modifies outbox`drained, outbox.repository`backlog, outbox.repository`delivered
    ensures var repository, rows := outbox.repository,
            old(outbox.repository.backlog)[..Window(outbox.limit, old(outbox.repository.backlog))];
            var ids := IdsOf(AckedOf(w, repository.begins, rows));
            && (acked.None? <==> Escapes(w, repository.begins, rows))
            && (acked.None? ==> && repository.backlog == old(repository.backlog)
                                && repository.delivered == old(repository.delivered))
            && (acked.Some? ==> && outbox.drained == |rows|
                                && acked.value == |ids| && repository.delivered == old(repository.delivered) + ids
                                && repository.backlog == Without(old(repository.backlog), ids))
  {
    var repository := outbox.repository;
    if w.trouble(repository.begins).DrainRaises? {
      return None;
    }
    var rows := outbox.DrainOutbox();
    var answered: Option<seq<nat>>;
    if w.peer.Http? {
      answered := PostAll(rows, w, repository.begins);
    } else {
      answered := PublishAll(rows, w, repository.begins);
    }
    if answered.None? {
      return None;
    }
    var ids := answered.value;
    if ids != [] {
      if w.trouble(repository.begins).AckRaises? {
        return None;
      }
      repository.Acknowledge(ids);
    } else {
      WithoutNothing(repository.backlog);
    }
    acked := Some(|ids|);
  }

  lemma {:induction false} WithoutNothing(rows: seq<Row>)
    ensures Without(rows, []) == rows
  {
    if rows != [] {
      WithoutNothing(rows[1..]);
    }
  }

  /** `_relay_batch`: one transaction, closed by exactly one commit or rollback unless the commit
      itself raises. */
  method RelayBatch(outbox: BoundedOutbox, w: World) returns (acked: Option<nat>)
    requires outbox.repository.saved.None?
    modifies outbox`drained, outbox.repository
    ensures var repository, before := outbox.repository, old(outbox.repository.backlog);
            var rows := before[..Window(outbox.limit, before)];
            var ids := IdsOf(AckedOf(w, repository.begins, rows));
            var escapes, commitRaises := Escapes(w, repository.begins, rows),
                w.trouble(repository.begins).CommitRaises?;
            && repository.begins == old(repository.begins) + 1 && (acked.None? <==> escapes || commitRaises)
            && repository.rollbacks == old(repository.rollbacks) + (if escapes then 1 else 0)
            && repository.commits == old(repository.commits) + (if acked.Some? then 1 else 0)
            && repository.saved == (if commitRaises then Some((before, old(repository.delivered))) else None)
            && (escapes ==> repository.backlog == before && repository.delivered == old(repository.delivered))
            && (acked.Some? ==> && outbox.drained == |rows|
                                && acked.value == |ids| && repository.delivered == old(repository.delivered) + ids
                                && repository.backlog == Without(before, ids))
    ensures var repository, before := outbox.repository, old(outbox.repository.backlog);
            var rows := before[..Window(outbox.limit, before)];
            acked.Some? ==>
              forall id :: id in repository.delivered <==> id in old(outbox.repository.delivered) || exists k ::
                0 <= k < |rows| && rows[k].id == id && rows[k].event in w.declared
                && if w.peer.Http? then w.peer.post(repository.begins, rows[k]) in {Some(200), Some(422)}
                   else w.peer.publish(repository.begins, rows[k]) in {Published, PublishRejected}
  {
    hide AckedOf, Without, Acks, IdsOf;
    ghost var rows := outbox.repository.backlog[..Window(outbox.limit, outbox.repository.backlog)];
    AllAckedIds(w, outbox.repository.begins + 1, rows);
    outbox.repository.Begin();
    acked := DrainOnce(outbox, w);
    if acked.None? {
      outbox.repository.Rollback();
    } else {
      var raises := w.trouble(outbox.repository.begins).CommitRaises?;
      outbox.repository.Commit(raises);
      if raises {
        acked := None;
      }
    }
  }

  // ---- A pass --------------------------------------------------------------------------

  // How a pass ends: with the outbox drained for now, by an exception that rolled the last batch
  // back, or by a commit that raised.
  datatype Ending = Drained | RolledBack | LeftOpen

  // What a pass acknowledges for good in order, what that leaves, how many batches it ran, and how
  // it ends.
  datatype Pass = Pass(acked: seq<nat>, left: seq<Row>, batches: nat, ending: Ending)

  function Run(w: World, limit: Option<nat>, b: nat, backlog: seq<Row>): Pass
    decreases |backlog|
  {
    var n := Window(limit, backlog);
    var ids := IdsOf(AckedOf(w, b + 1, backlog[..n]));
    if Escapes(w, b + 1, backlog[..n]) then Pass([], backlog, 1, RolledBack)
    else if w.trouble(b + 1).CommitRaises? then Pass([], backlog, 1, LeftOpen)
    else
      var left := Without(backlog, ids);
      if limit.None? || n < limit.value || ids == [] || |left| >= |backlog| then Pass(ids, left, 1, Drained)
      else
        var rest := Run(w, limit, b + 1, left);
        Pass(ids + rest.acked, rest.left, rest.batches + 1, rest.ending)
  }

  lemma {:induction false} WithoutBound(rows: seq<Row>, ids: seq<nat>)
    ensures |Without(rows, ids)| <= |rows|
    ensures (exists k :: 0 <= k < |rows| && rows[k].id in ids) ==> |Without(rows, ids)| < |rows|
  {
    if rows != [] {
      WithoutBound(rows[1..], ids);
      if exists k :: 0 <= k < |rows| && rows[k].id in ids {
        var k :| 0 <= k < |rows| && rows[k].id in ids;
        assert k > 0 ==> rows[1..][k - 1].id in ids;
      }
    }
  }

  lemma {:induction false} AckedAreRows(w: World, b: nat, rows: seq<Row>)
    ensures forall k :: 0 <= k < |AckedOf(w, b, rows)| ==> AckedOf(w, b, rows)[k] in rows
  {
    if rows != [] {
      AckedAreRows(w, b, rows[1..]);
      assert forall row :: row in rows[1..] ==> row in rows;
    }
  }

  /** A batch that acknowledges anything strictly shrinks the undelivered rows. */
  lemma BatchShrinks(w: World, b: nat, backlog: seq<Row>, n: nat)
    requires n <= |backlog| && AckedOf(w, b, backlog[..n]) != []
    ensures |Without(backlog, IdsOf(AckedOf(w, b, backlog[..n])))| < |backlog|
  {
    var acked := AckedOf(w, b, backlog[..n]);
    AckedAreRows(w, b, backlog[..n]);
    assert acked[0] in backlog[..n];
    var k :| 0 <= k < n && backlog[k] == acked[0];
    assert IdsOf(acked)[0] == backlog[k].id;
    WithoutBound(backlog, IdsOf(acked));
  }

  /** A pass is its first batch and, unless the stop rule or an exception ends it, the rest. */
  lemma FirstBatch(w: World, limit: Option<nat>, b: nat, backlog: seq<Row>)
    ensures var n, run := Window(limit, backlog), Run(w, limit, b, backlog);
            var ids := IdsOf(AckedOf(w, b + 1, backlog[..n]));
            var left := Without(backlog, ids);
            if Escapes(w, b + 1, backlog[..n]) then
              run == Pass([], backlog, 1, RolledBack) && !w.trouble(b + 1).CommitRaises?
            else if w.trouble(b + 1).CommitRaises? then run == Pass([], backlog, 1, LeftOpen)
            else if limit.None? || n < limit.value || ids == [] || |left| >= |backlog|
            then run == Pass(ids, left, 1, Drained)
            else var rest := Run(w, limit, b + 1, left);
                 run == Pass(ids + rest.acked, rest.left, rest.batches + 1, rest.ending)
  {
    hide AckedOf, Without, IdsOf;
  }

  /** `_relay_pass`. It ends because every batch after which it goes on shrinks the backlog. What a
      commit that raised leaves open would fall back to what the commits before it left. */
  method RelayOnePass(repository: Repository, limit: Option<nat>, w: World) returns (total: Option<nat>)
    requires repository.saved.None?
    modifies repository
    ensures var run := Run(w, limit, old(repository.begins), old(repository.backlog));
            var open := run.ending.LeftOpen?;
            && total == (if run.ending.Drained? then Some(|run.acked|) else None)
            && (if open then repository.saved == Some((run.left, old(repository.delivered) + run.acked))
                else repository.saved.None? && repository.backlog == run.left
                     && repository.delivered == old(repository.delivered) + run.acked)
            && repository.begins == old(repository.begins) + run.batches
            && repository.commits + repository.rollbacks
               == old(repository.commits) + old(repository.rollbacks) + run.batches - (if open then 1 else 0)
  {
    hide AckedOf, Without, Acks, IdsOf, Run, Escapes;
    ghost var all := Run(w, limit, repository.begins, repository.backlog);
    ghost var done: seq<nat> := [];
    ghost var batches := 0;
    var sum := 0;
    while true
      invariant repository.saved.None? && sum == |done|
      invariant repository.begins == old(repository.begins) + batches
      invariant repository.commits + repository.rollbacks
                == old(repository.commits) + old(repository.rollbacks) + batches
      invariant repository.delivered == old(repository.delivered) + done
      invariant var rest := Run(w, limit, repository.begins, repository.backlog);
                all == Pass(done + rest.acked, rest.left, batches + rest.batches, rest.ending)
      decreases |repository.backlog|
    {
      ghost var backlog, b := repository.backlog, repository.begins;
      ghost var ids := IdsOf(AckedOf(w, b + 1, backlog[..Window(limit, backlog)]));
      FirstBatch(w, limit, b, backlog);
      var outbox := new BoundedOutbox(repository, limit);
      var acked := RelayBatch(outbox, w);
      batches := batches + 1;
      if acked.None? {
        assert done + [] == done;
        return None;
      }
      sum := sum + acked.value;
      if ids != [] {
        BatchShrinks(w, b + 1, backlog, Window(limit, backlog));
      }
      Assoc(old(repository.delivered), done, ids);
      Assoc(done, ids, Run(w, limit, repository.begins, repository.backlog).acked);
      done := done + ids;
      if limit.None? || outbox.drained < limit.value || acked.value == 0 {
        return Some(sum);
      }
    }
  }

  // ---- What a pass leaves --------------------------------------------------------------

  lemma {:induction false} WithoutMembers(rows: seq<Row>, ids: seq<nat>)
    ensures forall row :: row in Without(rows, ids) <==> row in rows && row.id !in ids
  {
    if rows != [] {
      WithoutMembers(rows[1..], ids);
      assert rows == [rows[0]] + rows[1..];
    }
  }

  lemma {:induction false} WithoutSorted(rows: seq<Row>, ids: seq<nat>)
    requires Sorted(rows)
    ensures Sorted(Without(rows, ids))
  {
    if rows != [] {
      WithoutSorted(rows[1..], ids);
      WithoutMembers(rows[1..], ids);
      assert forall row :: row in rows[1..] ==> rows[0].id < row.id;
      var rest := Without(rows[1..], ids);
      assert forall k :: 0 <= k < |rest| ==> rest[k] in rest;
    }
  }

  lemma {:induction false} WithoutConcat(a: seq<Row>, b: seq<Row>, ids: seq<nat>)
    ensures Without(a + b, ids) == Without(a, ids) + Without(b, ids)
  {
    if a == [] {
      assert a + b == b;
    } else {
      assert (a + b)[1..] == a[1..] + b;
      WithoutConcat(a[1..], b, ids);
    }
  }

  lemma {:induction false} WithoutStrangers(rows: seq<Row>, ids: seq<nat>)
    requires forall k :: 0 <= k < |rows| ==> rows[k].id !in ids
    ensures Without(rows, ids) == rows
  {
    if rows != [] {
      WithoutStrangers(rows[1..], ids);
    }
  }

  lemma {:induction false} WithoutAcked(w: World, b: nat, rows: seq<Row>, ids: seq<nat>)
    requires Sorted(rows)
    requires forall k :: 0 <= k < |rows| ==> (rows[k].id in ids <==> Acks(w, b, rows[k]))
    ensures Without(rows, ids) == FailedOf(w, b, rows)
  {
    hide Acks;
    if rows != [] {
      WithoutAcked(w, b, rows[1..], ids);
    }
  }

  /** Acknowledging what a window acknowledges leaves what failed in it, and the rest. */
  lemma BatchLeaves(w: World, b: nat, backlog: seq<Row>, n: nat)
    requires Sorted(backlog) && n <= |backlog|
    ensures Without(backlog, IdsOf(AckedOf(w, b, backlog[..n]))) == FailedOf(w, b, backlog[..n]) + backlog[n..]
  {
    hide Acks, AckedOf, FailedOf, Without, IdsOf;
    var window, rest, acked := backlog[..n], backlog[n..], AckedOf(w, b, backlog[..n]);
    var ids := IdsOf(acked);
    AckedMembers(w, b, window);
    forall k | 0 <= k < |backlog| ensures backlog[k].id in ids <==> k < n && Acks(w, b, backlog[k]) {
      IdIsAcked(w, b, backlog, n, k);
    }
    assert forall k :: 0 <= k < n ==> window[k] == backlog[k];
    WithoutAcked(w, b, window, ids);
    assert forall k :: 0 <= k < |rest| ==> rest[k] == backlog[n + k];
    WithoutStrangers(rest, ids);
    WithoutConcat(window, rest, ids);
    assert backlog == window + rest;
  }

  lemma IdIsAcked(w: World, b: nat, backlog: seq<Row>, n: nat, k: nat)
    requires Sorted(backlog) && n <= |backlog| && k < |backlog|
    ensures backlog[k].id in IdsOf(AckedOf(w, b, backlog[..n])) <==> k < n && Acks(w, b, backlog[k])
  {
    hide Acks, AckedOf;
    var acked := AckedOf(w, b, backlog[..n]);
    AckedMembers(w, b, backlog[..n]);
    if k < n && Acks(w, b, backlog[k]) {
      assert backlog[..n][k] == backlog[k] && backlog[k] in acked;
      var j :| 0 <= j < |acked| && acked[j] == backlog[k];
      assert IdsOf(acked)[j] == backlog[k].id;
    }
    if backlog[k].id in IdsOf(acked) {
      var j :| 0 <= j < |acked| && IdsOf(acked)[j] == backlog[k].id;
      assert acked[j] in backlog[..n];
      var i :| 0 <= i < n && backlog[i] == acked[j];
      assert i == k;
    }
  }

  // ---- Starvation ----------------------------------------------------------------------

  /** The peer's answer depends only on the row, and nothing raises. */
  ghost predicate Stateless(w: World) {
    forall b: nat, row :: Acks(w, b, row) == Acks(w, 0, row) && w.trouble(b).NoTrouble?
  }

  lemma {:induction false} StatelessRows(w: World, b: nat, rows: seq<Row>)
    requires Stateless(w)
    ensures AckedOf(w, b, rows) == AckedOf(w, 0, rows) && FailedOf(w, b, rows) == FailedOf(w, 0, rows)
  {
    hide Acks;
    if rows != [] {
      StatelessRows(w, b, rows[1..]);
    }
  }

  /** The acknowledgeable rows before the row that fails with `left` failures used up. */
  function Reached(w: World, rows: seq<Row>, left: nat): seq<Row> {
    if rows == [] || left == 0 then []
    else if Acks(w, 0, rows[0]) then [rows[0]] + Reached(w, rows[1..], left)
    else Reached(w, rows[1..], left - 1)
  }

  lemma {:induction false} ReachedPastWindow(w: World, window: seq<Row>, rest: seq<Row>, left: nat)
    requires |window| <= left
    ensures |FailedOf(w, 0, window)| <= |window|
    ensures Reached(w, window + rest, left) == AckedOf(w, 0, window) + Reached(w, rest, left - |FailedOf(w, 0, window)|)
  {
    hide Acks;
    if window == [] {
      assert window + rest == rest && [] + Reached(w, rest, left) == Reached(w, rest, left);
    } else {
      assert (window + rest)[1..] == window[1..] + rest;
      ReachedPastWindow(w, window[1..], rest, if Acks(w, 0, window[0]) then left else left - 1);
    }
  }

  lemma {:induction false} FailuresOnly(w: World, rows: seq<Row>)
    ensures FailedOf(w, 0, FailedOf(w, 0, rows)) == FailedOf(w, 0, rows)
    ensures AckedOf(w, 0, FailedOf(w, 0, rows)) == []
    ensures |AckedOf(w, 0, rows)| + |FailedOf(w, 0, rows)| == |rows|
  {
    hide Acks;
    if rows != [] {
      FailuresOnly(w, rows[1..]);
      var rest := FailedOf(w, 0, rows[1..]);
      assert ([rows[0]] + rest)[1..] == rest && [] + rest == rest;
    }
  }

  /** One batch of a pass: what it acknowledges, then what is reached from what it leaves. */
  lemma ReachedByBatch(w: World, backlog: seq<Row>, limit: nat, n: nat)
    requires n == Window(Some(limit), backlog) && Sorted(backlog)
    ensures var acked, left := AckedOf(w, 0, backlog[..n]), FailedOf(w, 0, backlog[..n]) + backlog[n..];
            && Reached(w, backlog, limit) == acked + Reached(w, left, limit)
            && (n < limit || acked == [] ==> Reached(w, backlog, limit) == acked)
  {
    hide Acks, AckedOf, FailedOf;
    var window, rest := backlog[..n], backlog[n..];
    assert backlog == window + rest;
    ReachedPastWindow(w, window, rest, limit);
    FailuresOnly(w, window);
    ReachedPastWindow(w, FailedOf(w, 0, window), rest, limit);
    var later := Reached(w, rest, limit - |FailedOf(w, 0, window)|);
    assert [] + later == later;
    if n < limit || AckedOf(w, 0, window) == [] {
      assert rest == [] || limit == |FailedOf(w, 0, window)|;
      assert later == [];
      assert AckedOf(w, 0, window) + [] == AckedOf(w, 0, window);
    }
  }

  lemma IdsConcat(a: seq<Row>, b: seq<Row>)
    ensures IdsOf(a + b) == IdsOf(a) + IdsOf(b)
  {
  }

  /** Against a peer whose answer depends only on the row, a bounded pass acknowledges, in order,
      exactly the acknowledgeable rows it can reach. */
  lemma {:induction false} PassReaches(w: World, limit: nat, b: nat, backlog: seq<Row>)
    requires Stateless(w) && Sorted(backlog)
    ensures Run(w, Some(limit), b, backlog).acked == IdsOf(Reached(w, backlog, limit))
    ensures Run(w, Some(limit), b, backlog).ending.Drained?
    decreases |backlog|
  {
    var n := Window(Some(limit), backlog);
    var acked := AckedOf(w, b + 1, backlog[..n]);
    var left := Without(backlog, IdsOf(acked));
    StatelessRows(w, b + 1, backlog[..n]);
    BatchLeaves(w, b + 1, backlog, n);
    ReachedByBatch(w, backlog, limit, n);
    assert w.trouble(b + 1).NoTrouble? by { assert Acks(w, b + 1, Row(0, "")) == Acks(w, 0, Row(0, "")); }
    hide Acks, AckedOf, FailedOf, Reached, Stateless;
    if acked != [] && n == limit {
      BatchShrinks(w, b + 1, backlog, n);
      WithoutSorted(backlog, IdsOf(acked));
      PassReaches(w, limit, b + 1, left);
      IdsConcat(acked, Reached(w, left, limit));
    }
  }

  lemma {:induction false} ReachedMembers(w: World, rows: seq<Row>, left: nat, k: nat)
    requires Sorted(rows) && k < |rows|
    ensures rows[k] in Reached(w, rows, left) <==> Acks(w, 0, rows[k]) && |FailedOf(w, 0, rows[..k])| < left
  {
    hide Acks;
    if left > 0 {
      var rest := if Acks(w, 0, rows[0]) then left else left - 1;
      ReachedAreRows(w, rows[1..], rest);
      if k > 0 {
        ReachedMembers(w, rows[1..], rest, k - 1);
        assert rows[..k][1..] == rows[1..][..k - 1];
        assert rows[k] != rows[0];
      } else {
        assert rows[..0] == [];
        assert rows[0] !in rows[1..];
      }
    }
  }

  lemma {:induction false} ReachedAreRows(w: World, rows: seq<Row>, left: nat)
    ensures forall row :: row in Reached(w, rows, left) ==> row in rows
  {
    hide Acks;
    if rows != [] && left > 0 {
      ReachedAreRows(w, rows[1..], if Acks(w, 0, rows[0]) then left else left - 1);
      assert rows == [rows[0]] + rows[1..];
    }
  }

  lemma {:induction false} ReachedSorted(w: World, rows: seq<Row>, left: nat)
    requires Sorted(rows)
    ensures Sorted(Reached(w, rows, left))
  {
    hide Acks;
    if rows != [] && left > 0 {
      var rest := Reached(w, rows[1..], if Acks(w, 0, rows[0]) then left else left - 1);
      ReachedSorted(w, rows[1..], if Acks(w, 0, rows[0]) then left else left - 1);
      ReachedAreRows(w, rows[1..], if Acks(w, 0, rows[0]) then left else left - 1);
      assert forall k :: 0 <= k < |rest| ==> rest[k] in rows[1..];
    }
  }

  /** A pass does not starve: acknowledgements ascend, and an acknowledgeable row is acknowledged
      if and only if fewer than `limit` failing rows precede it. */
  lemma AcknowledgedExactly(w: World, limit: nat, b: nat, backlog: seq<Row>, k: nat)
    requires Stateless(w) && Sorted(backlog) && k < |backlog|
    ensures var acked := Run(w, Some(limit), b, backlog).acked;
            && (forall i, j :: 0 <= i < j < |acked| ==> acked[i] < acked[j])
            && (backlog[k].id in acked <==> Acks(w, 0, backlog[k]) && |FailedOf(w, 0, backlog[..k])| < limit)
  {
    hide Acks, FailedOf, Stateless, Run;
    PassReaches(w, limit, b, backlog);
    var reached := Reached(w, backlog, limit);
    ReachedSorted(w, backlog, limit);
    ReachedMembers(w, backlog, limit, k);
    ReachedAreRows(w, backlog, limit);
    var acked := IdsOf(reached);
    if backlog[k] in reached {
      var j :| 0 <= j < |reached| && reached[j] == backlog[k];
      assert acked[j] == backlog[k].id;
    }
    if backlog[k].id in acked {
      var j :| 0 <= j < |acked| && acked[j] == backlog[k].id;
      assert reached[j] in backlog;
      var i :| 0 <= i < |backlog| && backlog[i] == reached[j];
      assert i == k;
    }
  }
}
