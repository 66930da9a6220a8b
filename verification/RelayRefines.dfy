/** The relay's code is a run of the relay protocol: what `_relay_batch` and `_relay_pass` in
    `impl/lnpl/cli.py` do, event by event, for one relay. */
module RelayRefines {
  import opened Wrappers
  import opened Text
  import opened RelayPass
  import P = RelayProtocol

  /** What the far side's answer to a row means: 200 confirms and 422 rejects for good, a publish that
      returns confirms and `PublishRejected` rejects; nothing else does either. */
  function AnswerOf(w: World, b: nat, row: Row): P.Answer {
    if row.event !in w.declared then P.Unconfirmed
    else
      match w.peer
      case Http(post) =>
        if post(b, row) == Some(200) then P.Confirmed
        else if post(b, row) == Some(422) then P.Rejected
        else P.Unconfirmed
      case Publisher(publish) =>
        match publish(b, row)
        case Published => P.Confirmed
        case PublishRejected => P.Rejected
        case PublishFault => P.Unconfirmed
  }

  function AnswersOf(w: World, b: nat, rows: seq<Row>): (answers: seq<P.Answer>)
    ensures |answers| == |rows|
  {
    seq(|rows|, k requires 0 <= k < |rows| => AnswerOf(w, b, rows[k]))
  }

  function Publishes(answers: seq<P.Answer>): (events: seq<P.Event>)
    ensures |events| == |answers|
  {
    if answers == [] then [] else [P.Publish(0, answers[0])] + Publishes(answers[1..])
  }

  /** The events of batch `b`, drained from `backlog`. */
  function BatchEvents(w: World, limit: Option<nat>, b: nat, backlog: seq<Row>): seq<P.Event> {
    var rows := backlog[..Window(limit, backlog)];
    var answers := AnswersOf(w, b, rows);
    var drained := [P.Begin(0), P.Drain(0, IdsOf(rows), limit)];
    if w.trouble(b).DrainRaises? then [P.Begin(0), P.Rollback(0)]
    else if w.trouble(b).RowRaises? && w.trouble(b).k < |rows| then
      drained + (Publishes(answers[..w.trouble(b).k]) + [P.Rollback(0)])
    else if w.trouble(b).AckRaises? && (exists k :: 0 <= k < |rows| && answers[k] != P.Unconfirmed) then
      drained + (Publishes(answers) + [P.Rollback(0)])
    else
      drained + (Publishes(answers)
                 + [P.Acknowledge(0), if w.trouble(b).CommitRaises? then P.CommitRaises(0) else P.Commit(0)])
  }

  ghost predicate HasId(rows: seq<Row>, id: nat) {
    exists k :: 0 <= k < |rows| && rows[k].id == id
  }

  /** The protocol's state of an idle relay with this outbox. */
  ghost predicate Mirrors(s: P.State, backlog: seq<Row>, delivered: seq<nat>) {
    && Sorted(backlog) && s.relays == [P.Idle] && s.delivered <= s.rows
    && (forall id :: id in s.rows - s.delivered <==> HasId(backlog, id))
    && (forall id :: id in s.delivered <==> id in delivered)
  }

  // ---- Events --------------------------------------------------------------------------

  lemma {:induction false} AfterConcat(s: P.State, a: seq<P.Event>, b: seq<P.Event>)
    requires P.After(s, a).Some?
    ensures P.After(s, a + b) == P.After(P.After(s, a).value, b)
    decreases a
  {
    hide P.Enabled, P.Next;
    if a == [] {
      assert a + b == b;
    } else {
      assert (a + b)[1..] == a[1..] + b;
      AfterConcat(P.Next(s, a[0]), a[1..], b);
    }
  }

  lemma OneEvent(s: P.State, e: P.Event)
    requires P.Enabled(s, e)
    ensures P.After(s, [e]) == Some(P.Next(s, e))
  {
    hide P.Enabled, P.Next;
    assert [e][1..] == [];
    assert P.After(P.Next(s, e), []) == Some(P.Next(s, e));
  }

  lemma TwoEvents(s: P.State, e: P.Event, f: P.Event)
    requires P.Enabled(s, e) && P.Enabled(P.Next(s, e), f)
    ensures P.After(s, [e, f]) == Some(P.Next(P.Next(s, e), f))
  {
    hide P.Enabled, P.Next;
    OneEvent(s, e);
    OneEvent(P.Next(s, e), f);
    AfterConcat(s, [e], [f]);
    assert [e] + [f] == [e, f];
  }

  /** The same but for its relay and the answers counted. */
  ghost predicate SameBut(s: P.State, t: P.State) {
    && t.rows == s.rows && t.delivered == s.delivered && t.begins == s.begins && t.commits == s.commits
    && t.rollbacks == s.rollbacks && t.drops == s.drops
  }

  lemma PublishOne(s: P.State, rows: seq<nat>, done: seq<P.Answer>, answer: P.Answer)
    requires s.relays == [P.Publishing(P.Batch(rows, done))] && |done| < |rows|
    ensures P.Enabled(s, P.Publish(0, answer))
    ensures SameBut(s, P.Next(s, P.Publish(0, answer)))
    ensures P.Next(s, P.Publish(0, answer)).relays == [P.Publishing(P.Batch(rows, done + [answer]))]
  {
  }

  lemma AfterFirst(s: P.State, e: P.Event, rest: seq<P.Event>)
    requires P.Enabled(s, e)
    ensures P.After(s, [e] + rest) == P.After(P.Next(s, e), rest)
  {
    hide P.Enabled, P.Next;
    assert ([e] + rest)[1..] == rest;
  }

  lemma SameThrough(s: P.State, t: P.State, v: P.State)
    requires SameBut(s, t) && SameBut(t, v)
    ensures SameBut(s, v)
  {
  }

  lemma NoEvents(s: P.State)
    ensures Publishes([]) == [] && P.After(s, []) == Some(s) && SameBut(s, s)
  {
  }

  lemma {:induction false} PublishesRun(s: P.State, rows: seq<nat>, done: seq<P.Answer>, answers: seq<P.Answer>)
    requires s.relays == [P.Publishing(P.Batch(rows, done))] && |done| + |answers| <= |rows|
    ensures var t := P.After(s, Publishes(answers));
            t.Some? && SameBut(s, t.value) && t.value.relays == [P.Publishing(P.Batch(rows, done + answers))]
    decreases |answers|
  {
    hide *;
    if answers == [] {
      assert done + answers == done;
      NoEvents(s);
    } else {
      var e, rest := P.Publish(0, answers[0]), answers[1..];
      PublishOne(s, rows, done, answers[0]);
      PublishesRun(P.Next(s, e), rows, done + [answers[0]], rest);
      assert (done + [answers[0]]) + rest == done + answers;
      AfterFirst(s, e, Publishes(rest));
      PublishesFirst(answers);
      SameThrough(s, P.Next(s, e), P.After(P.Next(s, e), Publishes(rest)).value);
    }
  }

  lemma PublishesFirst(answers: seq<P.Answer>)
    requires answers != []
    ensures Publishes(answers) == [P.Publish(0, answers[0])] + Publishes(answers[1..])
  {
  }

  lemma WindowIds(backlog: seq<Row>, n: nat)
    requires n <= |backlog| && Sorted(backlog)
    ensures var ids := IdsOf(backlog[..n]);
            && (forall k :: 0 <= k < n ==> ids[k] == backlog[k].id)
            && (forall j, k :: 0 <= j < k < n ==> ids[j] < ids[k])
  {
  }

  lemma DrainsWindow(s: P.State, limit: Option<nat>, backlog: seq<Row>, delivered: seq<nat>)
    requires Mirrors(s, backlog, delivered)
    ensures P.Drains(IdsOf(backlog[..Window(limit, backlog)]), s.rows - s.delivered, limit)
  {
    var n := Window(limit, backlog);
    var ids := IdsOf(backlog[..n]);
    WindowIds(backlog, n);
    hide IdsOf;
    forall k | 0 <= k < n ensures ids[k] in s.rows - s.delivered {
      assert HasId(backlog, backlog[k].id);
    }
    forall row | row in s.rows - s.delivered && row !in ids
      ensures limit.Some? && n == limit.value && forall k :: 0 <= k < n ==> ids[k] < row
    {
      assert HasId(backlog, row);
      var k :| 0 <= k < |backlog| && backlog[k].id == row;
      assert k >= n;
    }
  }

  /** Begin and drain, with nothing else open. */
  lemma BeginDrain(s: P.State, limit: Option<nat>, backlog: seq<Row>, delivered: seq<nat>)
    requires Mirrors(s, backlog, delivered)
    ensures var ids := IdsOf(backlog[..Window(limit, backlog)]);
            var t := P.After(s, [P.Begin(0), P.Drain(0, ids, limit)]);
            t.Some? && SameBut(s.(begins := s.begins + 1), t.value)
            && t.value.relays == [P.Publishing(P.Batch(ids, []))]
  {
    var ids := IdsOf(backlog[..Window(limit, backlog)]);
    var e, f := P.Begin(0), P.Drain(0, ids, limit);
    assert P.Enabled(s, e);
    var next := P.Next(s, e);
    assert next.relays == [P.Begun];
    assert P.LockedBy(next.relays) == {};
    assert P.Available(next) == s.rows - s.delivered;
    hide P.Drains, Mirrors;
    DrainsWindow(s, limit, backlog, delivered);
    TwoEvents(s, e, f);
  }

  // ---- Rows ----------------------------------------------------------------------------

  lemma AnswerMeans(w: World, b: nat, row: Row)
    ensures AnswerOf(w, b, row) != P.Unconfirmed <==> Acks(w, b, row)
  {
  }

  /** The ids a batch acknowledges. */
  lemma AckedIdsAre(w: World, b: nat, rows: seq<Row>, id: nat)
    ensures id in IdsOf(AckedOf(w, b, rows))
       <==> exists k :: 0 <= k < |rows| && rows[k].id == id && AnswersOf(w, b, rows)[k] != P.Unconfirmed
  {
    hide Acks, AnswerOf, IdsOf, AckedOf;
    AckedIds(w, b, rows, id);
    forall k | 0 <= k < |rows| ensures AnswersOf(w, b, rows)[k] != P.Unconfirmed <==> Acks(w, b, rows[k]) {
      AnswerMeans(w, b, rows[k]);
    }
  }

  lemma SomeAnswer(w: World, b: nat, rows: seq<Row>)
    ensures AckedOf(w, b, rows) != []
       <==> exists k :: 0 <= k < |rows| && AnswersOf(w, b, rows)[k] != P.Unconfirmed
  {
    hide AckedOf, AnswersOf;
    var acked := AckedOf(w, b, rows);
    if acked != [] {
      AckedIdsAre(w, b, rows, IdsOf(acked)[0]);
    }
    if k :| 0 <= k < |rows| && AnswersOf(w, b, rows)[k] != P.Unconfirmed {
      AckedIdsAre(w, b, rows, rows[k].id);
    }
  }

  lemma EscapesAre(w: World, limit: Option<nat>, b: nat, backlog: seq<Row>)
    ensures var rows := backlog[..Window(limit, backlog)];
            Escapes(w, b, rows)
            <==> || w.trouble(b).DrainRaises? || (w.trouble(b).RowRaises? && w.trouble(b).k < |rows|)
                 || (w.trouble(b).AckRaises?
                     && exists k :: 0 <= k < |rows| && AnswersOf(w, b, rows)[k] != P.Unconfirmed)
  {
    hide AckedOf, AnswersOf;
    SomeAnswer(w, b, backlog[..Window(limit, backlog)]);
  }

  // ---- A batch is a run ----------------------------------------------------------------

  /** A batch that an exception ends before its commit leaves everything but the counts. */
  lemma RolledBackRun(w: World, limit: Option<nat>, b: nat, backlog: seq<Row>, delivered: seq<nat>, s: P.State)
    requires Mirrors(s, backlog, delivered) && Escapes(w, b, backlog[..Window(limit, backlog)])
    ensures var t := P.After(s, BatchEvents(w, limit, b, backlog));
            t.Some? && SameBut(s.(begins := s.begins + 1, rollbacks := s.rollbacks + 1), t.value)
            && t.value.relays == [P.Idle]
  {
    hide AnswerOf, Escapes, AnswersOf, Mirrors, Publishes;
    EscapesAre(w, limit, b, backlog);
    var rows := backlog[..Window(limit, backlog)];
    var ids, answers := IdsOf(rows), AnswersOf(w, b, rows);
    if w.trouble(b).DrainRaises? {
      MirrorsIdle(s, backlog, delivered);
      TwoEvents(s, P.Begin(0), P.Rollback(0));
    } else {
      var given := if w.trouble(b).RowRaises? then answers[..w.trouble(b).k] else answers;
      BeginDrain(s, limit, backlog, delivered);
      var drained := [P.Begin(0), P.Drain(0, ids, limit)];
      var s2 := P.After(s, drained).value;
      PublishesRun(s2, ids, [], given);
      var s3 := P.After(s2, Publishes(given)).value;
      assert P.Enabled(s3, P.Rollback(0));
      OneEvent(s3, P.Rollback(0));
      AfterConcat(s2, Publishes(given), [P.Rollback(0)]);
      AfterConcat(s, drained, Publishes(given) + [P.Rollback(0)]);
    }
  }

  lemma MirrorsIdle(s: P.State, backlog: seq<Row>, delivered: seq<nat>)
    requires Mirrors(s, backlog, delivered)
    ensures s.relays == [P.Idle]
  {
  }

  /** Acknowledge and commit, once every row is answered. */
  lemma CloseRun(s: P.State, batch: P.Batch, raises: bool)
    requires s.relays == [P.Publishing(batch)] && |batch.answers| == |batch.rows|
    ensures var t := P.After(s, [P.Acknowledge(0), if raises then P.CommitRaises(0) else P.Commit(0)]);
            && t.Some?
            && (raises ==> SameBut(s, t.value) && t.value.relays == [P.Stranded(batch)])
            && (!raises ==> SameBut(s.(commits := s.commits + 1, delivered := s.delivered + batch.Acked()), t.value)
                            && t.value.relays == [P.Idle])
  {
    hide P.Batch.Acked, P.After;
    var close := if raises then P.CommitRaises(0) else P.Commit(0);
    assert P.Enabled(s, P.Acknowledge(0));
    assert P.Next(s, P.Acknowledge(0)).relays == [P.Acknowledged(batch)];
    TwoEvents(s, P.Acknowledge(0), close);
  }

  lemma ClosedEvents(w: World, limit: Option<nat>, b: nat, backlog: seq<Row>)
    requires !Escapes(w, b, backlog[..Window(limit, backlog)])
    ensures var rows := backlog[..Window(limit, backlog)];
            BatchEvents(w, limit, b, backlog)
            == [P.Begin(0), P.Drain(0, IdsOf(rows), limit)]
               + (Publishes(AnswersOf(w, b, rows))
                  + [P.Acknowledge(0), if w.trouble(b).CommitRaises? then P.CommitRaises(0) else P.Commit(0)])
  {
    hide AnswersOf, Escapes, Publishes, IdsOf;
    EscapesAre(w, limit, b, backlog);
  }

  /** A batch without one acknowledges what was answered, and commits or is left open. */
  lemma ClosedRun(w: World, limit: Option<nat>, b: nat, backlog: seq<Row>, delivered: seq<nat>, s: P.State)
    requires Mirrors(s, backlog, delivered) && !Escapes(w, b, backlog[..Window(limit, backlog)])
    ensures var rows := backlog[..Window(limit, backlog)];
            var t, batch := P.After(s, BatchEvents(w, limit, b, backlog)), P.Batch(IdsOf(rows), AnswersOf(w, b, rows));
            && t.Some?
            && (w.trouble(b).CommitRaises? ==> SameBut(s.(begins := s.begins + 1), t.value)
                                               && t.value.relays == [P.Stranded(batch)])
            && (!w.trouble(b).CommitRaises? ==>
                  SameBut(s.(begins := s.begins + 1, commits := s.commits + 1,
                             delivered := s.delivered + batch.Acked()), t.value)
                  && t.value.relays == [P.Idle])
  {
    hide Escapes, AnswersOf, Mirrors, Publishes, P.Batch.Acked, P.After, BatchEvents, IdsOf;
    ClosedEvents(w, limit, b, backlog);
    var rows := backlog[..Window(limit, backlog)];
    var ids, answers := IdsOf(rows), AnswersOf(w, b, rows);
    BeginDrain(s, limit, backlog, delivered);
    var drained := [P.Begin(0), P.Drain(0, ids, limit)];
    var s2 := P.After(s, drained).value;
    PublishesRun(s2, ids, [], answers);
    assert [] + answers == answers;
    var s3 := P.After(s2, Publishes(answers)).value;
    var close := if w.trouble(b).CommitRaises? then P.CommitRaises(0) else P.Commit(0);
    CloseRun(s3, P.Batch(ids, answers), w.trouble(b).CommitRaises?);
    AfterConcat(s2, Publishes(answers), [P.Acknowledge(0), close]);
    AfterConcat(s, drained, Publishes(answers) + [P.Acknowledge(0), close]);
  }

  lemma AckedSetIs(w: World, b: nat, rows: seq<Row>, id: nat)
    ensures id in P.Batch(IdsOf(rows), AnswersOf(w, b, rows)).Acked() <==> id in IdsOf(AckedOf(w, b, rows))
  {
    hide AnswerOf, AckedOf, AnswersOf;
    AckedIdsAre(w, b, rows, id);
  }

  lemma MirrorsAfter(w: World, limit: Option<nat>, b: nat, backlog: seq<Row>, delivered: seq<nat>, s: P.State,
                     t: P.State)
    requires Mirrors(s, backlog, delivered)
    requires var rows := backlog[..Window(limit, backlog)];
             t.relays == [P.Idle] && t.rows == s.rows
             && t.delivered == s.delivered + P.Batch(IdsOf(rows), AnswersOf(w, b, rows)).Acked()
    ensures var ids := IdsOf(AckedOf(w, b, backlog[..Window(limit, backlog)]));
            Mirrors(t, Without(backlog, ids), delivered + ids)
  {
    hide AnswerOf, AnswersOf, AckedOf, P.Batch.Acked, IdsOf, Sorted, HasId, Without;
    var rows := backlog[..Window(limit, backlog)];
    var ids := IdsOf(AckedOf(w, b, rows));
    var left := Without(backlog, ids);
    WithoutSorted(backlog, ids);
    forall id ensures id in P.Batch(IdsOf(rows), AnswersOf(w, b, rows)).Acked() <==> id in ids {
      AckedSetIs(w, b, rows, id);
    }
    forall id | id in ids ensures HasId(backlog, id) {
      AckedAreHeld(w, limit, b, backlog, id);
    }
    forall id ensures HasId(left, id) <==> HasId(backlog, id) && id !in ids {
      LeftHeld(backlog, ids, id);
    }
    var acked := P.Batch(IdsOf(rows), AnswersOf(w, b, rows)).Acked();
    assert forall id :: id in t.rows - t.delivered <==> id in s.rows - s.delivered && id !in acked;
    assert forall id :: id in ids ==> id in s.rows - s.delivered;
  }

  lemma AckedAreHeld(w: World, limit: Option<nat>, b: nat, backlog: seq<Row>, id: nat)
    requires id in IdsOf(AckedOf(w, b, backlog[..Window(limit, backlog)]))
    ensures HasId(backlog, id)
  {
    hide AckedOf, AnswersOf, IdsOf;
    AckedIdsAre(w, b, backlog[..Window(limit, backlog)], id);
  }

  lemma LeftHeld(backlog: seq<Row>, ids: seq<nat>, id: nat)
    ensures HasId(Without(backlog, ids), id) <==> HasId(backlog, id) && id !in ids
  {
    hide Without;
    var left := Without(backlog, ids);
    WithoutMembers(backlog, ids);
    if HasId(left, id) {
      var k :| 0 <= k < |left| && left[k].id == id;
      assert left[k] in left;
    }
    if HasId(backlog, id) && id !in ids {
      var k :| 0 <= k < |backlog| && backlog[k].id == id;
      assert backlog[k] in left;
    }
  }

  /** A batch is a run of the protocol with one relay. It is closed by one commit or rolled back, or left open
      by a commit that raises; after a commit the protocol's state is that of what the code leaves. */
  lemma BatchIsRun(w: World, limit: Option<nat>, b: nat, backlog: seq<Row>, delivered: seq<nat>, s: P.State)
    requires Mirrors(s, backlog, delivered)
    ensures var rows := backlog[..Window(limit, backlog)];
            var t, ids := P.After(s, BatchEvents(w, limit, b, backlog)), IdsOf(AckedOf(w, b, rows));
            && t.Some? && t.value.begins == s.begins + 1 && t.value.rows == s.rows
            && (Escapes(w, b, rows) ==> Mirrors(t.value, backlog, delivered) && t.value.rollbacks == s.rollbacks + 1
                                        && t.value.commits == s.commits)
            && (!Escapes(w, b, rows) && w.trouble(b).CommitRaises? ==>
                  t.value.relays == [P.Stranded(P.Batch(IdsOf(rows), AnswersOf(w, b, rows)))]
                  && t.value.delivered == s.delivered
                  && t.value.rollbacks == s.rollbacks && t.value.commits == s.commits)
            && (!Escapes(w, b, rows) && !w.trouble(b).CommitRaises? ==>
                  Mirrors(t.value, Without(backlog, ids), delivered + ids) && t.value.commits == s.commits + 1
                  && t.value.rollbacks == s.rollbacks)
  {
    hide AnswersOf, AckedOf, Without, Escapes, BatchEvents, P.After, IdsOf, P.Batch.Acked;
    if Escapes(w, b, backlog[..Window(limit, backlog)]) {
      RolledBackRun(w, limit, b, backlog, delivered, s);
    } else {
      ClosedRun(w, limit, b, backlog, delivered, s);
      var t := P.After(s, BatchEvents(w, limit, b, backlog)).value;
      if !w.trouble(b).CommitRaises? {
        MirrorsAfter(w, limit, b, backlog, delivered, s, t);
      }
    }
  }

  // ---- What the far side did -----------------------------------------------------------

  /** A row joins the delivered ones exactly if its batch was committed and the far side, in that batch,
      answered 200 or 422 for it, or took or refused for good what was published; its event is declared. */
  lemma DeliveredExactly(w: World, limit: Option<nat>, b: nat, backlog: seq<Row>, delivered: seq<nat>, s: P.State,
                         id: nat)
    requires Mirrors(s, backlog, delivered)
    ensures var rows, t := backlog[..Window(limit, backlog)], P.After(s, BatchEvents(w, limit, b, backlog));
            t.Some? && (id in t.value.delivered - s.delivered
                        <==> !Escapes(w, b, rows) && !w.trouble(b).CommitRaises?
                             && exists k :: 0 <= k < |rows| && rows[k].id == id && rows[k].event in w.declared
                                  && if w.peer.Http? then w.peer.post(b, rows[k]) in {Some(200), Some(422)}
                                     else w.peer.publish(b, rows[k]) in {Published, PublishRejected})
  {
    hide AnswersOf, AckedOf, Without, Escapes, BatchEvents, P.After, IdsOf, Sorted, HasId;
    var rows := backlog[..Window(limit, backlog)];
    BatchIsRun(w, limit, b, backlog, delivered, s);
    AckedIds(w, b, rows, id);
    if id in IdsOf(AckedOf(w, b, rows)) {
      AckedAreHeld(w, limit, b, backlog, id);
    }
  }

  // ---- A pass is a run -----------------------------------------------------------------

  /** The events of a pass from batch `b + 1` on. */
  function PassEvents(w: World, limit: Option<nat>, b: nat, backlog: seq<Row>): seq<P.Event>
    decreases |backlog|
  {
    var n := Window(limit, backlog);
    var ids := IdsOf(AckedOf(w, b + 1, backlog[..n]));
    var left := Without(backlog, ids);
    BatchEvents(w, limit, b + 1, backlog)
    + if Escapes(w, b + 1, backlog[..n]) || w.trouble(b + 1).CommitRaises? || limit.None? || n < limit.value
         || ids == [] || |left| >= |backlog| then []
      else PassEvents(w, limit, b + 1, left)
  }

  /** A pass is a run of the protocol: of its batches, one after the other. */
  lemma {:induction false} PassIsRun(w: World, limit: Option<nat>, b: nat, backlog: seq<Row>, delivered: seq<nat>,
                                     s: P.State)
    requires Mirrors(s, backlog, delivered)
    ensures var t, pass := P.After(s, PassEvents(w, limit, b, backlog)), Run(w, limit, b, backlog);
            && t.Some? && t.value.begins == s.begins + pass.batches && t.value.rows == s.rows
            && (pass.ending.LeftOpen? ==> forall id :: id in t.value.delivered <==> id in delivered + pass.acked)
            && (!pass.ending.LeftOpen? ==> Mirrors(t.value, pass.left, delivered + pass.acked))
    decreases |backlog|
  {
    hide AckedOf, Without, Escapes, BatchEvents, P.After, IdsOf, AnswersOf;
    var events := BatchEvents(w, limit, b + 1, backlog);
    var rows := backlog[..Window(limit, backlog)];
    var ids := IdsOf(AckedOf(w, b + 1, rows));
    var left := Without(backlog, ids);
    BatchIsRun(w, limit, b + 1, backlog, delivered, s);
    var t := P.After(s, events).value;
    assert delivered + [] == delivered && events + [] == events;
    if !Escapes(w, b + 1, rows) && !w.trouble(b + 1).CommitRaises?
       && !(limit.None? || |rows| < limit.value || ids == [] || |left| >= |backlog|) {
      PassIsRun(w, limit, b + 1, left, delivered + ids, t);
      AfterConcat(s, events, PassEvents(w, limit, b + 1, left));
      Assoc(delivered, ids, Run(w, limit, b + 1, left).acked);
    } else {
      DeliveredMirrors(s, backlog, delivered);
    }
  }

  lemma DeliveredMirrors(s: P.State, backlog: seq<Row>, delivered: seq<nat>)
    requires Mirrors(s, backlog, delivered)
    ensures forall id :: id in s.delivered <==> id in delivered
  {
  }

  /** What holds of every run of the protocol holds of a pass from an untouched outbox: each row it
      acknowledges was answered, and committed in the batch of that answer. */
  lemma PassIsSafe(w: World, limit: Option<nat>, backlog: seq<Row>, id: nat)
    requires Sorted(backlog) && id in Run(w, limit, 0, backlog).acked
    ensures var s, events := P.Initial(set k | 0 <= k < |backlog| :: backlog[k].id, 1),
            PassEvents(w, limit, 0, backlog);
            && P.After(s, events).Some? && P.Invariant(P.After(s, events).value)
            && exists r: nat, j: nat, k: nat :: j < k < |events| && events[k] == P.Commit(r)
                 && P.AnswersRow(s, events, j, r, id) && P.OneBatch(events, j, k, r)
  {
    var rows := set k | 0 <= k < |backlog| :: backlog[k].id;
    var s, events := P.Initial(rows, 1), PassEvents(w, limit, 0, backlog);
    assert Mirrors(s, backlog, []);
    hide *;
    PassIsRun(w, limit, 0, backlog, [], s);
    assert [] + Run(w, limit, 0, backlog).acked == Run(w, limit, 0, backlog).acked;
    P.EveryRunIsSafe(rows, 1, events);
    if !Run(w, limit, 0, backlog).ending.LeftOpen? {
      DeliveredMirrors(P.After(s, events).value, Run(w, limit, 0, backlog).left, Run(w, limit, 0, backlog).acked);
    }
    P.DeliveredWasAnswered(rows, 1, events, id);
  }
}
