/** What the gate over edits conserves, structure check included (`_structure_fault` in
    `impl/lnpl/protocol.py`, `Reviewer._assess` in `impl/lnpl/agents.py`): exactly which references
    survive every approval. A reference that does not survive is lost by edits built here, which
    strip its holders and name one new node as the destination. */
module Laundering {
  import opened Wrappers
  import opened Review

  // ---- The structure rules -------------------------------------------------------------

  const CHILDREN := "children"

  /** The kinds that may be unowned: declarations and constraints. */
  predicate IsEntry(kind: string) {
    kind in {"Entity", "Service", "Workflow", "Event", "Capability", "Policy", "Security", "Performance"}
  }

  /** `CHILDREN_ALLOWED`. */
  function MayOwn(kind: string): set<string> {
    if kind == "Entity" then {"Validation"}
    else if kind == "Service" then {"Workflow", "Pipeline", "BusinessRule"}
    else if kind == "Workflow" then {"WorkflowStep", "Guard", "Concurrency", "Pipeline"}
    else if kind == "WorkflowStep" then
      {"Validation", "BusinessRule", "NetworkCall", "RepositoryCall", "CacheAccess", "Transaction", "Authorization",
       "EventEmit", "Concurrency", "Pipeline"}
    else if kind == "Guard" then {"WorkflowStep", "Concurrency", "Pipeline"}
    else if kind == "Pipeline" || kind == "Concurrency" then {"WorkflowStep"}
    else if kind == "Transaction" then
      {"RepositoryCall", "NetworkCall", "CacheAccess", "EventEmit", "BusinessRule", "Validation"}
    else {}
  }

  function Owned(doc: Document, id: string): set<string> {
    RefsIn(At(doc, id), CHILDREN)
  }

  ghost predicate NothingDangles(doc: Document) {
    forall id, field, ref :: id in doc && field in doc[id].refs && ref in doc[id].refs[field] ==> ref in doc
  }

  ghost predicate OneOwner(doc: Document) {
    forall x, y, ref :: ref in Owned(doc, x) && ref in Owned(doc, y) ==> x == y
  }

  ghost predicate NoOrphan(doc: Document) {
    forall id :: id in doc && !IsEntry(doc[id].kind) ==> exists owner :: id in Owned(doc, owner)
  }

  ghost predicate Descends(doc: Document, rank: string -> nat) {
    forall x, y :: y in Owned(doc, x) ==> rank(y) < rank(x)
  }

  ghost predicate Acyclic(doc: Document) {
    exists rank :: Descends(doc, rank)
  }

  ghost predicate KindsOwned(doc: Document) {
    forall x, y :: x in doc && y in Owned(doc, x) && y in doc ==> doc[y].kind in MayOwn(doc[x].kind)
  }

  /** A guard owns its item, and an `otherwise` item only if it is a `when`. */
  ghost predicate GuardsHoldOne(doc: Document) {
    forall id :: id in doc && doc[id].kind == "Guard" ==>
      |Owned(doc, id)| == 1 || (doc[id].mode == "when" && |Owned(doc, id)| == 2)
  }

  ghost predicate Structured(doc: Document) {
    NothingDangles(doc) && OneOwner(doc) && NoOrphan(doc) && Acyclic(doc) && KindsOwned(doc) && GuardsHoldOne(doc)
  }

  /** Approved, when rights, provenance and schema are in order. */
  ghost predicate Approved(doc: Document, edits: seq<Edit>, fields: seq<string>, moves: map<Drop, string>) {
    Gate(doc, edits, fields, moves, Structured(Merged(doc, edits)))
  }

  // ---- What is conserved ---------------------------------------------------------------

  ghost predicate Held(doc: Document, field: string, ref: string) {
    exists id :: id in doc && ref in RefsIn(At(doc, id), field)
  }

  /** Some holder holds the reference through field number `k` and no later one. */
  ghost predicate HeldLast(doc: Document, fields: seq<string>, k: nat, ref: string)
    requires k < |fields|
  {
    exists id :: && id in doc && ref in RefsIn(At(doc, id), fields[k])
                 && forall j :: k < j < |fields| ==> ref !in RefsIn(At(doc, id), fields[j])
  }

  lemma {:induction false} LastFieldIs(doc: Document, edit: Edit, fields: seq<string>, k: nat, d: Drop)
    requires k < |fields| && Drops(doc, edit, d, fields[k])
    requires forall j :: k < j < |fields| ==> !Drops(doc, edit, d, fields[j])
    ensures LastField(doc, edit, fields, d) == Some(fields[k])
  {
    if k < |fields| - 1 {
      var init := fields[..|fields| - 1];
      assert forall j :: 0 <= j < |init| ==> init[j] == fields[j];
      LastFieldIs(doc, edit, init, k, d);
    }
  }

  /** The reference a node lost in the end, from the last field it held it through, is remembered
      under that field. */
  lemma {:induction false} RememberedLast(doc: Document, edits: seq<Edit>, fields: seq<string>, k: nat, d: Drop)
    requires k < |fields| && d.from in doc && d.ref in RefsIn(At(doc, d.from), fields[k])
    requires forall j :: k < j < |fields| ==> d.ref !in RefsIn(At(doc, d.from), fields[j])
    requires d.ref !in RefsIn(At(Merged(doc, edits), d.from), fields[k])
    ensures Remembered(doc, edits, fields, d) == Some(fields[k])
  {
    var init, last := edits[..|edits| - 1], edits[|edits| - 1];
    if last.id == d.from {
      LastFieldIs(doc, last, fields, k, d);
    } else {
      assert At(Merged(doc, edits), d.from) == At(Merged(doc, init), d.from);
      NotDropped(doc, last, fields, d);
      RememberedLast(doc, init, fields, k, d);
    }
  }

  lemma {:induction false} NotDropped(doc: Document, edit: Edit, fields: seq<string>, d: Drop)
    requires forall j :: 0 <= j < |fields| ==> !Drops(doc, edit, d, fields[j])
    ensures LastField(doc, edit, fields, d).None?
  {
    if fields != [] {
      var init := fields[..|fields| - 1];
      assert forall j :: 0 <= j < |init| ==> init[j] == fields[j];
      NotDropped(doc, edit, init, d);
    }
  }

  lemma HeldLastIsKept(doc: Document, edits: seq<Edit>, fields: seq<string>, moves: map<Drop, string>, k: nat,
                       ref: string)
    requires k < |fields| && HeldLast(doc, fields, k, ref) && Approved(doc, edits, fields, moves)
    ensures Held(Merged(doc, edits), fields[k], ref)
  {
    hide Remembered, Merged, Structured;
    var id :| && id in doc && ref in RefsIn(At(doc, id), fields[k])
              && forall j :: k < j < |fields| ==> ref !in RefsIn(At(doc, id), fields[j]);
    var after, d := Merged(doc, edits), Drop(id, ref);
    MergedIs(doc, edits, id);
    if ref !in RefsIn(At(after, id), fields[k]) {
      RememberedLast(doc, edits, fields, k, d);
      assert MoveLands(doc, edits, fields, d, moves[d]);
      assert ref in RefsIn(At(after, moves[d]), fields[k]);
    }
  }

  // ---- The edit that loses a reference -------------------------------------------------

  function Without(node: Node, from: set<string>, ref: string): Node {
    node.(refs := map g | g in node.refs :: if g in from then node.refs[g] - {ref} else node.refs[g])
  }

  function Strips(doc: Document, ids: seq<string>, from: set<string>, ref: string): (edits: seq<Edit>)
    requires forall i :: 0 <= i < |ids| ==> ids[i] in doc
    ensures |edits| == |ids|
  {
    if ids == [] then []
    else
      var last := |ids| - 1;
      Strips(doc, ids[..last], from, ref) + [Edit(ids[last], Without(doc[ids[last]], from, ref))]
  }

  lemma {:induction false} StripsMerge(doc: Document, ids: seq<string>, from: set<string>, ref: string, id: string)
    requires forall i :: 0 <= i < |ids| ==> ids[i] in doc
    ensures var after := Merged(doc, Strips(doc, ids, from, ref));
            && (id in after <==> id in doc)
            && (id in doc ==> after[id] == if id in ids then Without(doc[id], from, ref) else doc[id])
  {
    if ids != [] {
      hide Without;
      var init, last := ids[..|ids| - 1], ids[|ids| - 1];
      StripsMerge(doc, init, from, ref, id);
      var edits := Strips(doc, ids, from, ref);
      assert edits[..|edits| - 1] == Strips(doc, init, from, ref) && ids == init + [last];
    }
  }

  lemma {:induction false} StripsRemember(doc: Document, ids: seq<string>, fields: seq<string>, from: set<string>,
                                          ref: string, d: Drop)
    requires forall i :: 0 <= i < |ids| ==> ids[i] in doc
    ensures Remembered(doc, Strips(doc, ids, from, ref), fields, d)
         == if d.from in ids then LastField(doc, Edit(d.from, Without(doc[d.from], from, ref)), fields, d) else None
  {
    if ids != [] {
      hide Without, LastField, Remembered, Drops;
      var init, last := ids[..|ids| - 1], ids[|ids| - 1];
      StripsRemember(doc, init, fields, from, ref, d);
      var edit := Edit(last, Without(doc[last], from, ref));
      RememberedNext(doc, Strips(doc, init, from, ref), edit, fields, d);
      assert ids == init + [last];
      if d.from != last {
        OthersKeep(doc, edit, fields, d);
      }
    } else {
      NothingRemembered(doc, fields, d);
    }
  }

  lemma RememberedNext(doc: Document, edits: seq<Edit>, edit: Edit, fields: seq<string>, d: Drop)
    ensures var last := LastField(doc, edit, fields, d);
            Remembered(doc, edits + [edit], fields, d) == if last.Some? then last else Remembered(doc, edits, fields, d)
  {
    hide LastField;
    assert (edits + [edit])[..|edits|] == edits;
  }

  lemma NothingRemembered(doc: Document, fields: seq<string>, d: Drop)
    ensures Remembered(doc, [], fields, d).None?
  {
  }

  lemma OthersKeep(doc: Document, edit: Edit, fields: seq<string>, d: Drop)
    requires d.from != edit.id
    ensures LastField(doc, edit, fields, d).None?
  {
    NotDropped(doc, edit, fields, d);
  }

  lemma {:induction false} Enumerated(s: set<string>) returns (ids: seq<string>)
    ensures forall x :: x in ids <==> x in s
    decreases |s|
  {
    if s == {} {
      ids := [];
    } else {
      var x :| x in s;
      var rest := Enumerated(s - {x});
      ids := [x] + rest;
    }
  }

  lemma {:induction false} LongerThanAll(s: set<string>) returns (n: nat)
    ensures forall x :: x in s ==> |x| < n
    decreases |s|
  {
    if s == {} {
      n := 0;
    } else {
      var x :| x in s;
      var m := LongerThanAll(s - {x});
      n := if m > |x| then m else |x| + 1;
    }
  }

  lemma Fresh(doc: Document) returns (id: string)
    ensures id !in doc
  {
    var n := LongerThanAll(doc.Keys);
    id := seq(n, _ => 'a');
  }

  function Later(fields: seq<string>, k: nat): set<string>
    requires k <= |fields|
  {
    set j | k <= j < |fields| :: fields[j]
  }

  /** The node that takes what is given up: it holds the reference through every later field. */
  function Taker(fields: seq<string>, k: nat, ref: string): Node
    requires k < |fields|
  {
    var later := Later(fields, k + 1);
    Node("Service", "", map g | g in later :: {ref})
  }

  ghost predicate Distinct(fields: seq<string>) {
    forall i, j :: 0 <= i < j < |fields| ==> fields[i] != fields[j]
  }

  /** What a stripped node is remembered by: the last field it held the reference through. */
  lemma StripRemembered(doc: Document, id: string, fields: seq<string>, k: nat, ref: string, d: Drop)
    requires id in doc && k < |fields| && Distinct(fields) && d.from == id
    requires ref in RefsIn(At(doc, id), fields[k])
    requires exists j :: k < j < |fields| && ref in RefsIn(At(doc, id), fields[j])
    ensures var f := LastField(doc, Edit(id, Without(doc[id], Later(fields, k), ref)), fields, d);
            if d.ref == ref then f.Some? && f.value in Later(fields, k + 1) else f.None?
  {
    var edit := Edit(id, Without(doc[id], Later(fields, k), ref));
    if d.ref != ref {
      NotDropped(doc, edit, fields, d);
    } else {
      var some :| k < some < |fields| && ref in RefsIn(At(doc, id), fields[some]);
      var last := LastHeld(doc, id, fields, some, ref);
      assert fields[last] in Later(fields, k);
      forall j | last < j < |fields| ensures !Drops(doc, edit, d, fields[j]) {
      }
      LastFieldIs(doc, edit, fields, last, d);
      assert fields[last] in Later(fields, k + 1);
    }
  }

  lemma {:induction false} LastHeld(doc: Document, id: string, fields: seq<string>, j: nat, ref: string)
      returns (last: nat)
    requires j < |fields| && ref in RefsIn(At(doc, id), fields[j])
    ensures j <= last < |fields| && ref in RefsIn(At(doc, id), fields[last])
    ensures forall i :: last < i < |fields| ==> ref !in RefsIn(At(doc, id), fields[i])
    decreases |fields| - j
  {
    last := j;
    if i :| j < i < |fields| && ref in RefsIn(At(doc, id), fields[i]) {
      last := LastHeld(doc, id, fields, i, ref);
    }
  }

  /** The edits: every holder gives the reference up from field `k` on, and one new node takes it. */
  function Launder(doc: Document, ids: seq<string>, taker: string, fields: seq<string>, k: nat, ref: string): seq<Edit>
    requires k < |fields| && forall i :: 0 <= i < |ids| ==> ids[i] in doc
  {
    Strips(doc, ids, Later(fields, k), ref) + [Edit(taker, Taker(fields, k, ref))]
  }

  function LaunderMoves(ids: seq<string>, taker: string, ref: string): map<Drop, string> {
    map id | id in ids :: Drop(id, ref) := taker
  }

  /** The holders are all that hold the reference through field `k`, and each holds it through a
      later one too. */
  ghost predicate Holders(doc: Document, ids: seq<string>, fields: seq<string>, k: nat, ref: string)
    requires k < |fields|
  {
    && (forall id :: id in ids <==> id in doc && ref in RefsIn(At(doc, id), fields[k]))
    && forall id :: id in ids ==> exists j :: k < j < |fields| && ref in RefsIn(At(doc, id), fields[j])
  }

  /** The document `after` the edits, next to the one before. */
  ghost predicate Laundered(doc: Document, after: Document, ids: seq<string>, taker: string, fields: seq<string>,
                            k: nat, ref: string)
    requires k < |fields|
  {
    forall id ::
      && (id in after <==> id in doc || id == taker)
      && (id in doc ==> id in after && after[id] == if id in ids then Without(doc[id], Later(fields, k), ref)
          else doc[id])
      && (id == taker ==> id in after && after[id] == Taker(fields, k, ref))
  }

  lemma MergedLast(doc: Document, edits: seq<Edit>, edit: Edit)
    ensures Merged(doc, edits + [edit]) == Merged(doc, edits)[edit.id := edit.node]
  {
    assert (edits + [edit])[..|edits|] == edits;
  }

  lemma AfterLaunder(doc: Document, ids: seq<string>, taker: string, fields: seq<string>, k: nat, ref: string)
    requires k < |fields| && taker !in doc && forall i :: 0 <= i < |ids| ==> ids[i] in doc
    ensures Laundered(doc, Merged(doc, Launder(doc, ids, taker, fields, k, ref)), ids, taker, fields, k, ref)
  {
    hide Without, Taker, Merged, Strips, Later;
    var edits := Strips(doc, ids, Later(fields, k), ref);
    MergedLast(doc, edits, Edit(taker, Taker(fields, k, ref)));
    forall id
      ensures id in Merged(doc, edits) <==> id in doc
      ensures id in doc ==> Merged(doc, edits)[id] == if id in ids then Without(doc[id], Later(fields, k), ref)
              else doc[id]
    {
      StripsMerge(doc, ids, Later(fields, k), ref, id);
    }
  }

  lemma LaunderRemembers(doc: Document, ids: seq<string>, taker: string, fields: seq<string>, k: nat, ref: string,
                         d: Drop)
    requires k < |fields| && Distinct(fields) && taker !in doc && Holders(doc, ids, fields, k, ref)
    ensures var f := Remembered(doc, Launder(doc, ids, taker, fields, k, ref), fields, d);
            if d.from in ids && d.ref == ref then f.Some? && f.value in Later(fields, k + 1) else f.None?
  {
    hide Without, Taker, LastField, Later;
    var edits := Launder(doc, ids, taker, fields, k, ref);
    assert edits[..|edits| - 1] == Strips(doc, ids, Later(fields, k), ref);
    NotDropped(doc, edits[|edits| - 1], fields, d);
    StripsRemember(doc, ids, fields, Later(fields, k), ref, d);
    if d.from in ids {
      StripRemembered(doc, d.from, fields, k, ref, d);
    }
  }

  lemma LaunderKeepsKinds(doc: Document, ids: seq<string>, taker: string, fields: seq<string>, k: nat, ref: string)
    requires k < |fields| && taker !in doc && forall i :: 0 <= i < |ids| ==> ids[i] in doc
    ensures KindsKept(doc, Launder(doc, ids, taker, fields, k, ref))
  {
    hide Taker;
    StripsKeepKinds(doc, ids, Later(fields, k), ref);
  }

  lemma {:induction false} StripsKeepKinds(doc: Document, ids: seq<string>, from: set<string>, ref: string)
    requires forall i :: 0 <= i < |ids| ==> ids[i] in doc
    ensures forall j :: 0 <= j < |ids| ==>
              var edit := Strips(doc, ids, from, ref)[j]; edit.id in doc && edit.node.kind == doc[edit.id].kind
  {
    if ids != [] {
      StripsKeepKinds(doc, ids[..|ids| - 1], from, ref);
    }
  }

  /** What the nodes own afterwards: what they owned, but for the reference if it left `children`. */
  lemma OwnedAfter(doc: Document, after: Document, ids: seq<string>, taker: string, fields: seq<string>, k: nat,
                   ref: string)
    requires k < |fields| && taker !in doc && CHILDREN !in Later(fields, k + 1)
    requires Laundered(doc, after, ids, taker, fields, k, ref)
    ensures forall id :: Owned(after, id) == if id in ids && fields[k] == CHILDREN then Owned(doc, id) - {ref}
            else Owned(doc, id)
  {
    assert CHILDREN in Later(fields, k) <==> fields[k] == CHILDREN by { LaterSteps(fields, k); }
    hide Later;
    forall id
      ensures Owned(after, id) == if id in ids && fields[k] == CHILDREN then Owned(doc, id) - {ref} else Owned(doc, id)
    {
      assert id in after <==> id in doc || id == taker;
    }
  }

  lemma LaterSteps(fields: seq<string>, k: nat)
    requires k < |fields|
    ensures Later(fields, k) == {fields[k]} + Later(fields, k + 1)
  {
  }

  lemma StillResolves(doc: Document, after: Document, ids: seq<string>, taker: string, fields: seq<string>, k: nat,
                      ref: string)
    requires k < |fields| && Laundered(doc, after, ids, taker, fields, k, ref) && NothingDangles(doc) && ref in doc
    ensures NothingDangles(after)
  {
    hide Later;
    forall id, field, r | id in after && field in after[id].refs && r in after[id].refs[field] ensures r in after {
      assert r in doc by {
        if id in doc {
          assert r in doc[id].refs[field];
        } else {
          assert r == ref;
        }
      }
    }
  }

  /** The structure check passes: nothing dangles, and what loses its owner needs none. */
  lemma LaunderIsStructured(doc: Document, after: Document, ids: seq<string>, taker: string, fields: seq<string>,
                            k: nat, ref: string)
    requires k < |fields| && taker !in doc && CHILDREN !in Later(fields, k + 1) && Structured(doc)
    requires Laundered(doc, after, ids, taker, fields, k, ref)
    requires ref in doc && (fields[k] == CHILDREN ==> IsEntry(doc[ref].kind))
    ensures Structured(after)
  {
    StillResolves(doc, after, ids, taker, fields, k, ref);
    OwnedAfter(doc, after, ids, taker, fields, k, ref);
    KindsAfter(doc, after, ids, taker, fields, k, ref);
    hide Later, MayOwn, Laundered, Owned, NothingDangles, OneOwner, NoOrphan, Acyclic, GuardsHoldOne, KindsOwned;
    OwnersAfter(doc, after, ids, ref, fields[k] == CHILDREN);
    GuardsAfter(doc, after, ids, ref, fields[k] == CHILDREN);
    KindsOwnedAfter(doc, after, ids, ref, fields[k] == CHILDREN);
  }

  /** The owners after the nodes `ids` gave `ref` up, if they owned it. */
  ghost predicate Disowned(doc: Document, after: Document, ids: seq<string>, ref: string, owned: bool) {
    && (forall id :: Owned(after, id) == if id in ids && owned then Owned(doc, id) - {ref} else Owned(doc, id))
    && (forall id :: id in doc ==> id in after && after[id].kind == doc[id].kind && after[id].mode == doc[id].mode)
    && (forall id :: id in after && id !in doc ==> after[id].kind == "Service" && Owned(doc, id) == {})
    && ref in doc && (owned ==> IsEntry(doc[ref].kind))
  }

  lemma OwnersAfter(doc: Document, after: Document, ids: seq<string>, ref: string, owned: bool)
    requires Disowned(doc, after, ids, ref, owned) && OneOwner(doc) && NoOrphan(doc) && Acyclic(doc)
    ensures OneOwner(after) && NoOrphan(after) && Acyclic(after)
  {
    hide Owned;
    forall id | id in after && !IsEntry(after[id].kind) ensures exists owner :: id in Owned(after, owner) {
      var owner :| id in Owned(doc, owner);
      assert id in Owned(after, owner);
    }
    var rank :| Descends(doc, rank);
    RanksAfter(doc, after, rank);
  }

  lemma RanksAfter(doc: Document, after: Document, rank: string -> nat)
    requires Descends(doc, rank) && forall x :: Owned(after, x) <= Owned(doc, x)
    ensures Descends(after, rank)
  {
    forall x, y | y in Owned(after, x) ensures rank(y) < rank(x) {
      assert Owned(after, x) <= Owned(doc, x);
      assert y in Owned(doc, x);
    }
  }

  lemma KindsOwnedAfter(doc: Document, after: Document, ids: seq<string>, ref: string, owned: bool)
    requires Disowned(doc, after, ids, ref, owned) && KindsOwned(doc) && NothingDangles(doc)
    ensures KindsOwned(after)
  {
    hide MayOwn;
    forall x, y | x in after && y in Owned(after, x) && y in after ensures after[y].kind in MayOwn(after[x].kind) {
      assert y in Owned(doc, x);
      assert y in doc;
    }
  }

  lemma GuardsAfter(doc: Document, after: Document, ids: seq<string>, ref: string, owned: bool)
    requires Disowned(doc, after, ids, ref, owned) && KindsOwned(doc) && GuardsHoldOne(doc)
    ensures GuardsHoldOne(after)
  {
    hide Owned, MayOwn;
    assert "Service"[0] != "Guard"[0];
    forall id | id in after && after[id].kind == "Guard" ensures id in doc && Owned(after, id) == Owned(doc, id) {
      if id in ids && owned {
        GuardOwnsNoEntry(doc, id, ref);
      }
    }
  }

  /** Old nodes keep their kinds, and the new one is an entry. */
  lemma KindsAfter(doc: Document, after: Document, ids: seq<string>, taker: string, fields: seq<string>, k: nat,
                   ref: string)
    requires k < |fields| && Laundered(doc, after, ids, taker, fields, k, ref)
    ensures forall id :: id in doc ==> id in after && after[id].kind == doc[id].kind && after[id].mode == doc[id].mode
    ensures forall id :: id in after && id !in doc ==> after[id].kind == "Service" && Owned(doc, id) == {}
    ensures IsEntry("Service")
  {
    hide Later;
  }

  lemma GuardOwnsNoEntry(doc: Document, id: string, ref: string)
    requires KindsOwned(doc) && id in doc && doc[id].kind == "Guard" && ref in doc && IsEntry(doc[ref].kind)
    ensures ref !in Owned(doc, id)
  {
  }

  lemma LaunderIsApproved(doc: Document, ids: seq<string>, taker: string, fields: seq<string>, k: nat, ref: string)
    requires k < |fields| && Distinct(fields) && taker !in doc && CHILDREN !in Later(fields, k + 1) && Structured(doc)
    requires Holders(doc, ids, fields, k, ref) && ref in doc && (fields[k] == CHILDREN ==> IsEntry(doc[ref].kind))
    ensures Approved(doc, Launder(doc, ids, taker, fields, k, ref), fields, LaunderMoves(ids, taker, ref))
    ensures !Held(Merged(doc, Launder(doc, ids, taker, fields, k, ref)), fields[k], ref)
  {
    hide Merged, Launder, Structured, Remembered, LastField;
    var edits, moves := Launder(doc, ids, taker, fields, k, ref), LaunderMoves(ids, taker, ref);
    AfterLaunder(doc, ids, taker, fields, k, ref);
    LaunderIsStructured(doc, Merged(doc, edits), ids, taker, fields, k, ref);
    LaunderKeepsKinds(doc, ids, taker, fields, k, ref);
    forall d ensures Remembered(doc, edits, fields, d).Some? <==> d in moves {
      LaunderRemembers(doc, ids, taker, fields, k, ref, d);
      assert d in moves <==> d.from in ids && d.ref == ref by { MovesAre(ids, taker, ref, d); }
    }
    forall d | d in moves ensures MoveLands(doc, edits, fields, d, moves[d]) {
      MovesAre(ids, taker, ref, d);
      LaunderRemembers(doc, ids, taker, fields, k, ref, d);
      assert Merged(doc, edits)[taker] == Taker(fields, k, ref);
    }
    forall id | id in Merged(doc, edits) ensures ref !in RefsIn(At(Merged(doc, edits), id), fields[k]) {
      LaterSteps(fields, k);
      assert fields[k] !in Later(fields, k + 1);
    }
  }

  lemma MovesAre(ids: seq<string>, taker: string, ref: string, d: Drop)
    ensures d in LaunderMoves(ids, taker, ref) <==> d.from in ids && d.ref == ref
    ensures d in LaunderMoves(ids, taker, ref) ==> LaunderMoves(ids, taker, ref)[d] == taker
  {
    assert d.ref == ref ==> d == Drop(d.from, ref);
  }

  // ---- Main result ---------------------------------------------------------------------

  /** A node that needs an owner keeps one through every approval. */
  lemma OwnedIsKept(doc: Document, edits: seq<Edit>, fields: seq<string>, moves: map<Drop, string>, ref: string)
    requires Approved(doc, edits, fields, moves) && ref in doc && !IsEntry(doc[ref].kind)
    ensures Held(Merged(doc, edits), CHILDREN, ref)
  {
    hide Merged, Remembered;
    ApprovalKeepsNodes(doc, edits, fields, moves, Structured(Merged(doc, edits)), ref);
    var owner :| ref in Owned(Merged(doc, edits), owner);
  }

  /** Which references every approval of a document keeps: exactly those some holder holds through
      no later field, and ownership of the nodes that may not be unowned. `children` is the first
      field of the order the gate goes through. */
  lemma KeptExactly(doc: Document, fields: seq<string>, k: nat, ref: string)
    requires k < |fields| && Distinct(fields) && CHILDREN !in Later(fields, k + 1)
    requires Structured(doc) && Held(doc, fields[k], ref)
    ensures (forall edits, moves :: Approved(doc, edits, fields, moves) ==> Held(Merged(doc, edits), fields[k], ref))
       <==> HeldLast(doc, fields, k, ref) || (fields[k] == CHILDREN && ref in doc && !IsEntry(doc[ref].kind))
  {
    hide Merged, Launder, Structured, Approved, Later;
    if HeldLast(doc, fields, k, ref) {
      forall edits, moves | Approved(doc, edits, fields, moves) ensures Held(Merged(doc, edits), fields[k], ref) {
        HeldLastIsKept(doc, edits, fields, moves, k, ref);
      }
    } else if fields[k] == CHILDREN && ref in doc && !IsEntry(doc[ref].kind) {
      forall edits, moves | Approved(doc, edits, fields, moves) ensures Held(Merged(doc, edits), fields[k], ref) {
        OwnedIsKept(doc, edits, fields, moves, ref);
      }
    } else {
      ReferenceResolves(doc, fields[k], ref);
      var ids := Enumerated(set id | id in doc && ref in RefsIn(At(doc, id), fields[k]));
      var taker := Fresh(doc);
      LaunderIsApproved(doc, ids, taker, fields, k, ref);
    }
  }

  lemma ReferenceResolves(doc: Document, field: string, ref: string)
    requires Structured(doc) && Held(doc, field, ref)
    ensures ref in doc
  {
  }

  // ---- A retry policy that is lost -----------------------------------------------------

  /** `sorted(REFERENCE_KEYS)`. */
  const REFERENCE_FIELDS: seq<string> := [CHILDREN, "constraints", "entity", "event", "requires"]

  /** A service that names its policy under `constraints` and under `requires`. */
  const WITH_POLICY: Document := map[
    "service" := Node("Service", "", map["constraints" := {"policy"}, "requires" := {"policy"}]),
    "policy" := Node("Policy", "", map[])]

  /** An approval can empty `constraints`: structure, kinds, declared drops and moves all pass. */
  lemma PolicyIsLaundered()
    ensures Structured(WITH_POLICY)
    ensures exists edits, moves ::
              Approved(WITH_POLICY, edits, REFERENCE_FIELDS, moves)
                  && !Held(Merged(WITH_POLICY, edits), "constraints", "policy")
  {
    var doc, fields := WITH_POLICY, REFERENCE_FIELDS;
    PolicyIsStructured();
    FieldsDiffer();
    hide Structured, Approved, Merged, Later;
    assert Held(doc, "constraints", "policy") by { assert "policy" in RefsIn(At(doc, "service"), "constraints"); }
    KeptExactly(doc, fields, 1, "policy");
    assert !HeldLast(doc, fields, 1, "policy") by {
      assert "policy" in RefsIn(At(doc, "service"), fields[4]);
    }
  }

  lemma PolicyIsStructured()
    ensures Structured(WITH_POLICY)
  {
    var doc := WITH_POLICY;
    assert forall id :: Owned(doc, id) == {} by {
      forall id ensures Owned(doc, id) == {} {
        assert CHILDREN != "constraints" && CHILDREN != "requires" by { assert |CHILDREN| == 8 && CHILDREN[0] == 'c'; }
      }
    }
    hide Owned, MayOwn;
    assert Descends(doc, _ => 0);
    assert GuardsHoldOne(doc) by { assert "Service"[0] == 'S' && "Policy"[0] == 'P' && "Guard"[0] == 'G'; }
  }

  lemma FieldsDiffer()
    ensures Distinct(REFERENCE_FIELDS) && CHILDREN !in Later(REFERENCE_FIELDS, 2)
  {
    var fs := REFERENCE_FIELDS;
    assert |fs[0]| == 8 && |fs[1]| == 11 && |fs[2]| == 6 && |fs[3]| == 5 && |fs[4]| == 8;
    assert fs[0][0] == 'c' && fs[4][0] == 'r';
  }
}
