/** The gate over a proposed edit (`Reviewer._assess` in `impl/lnpl/agents.py`): the
    kind, removal and move checks, and what an approval can never lose. */
module Review {
  import opened Wrappers

  /** A node: its kind, a guard's mode, and the ids it references through each reference field. */
  datatype Node = Node(kind: string, mode: string, refs: map<string, set<string>>)

  type Document = map<string, Node>

  // A replacement or an addition, under its id.
  datatype Edit = Edit(id: string, node: Node)

  // A reference that leaves `from`.
  datatype Drop = Drop(from: string, ref: string)

  /** `_refs_in`. */
  function RefsIn(node: Option<Node>, field: string): set<string> {
    if node.Some? && field in node.value.refs then node.value.refs[field] else {}
  }

  function At(doc: Document, id: string): Option<Node> {
    if id in doc then Some(doc[id]) else None
  }

  /** The document with the edits applied, later ones over earlier ones. */
  function Merged(doc: Document, edits: seq<Edit>): Document {
    if edits == [] then doc
    else
      var last := edits[|edits| - 1];
      Merged(doc, edits[..|edits| - 1])[last.id := last.node]
  }

  method Merge(doc: Document, edits: seq<Edit>) returns (merged: Document)
    ensures merged == Merged(doc, edits)
  {
    merged := doc;
    for k := 0 to |edits|
      invariant merged == Merged(doc, edits[..k])
    {
      assert edits[..k + 1][..k] == edits[..k] && edits[..k + 1][k] == edits[k];
      merged := merged[edits[k].id := edits[k].node];
    }
    assert edits[..|edits|] == edits;
  }

  // ---- The gate ------------------------------------------------------------------------

  /** The edit drops `d.ref` from `field`. */
  predicate Drops(doc: Document, edit: Edit, d: Drop, field: string) {
    && d.from == edit.id && edit.id in doc
    && d.ref in RefsIn(At(doc, edit.id), field) - RefsIn(Some(edit.node), field)
  }

  /** The last field the edit drops `d` from. */
  function LastField(doc: Document, edit: Edit, fields: seq<string>, d: Drop): Option<string> {
    if fields == [] then None
    else if Drops(doc, edit, d, fields[|fields| - 1]) then Some(fields[|fields| - 1])
    else LastField(doc, edit, fields[..|fields| - 1], d)
  }

  /** The field a drop is remembered under: the last one of the last edit that drops it. */
  function Remembered(doc: Document, edits: seq<Edit>, fields: seq<string>, d: Drop): Option<string> {
    if edits == [] then None
    else
      var last := LastField(doc, edits[|edits| - 1], fields, d);
      if last.Some? then last else Remembered(doc, edits[..|edits| - 1], fields, d)
  }

  predicate KindsKept(doc: Document, edits: seq<Edit>) {
    forall k :: 0 <= k < |edits| && edits[k].id in doc ==> edits[k].node.kind == doc[edits[k].id].kind
  }

  ghost predicate DropsDeclared(doc: Document, edits: seq<Edit>, fields: seq<string>, moves: map<Drop, string>) {
    forall d :: Remembered(doc, edits, fields, d).Some? ==> d in moves
  }

  /** A declared move lands where it said, in the field it left, and was not there before. */
  predicate MoveLands(doc: Document, edits: seq<Edit>, fields: seq<string>, d: Drop, to: string) {
    var field := Remembered(doc, edits, fields, d);
    && field.Some?
    && d.ref in RefsIn(At(Merged(doc, edits), to), field.value)
    && d.ref !in RefsIn(At(doc, to), field.value)
  }

  /** What an approval means. `clear` stands for the gates not modelled here: rights, provenance,
      ownership, structure and schema. */
  ghost predicate Gate(doc: Document, edits: seq<Edit>, fields: seq<string>, moves: map<Drop, string>, clear: bool) {
    && clear && KindsKept(doc, edits) && DropsDeclared(doc, edits, fields, moves)
    && forall d :: d in moves ==> MoveLands(doc, edits, fields, d, moves[d])
  }

  // ---- The code ------------------------------------------------------------------------

  /** `declared_drops` after some fields of one edit, on top of what it held before. */
  ghost predicate Records(doc: Document, edit: Edit, fields: seq<string>, before: map<Drop, string>, drops: map<Drop,
                          string>) {
    forall d :: Recorded(drops, d) == (var f := LastField(doc, edit, fields, d);
        if f.Some? then f else Recorded(before, d))
  }

  function Recorded(drops: map<Drop, string>, d: Drop): Option<string> {
    if d in drops then Some(drops[d]) else None
  }

  /** The drops of one edit through one field; `None` when one is not declared. */
  method RecordField(edit: Edit, doc: Document, field: string, moves: map<Drop, string>, drops: map<Drop, string>)
    returns (next: Option<map<Drop, string>>)
    requires edit.id in doc
    ensures next.None? <==> exists d :: Drops(doc, edit, d, field) && d !in moves
    ensures next.Some? ==> forall d :: Recorded(next.value, d) == if Drops(doc, edit, d, field) then Some(field)
            else Recorded(drops, d)
  {
    var gone := RefsIn(At(doc, edit.id), field) - RefsIn(Some(edit.node), field);
    var left, recorded := gone, drops;
    while left != {}
      invariant left <= gone
      invariant forall d :: Drops(doc, edit, d, field) && d.ref !in left ==> d in moves
      invariant forall d :: Recorded(recorded, d) == if Drops(doc, edit, d, field) && d.ref !in left then Some(field)
                else Recorded(drops, d)
      decreases left
    {
      var ref :| ref in left;
      var d := Drop(edit.id, ref);
      assert Drops(doc, edit, d, field);
      if d !in moves {
        return None;
      }
      recorded := recorded[d := field];
      left := left - {ref};
    }
    next := Some(recorded);
  }

  /** The kind check and the field loop of one edit. */
  method RecordEdit(edit: Edit, doc: Document, fields: seq<string>, moves: map<Drop, string>, drops: map<Drop, string>)
    returns (next: Option<map<Drop, string>>)
    ensures next.Some? <==> (edit.id in doc ==> edit.node.kind == doc[edit.id].kind)
                            && forall d :: LastField(doc, edit, fields, d).Some? ==> d in moves
    ensures next.Some? ==> Records(doc, edit, fields, drops, next.value)
  {
    if edit.id !in doc {
      NothingDropped(doc, edit, fields);
      return Some(drops);
    }
    if edit.node.kind != doc[edit.id].kind {
      return None;
    }
    var recorded := drops;
    for k := 0 to |fields|
      invariant forall d :: LastField(doc, edit, fields[..k], d).Some? ==> d in moves
      invariant Records(doc, edit, fields[..k], drops, recorded)
    {
      FieldSteps(doc, edit, fields, k);
      var step := RecordField(edit, doc, fields[k], moves, recorded);
      if step.None? {
        ghost var d :| Drops(doc, edit, d, fields[k]) && d !in moves;
        DroppedStays(doc, edit, fields, k, d);
        return None;
      }
      recorded := step.value;
    }
    assert fields[..|fields|] == fields;
    next := Some(recorded);
  }

  lemma {:induction false} NothingDropped(doc: Document, edit: Edit, fields: seq<string>)
    requires edit.id !in doc
    ensures forall d :: LastField(doc, edit, fields, d).None?
  {
    if fields != [] {
      NothingDropped(doc, edit, fields[..|fields| - 1]);
    }
  }

  lemma FieldSteps(doc: Document, edit: Edit, fields: seq<string>, k: nat)
    requires k < |fields|
    ensures forall d :: LastField(doc, edit, fields[..k + 1], d)
                     == if Drops(doc, edit, d, fields[k]) then Some(fields[k]) else LastField(doc, edit, fields[..k], d)
  {
    assert fields[..k + 1][..k] == fields[..k] && fields[..k + 1][k] == fields[k];
  }

  lemma {:induction false} DroppedStays(doc: Document, edit: Edit, fields: seq<string>, k: nat, d: Drop)
    requires k < |fields| && Drops(doc, edit, d, fields[k])
    ensures LastField(doc, edit, fields, d).Some? && Drops(doc, edit, d, LastField(doc, edit, fields, d).value)
  {
    if k < |fields| - 1 {
      assert fields[..|fields| - 1][k] == fields[k];
      DroppedStays(doc, edit, fields[..|fields| - 1], k, d);
    }
  }

  method RecordAll(edits: seq<Edit>, doc: Document, fields: seq<string>, moves: map<Drop, string>)
    returns (drops: Option<map<Drop, string>>)
    ensures drops.Some? <==> KindsKept(doc, edits) && DropsDeclared(doc, edits, fields, moves)
    ensures drops.Some? ==> forall d :: Recorded(drops.value, d) == Remembered(doc, edits, fields, d)
  {
    var recorded: map<Drop, string> := map[];
    for k := 0 to |edits|
      invariant KindsKept(doc, edits[..k]) && DropsDeclared(doc, edits[..k], fields, moves)
      invariant forall d :: Recorded(recorded, d) == Remembered(doc, edits[..k], fields, d)
    {
      EditSteps(doc, edits, fields, k);
      var step := RecordEdit(edits[k], doc, fields, moves, recorded);
      if step.None? {
        if edits[k].id in doc ==> edits[k].node.kind == doc[edits[k].id].kind {
          ghost var d :| LastField(doc, edits[k], fields, d).Some? && d !in moves;
          RememberedStays(doc, edits, fields, k, d);
        }
        return None;
      }
      recorded := step.value;
    }
    assert edits[..|edits|] == edits;
    drops := Some(recorded);
  }

  lemma EditSteps(doc: Document, edits: seq<Edit>, fields: seq<string>, k: nat)
    requires k < |edits|
    ensures forall d :: Remembered(doc, edits[..k + 1], fields, d)
                     == (var last := LastField(doc, edits[k], fields, d);
                         if last.Some? then last else Remembered(doc, edits[..k], fields, d))
    ensures KindsKept(doc, edits[..k + 1])
       <==> KindsKept(doc, edits[..k]) && (edits[k].id in doc ==> edits[k].node.kind == doc[edits[k].id].kind)
  {
    hide LastField;
    assert edits[..k + 1][..k] == edits[..k] && edits[..k + 1][k] == edits[k];
    assert forall j :: 0 <= j < k ==> edits[..k + 1][j] == edits[..k][j];
  }

  lemma {:induction false} RememberedStays(doc: Document, edits: seq<Edit>, fields: seq<string>, k: nat, d: Drop)
    requires k < |edits| && LastField(doc, edits[k], fields, d).Some?
    ensures Remembered(doc, edits, fields, d).Some?
  {
    hide LastField;
    if k < |edits| - 1 {
      assert edits[..|edits| - 1][k] == edits[k];
      RememberedStays(doc, edits[..|edits| - 1], fields, k, d);
    }
  }

  /** `_assess`, from the declarations on. */
  method Assess(doc: Document, edits: seq<Edit>, fields: seq<string>, moves: map<Drop, string>, clear: bool)
    returns (approved: bool)
    ensures approved <==> Gate(doc, edits, fields, moves, clear)
  {
    hide Remembered, Merged;
    var drops := RecordAll(edits, doc, fields, moves);
    if drops.None? {
      return false;
    }
    var merged := Merge(doc, edits);
    var left := moves.Keys;
    while left != {}
      invariant left <= moves.Keys
      invariant forall d :: d in moves && d !in left ==> MoveLands(doc, edits, fields, d, moves[d])
      decreases left
    {
      var d :| d in left;
      assert Recorded(drops.value, d) == Remembered(doc, edits, fields, d);
      if d !in drops.value {
        return false;
      }
      var field := drops.value[d];
      if d.ref !in RefsIn(At(merged, moves[d]), field) || d.ref in RefsIn(At(doc, moves[d]), field) {
        return false;
      }
      left := left - {d};
    }
    approved := clear;
  }

  // ---- What an approval keeps ----------------------------------------------------------

  /** No node references one id through two fields. */
  ghost predicate OneFieldEach(doc: Document, fields: seq<string>) {
    forall id, f, g, ref ::
      (id in doc && f in fields && g in fields && ref in RefsIn(At(doc, id), f) && ref in RefsIn(At(doc, id), g))
          ==> f == g
  }

  lemma {:induction false} MergedIs(doc: Document, edits: seq<Edit>, id: string)
    ensures id in doc ==> id in Merged(doc, edits)
    ensures id in Merged(doc, edits) ==>
              || (id in doc && Merged(doc, edits)[id] == doc[id])
              || exists k :: 0 <= k < |edits| && edits[k].id == id && Merged(doc, edits)[id] == edits[k].node
  {
    if edits != [] {
      var init := edits[..|edits| - 1];
      MergedIs(doc, init, id);
      assert forall k :: 0 <= k < |init| ==> init[k] == edits[k];
    }
  }

  lemma {:induction false} RememberedDropped(doc: Document, edits: seq<Edit>, fields: seq<string>, d: Drop)
    requires Remembered(doc, edits, fields, d).Some?
    ensures var f := Remembered(doc, edits, fields, d).value;
            f in fields && exists k :: 0 <= k < |edits| && Drops(doc, edits[k], d, f)
  {
    var init, last := edits[..|edits| - 1], edits[|edits| - 1];
    if LastField(doc, last, fields, d).Some? {
      LastDropped(doc, last, fields, d);
      assert edits[|edits| - 1] == last;
    } else {
      RememberedDropped(doc, init, fields, d);
      assert forall k :: 0 <= k < |init| ==> init[k] == edits[k];
    }
  }

  lemma {:induction false} LastDropped(doc: Document, edit: Edit, fields: seq<string>, d: Drop)
    requires LastField(doc, edit, fields, d).Some?
    ensures LastField(doc, edit, fields, d).value in fields
            && Drops(doc, edit, d, LastField(doc, edit, fields, d).value)
  {
    if !Drops(doc, edit, d, fields[|fields| - 1]) {
      LastDropped(doc, edit, fields[..|fields| - 1], d);
    }
  }

  /** After an approval no id has disappeared or changed its kind. */
  lemma ApprovalKeepsNodes(doc: Document, edits: seq<Edit>, fields: seq<string>, moves: map<Drop, string>,
                           clear: bool, id: string)
    requires Gate(doc, edits, fields, moves, clear) && id in doc
    ensures id in Merged(doc, edits) && Merged(doc, edits)[id].kind == doc[id].kind
  {
    hide Remembered, Merged;
    MergedIs(doc, edits, id);
  }

  /** Reviewed edits conserve references: an id referenced through a field is still referenced
      through that field by some node, wherever every reference has one field. */
  lemma ApprovalKeepsReferences(doc: Document, edits: seq<Edit>, fields: seq<string>, moves: map<Drop, string>,
                                clear: bool,
                                id: string, field: string, ref: string)
    requires Gate(doc, edits, fields, moves, clear) && OneFieldEach(doc, fields)
    requires field in fields && id in doc && ref in RefsIn(At(doc, id), field)
    ensures exists holder :: holder in Merged(doc, edits) && ref in RefsIn(At(Merged(doc, edits), holder), field)
  {
    hide Remembered, LastField, Merged;
    MergedIs(doc, edits, id);
    var after := Merged(doc, edits);
    if ref !in RefsIn(At(after, id), field) {
      var k :| 0 <= k < |edits| && edits[k].id == id && after[id] == edits[k].node;
      var d := Drop(id, ref);
      assert Drops(doc, edits[k], d, field);
      var at :| 0 <= at < |fields| && fields[at] == field;
      DroppedStays(doc, edits[k], fields, at, d);
      RememberedStays(doc, edits, fields, k, d);
      RememberedDropped(doc, edits, fields, d);
      var f := Remembered(doc, edits, fields, d).value;
      assert d in moves && MoveLands(doc, edits, fields, d, moves[d]);
      assert f == field;
      assert ref in RefsIn(At(after, moves[d]), field);
    }
  }

  /** A declared move lands in a node that did not hold the reference before, in the field it left. */
  lemma ApprovedMovesAreNew(doc: Document, edits: seq<Edit>, fields: seq<string>, moves: map<Drop, string>,
                            clear: bool, d: Drop)
    requires Gate(doc, edits, fields, moves, clear) && d in moves
    ensures exists field :: && field in fields && d.ref in RefsIn(At(doc, d.from), field)
                            && d.ref in RefsIn(At(Merged(doc, edits), moves[d]), field)
                            && d.ref !in RefsIn(At(doc, moves[d]), field)
  {
    hide Remembered, LastField, Merged;
    assert MoveLands(doc, edits, fields, d, moves[d]);
    RememberedDropped(doc, edits, fields, d);
  }

  lemma {:induction false} NothingGone(doc: Document, edits: seq<Edit>, fields: seq<string>, d: Drop)
    requires forall k, f :: 0 <= k < |edits| && edits[k].id in doc && f in doc[edits[k].id].refs ==>
               f in edits[k].node.refs && doc[edits[k].id].refs[f] <= edits[k].node.refs[f]
    ensures Remembered(doc, edits, fields, d).None?
  {
    if Remembered(doc, edits, fields, d).Some? {
      RememberedDropped(doc, edits, fields, d);
    }
  }

  /** Edits that change no kind and take no reference away are approved, without a declared move, if the other
      gates are clear. */
  lemma HarmlessIsApproved(doc: Document, edits: seq<Edit>, fields: seq<string>)
    requires forall k :: 0 <= k < |edits| && edits[k].id in doc ==> edits[k].node.kind == doc[edits[k].id].kind
    requires forall k, f :: 0 <= k < |edits| && edits[k].id in doc && f in doc[edits[k].id].refs ==>
               f in edits[k].node.refs && doc[edits[k].id].refs[f] <= edits[k].node.refs[f]
    ensures Gate(doc, edits, fields, map[], true)
  {
    hide Remembered;
    forall d ensures Remembered(doc, edits, fields, d).None? {
      NothingGone(doc, edits, fields, d);
    }
  }

  /** One edit that moves one reference is approved exactly if the move is declared and lands where the
      reference was not. */
  lemma OneMoveApproved(doc: Document, from: string, to: string, kind: string, field: string, ref: string,
                        moves: map<Drop, string>)
    requires from in doc && to in doc && from != to && field in doc[from].refs && ref in doc[from].refs[field]
    requires moves == map[] || moves == map[Drop(from, ref) := to]
    ensures var left := doc[from].(refs := doc[from].refs[field := doc[from].refs[field] - {ref}]);
            var held := if field in doc[to].refs then doc[to].refs[field] else {};
            var taken := doc[to].(refs := doc[to].refs[field := held + {ref}]);
            Gate(doc, [Edit(from, left), Edit(to, taken)], [field], moves, true)
            <==> moves != map[] && ref !in held
  {
    var left := doc[from].(refs := doc[from].refs[field := doc[from].refs[field] - {ref}]);
    var held := if field in doc[to].refs then doc[to].refs[field] else {};
    var taken := doc[to].(refs := doc[to].refs[field := held + {ref}]);
    var edits, d := [Edit(from, left), Edit(to, taken)], Drop(from, ref);
    assert edits[..1] == [Edit(from, left)] && edits[..1][..0] == [];
    assert Merged(doc, edits[..1]) == doc[from := left];
    assert Merged(doc, edits) == doc[from := left][to := taken];
    forall x ensures Remembered(doc, edits, [field], x) == if x == d then Some(field) else None {
      assert [field][..0] == [];
      assert LastField(doc, Edit(to, taken), [field], x) == None;
      assert LastField(doc, Edit(from, left), [field], x) == if x == d then Some(field) else None;
      assert Remembered(doc, edits[..1], [field], x) == LastField(doc, Edit(from, left), [field], x);
    }
    hide Remembered, Merged, LastField;
    assert KindsKept(doc, edits);
    assert Remembered(doc, edits, [field], d) == Some(field);
    assert MoveLands(doc, edits, [field], d, to) <==> ref !in held;
    if moves == map[] {
      assert d !in moves;
      assert !DropsDeclared(doc, edits, [field], moves);
    } else {
      assert d in moves && moves[d] == to;
      assert DropsDeclared(doc, edits, [field], moves);
    }
  }
}
