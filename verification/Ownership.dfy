/** The structure rules of a document (`_structure_fault` in `impl/lnpl/protocol.py`) for what a
    workflow spells out, and the bodies they leave possible. */
module Ownership {
  import opened Wrappers
  import opened Workflow
  import opened Flattening
  import opened Interp
  import opened SkipGrain

  // ---- The rules -----------------------------------------------------------------------

  predicate IsGuard(node: Node) {
    node.RepeatNode? || node.WhenNode? || node.UntilNode? || node.UnknownGuardNode?
  }

  /** What may stand in a guard: a step or a block. */
  predicate IsItem(node: Node) {
    node.StepNode? || node.ConcurrencyNode? || node.PipelineNode?
  }

  /** The kinds a node may own, and the one item of a guard (an `otherwise` item, a guard's second
      child, is refused before anything is compiled). */
  predicate OwnsAllowed(nodes: Table, id: string)
    requires id in nodes
  {
    var children := nodes[id].Children();
    && (IsGuard(nodes[id]) ==> |children| == 1)
    && forall k :: 0 <= k < |children| && children[k] in nodes ==>
         if IsGuard(nodes[id]) then IsItem(nodes[children[k]]) else nodes[children[k]].StepNode?
  }

  predicate KindsAllowed(nodes: Table, ids: seq<string>) {
    && (forall k :: 0 <= k < |ids| && ids[k] in nodes ==> IsGuard(nodes[ids[k]]) || IsItem(nodes[ids[k]]))
    && forall id :: id in nodes ==> OwnsAllowed(nodes, id)
  }

  /** A list of children: the workflow's own, or a node's. */
  function ListOf(nodes: Table, root: seq<string>, owner: Option<string>): seq<string> {
    if owner.None? then root else if owner.value in nodes then nodes[owner.value].Children() else []
  }

  /** A node appears in at most one `children` list, and there once. */
  ghost predicate SingleOwner(nodes: Table, root: seq<string>) {
    forall o, i, p, j ::
      (0 <= i < |ListOf(nodes, root, o)| && 0 <= j < |ListOf(nodes, root, p)|
       && ListOf(nodes, root, o)[i] == ListOf(nodes, root, p)[j]) ==> o == p && i == j
  }

  ghost predicate Permitted(nodes: Table, root: seq<string>) {
    KindsAllowed(nodes, root) && SingleOwner(nodes, root)
  }

  // ---- The shape of a body -------------------------------------------------------------

  predicate StepsOnly(body: Body) {
    body.Done? || (body.StepItem? && StepsOnly(body.rest))
  }

  /** Steps and blocks of steps. */
  predicate Unguarded(body: Body) {
    match body
    case Done => true
    case StepItem(_, rest) => Unguarded(rest)
    case GroupItem(kids, rest) => StepsOnly(kids) && Unguarded(rest)
    case ParallelItem(kids, rest) => StepsOnly(kids) && Unguarded(rest)
    case _ => false
  }

  /** Steps, blocks of steps, and guards over either. */
  predicate Shaped(body: Body) {
    match body
    case Done => true
    case StepItem(_, rest) => Shaped(rest)
    case GroupItem(kids, rest) => StepsOnly(kids) && Shaped(rest)
    case ParallelItem(kids, rest) => StepsOnly(kids) && Shaped(rest)
    case RepeatItem(count, kids, rest) => (count == 0 ==> kids.Done?) && Unguarded(kids) && Shaped(rest)
    case GuardItem(_, kids, rest) => Unguarded(kids) && Shaped(rest)
  }

  /** What a permitted workflow spells out. */
  predicate WellShaped(body: Body) {
    Shaped(body) && FreshIds(body, {})
  }

  lemma {:induction false} StepsArePlain(body: Body)
    requires StepsOnly(body)
    ensures NoGuard(body) && NoRepeat(body) && Positive(body)
  {
    if !body.Done? {
      StepsArePlain(body.rest);
    }
  }

  lemma {:induction false} UnguardedIsPlain(body: Body)
    requires Unguarded(body)
    ensures NoGuard(body) && NoRepeat(body) && NoUntil(body) && NonNesting(body) && PlainGuards(body) && Positive(body)
  {
    match body
    case Done =>
    case StepItem(_, rest) =>
      UnguardedIsPlain(rest);
    case GroupItem(kids, rest) =>
      StepsAreUnguarded(kids);
      UnguardedIsPlain(kids);
      UnguardedIsPlain(rest);
    case ParallelItem(kids, rest) =>
      StepsAreUnguarded(kids);
      UnguardedIsPlain(kids);
      UnguardedIsPlain(rest);
  }

  lemma {:induction false} StepsAreUnguarded(body: Body)
    requires StepsOnly(body)
    ensures Unguarded(body)
  {
    if !body.Done? {
      StepsAreUnguarded(body.rest);
    }
  }

  lemma {:induction false} ShapedIsPlain(body: Body)
    requires Shaped(body)
    ensures NonNesting(body) && PlainGuards(body) && Positive(body)
  {
    match body
    case Done =>
    case StepItem(_, rest) =>
      ShapedIsPlain(rest);
    case GroupItem(kids, rest) =>
      StepsAreUnguarded(kids);
      UnguardedIsPlain(kids);
      ShapedIsPlain(rest);
    case ParallelItem(kids, rest) =>
      StepsAreUnguarded(kids);
      UnguardedIsPlain(kids);
      ShapedIsPlain(rest);
    case RepeatItem(_, kids, rest) =>
      UnguardedIsPlain(kids);
      ShapedIsPlain(rest);
    case GuardItem(_, kids, rest) =>
      UnguardedIsPlain(kids);
      ShapedIsPlain(rest);
  }

  /** A well-shaped body flattens to its steps in order and records every skip at one grain, whatever
      the conditions turn out to be. */
  lemma WellShapedIsAligned(body: Body, takes: Outcomes)
    requires WellShaped(body)
    ensures NonNesting(body) && Positive(body) && Aligned(body, takes, {})
  {
    ShapedIsPlain(body);
    PlainAligned(body, takes, {});
  }

  // ---- What the kind rules spell out ---------------------------------------------------

  lemma {:induction false} StepsUnfold(nodes: Table, rank: map<string, nat>, bound: nat, ids: seq<string>)
    requires Ranked(nodes, rank) && Below(nodes, rank, ids, bound) && Unfold(nodes, rank, bound, ids).Success?
    requires forall k :: 0 <= k < |ids| && ids[k] in nodes ==> nodes[ids[k]].StepNode?
    ensures StepsOnly(Unfold(nodes, rank, bound, ids).value)
  {
    if ids != [] {
      StepsUnfold(nodes, rank, bound, ids[1..]);
    }
  }

  lemma {:induction false} ItemsUnfold(nodes: Table, rank: map<string, nat>, bound: nat, ids: seq<string>)
    requires Ranked(nodes, rank) && Below(nodes, rank, ids, bound) && Unfold(nodes, rank, bound, ids).Success?
    requires forall id :: id in nodes ==> OwnsAllowed(nodes, id)
    requires forall k :: 0 <= k < |ids| && ids[k] in nodes ==> IsItem(nodes[ids[k]])
    ensures Unguarded(Unfold(nodes, rank, bound, ids).value)
  {
    if ids != [] {
      var id := ids[0];
      assert OwnsAllowed(nodes, id) && Below(nodes, rank, nodes[id].Children(), rank[id]);
      if !nodes[id].StepNode? {
        StepsUnfold(nodes, rank, rank[id], nodes[id].Children());
      }
      ItemsUnfold(nodes, rank, bound, ids[1..]);
    }
  }

  lemma ChildrenBelow(nodes: Table, rank: map<string, nat>, id: string)
    requires Ranked(nodes, rank) && id in nodes
    ensures id in rank && Below(nodes, rank, nodes[id].Children(), rank[id])
  {
  }

  lemma {:induction false} KindsShape(nodes: Table, rank: map<string, nat>, bound: nat, ids: seq<string>)
    requires Ranked(nodes, rank) && Below(nodes, rank, ids, bound) && Unfold(nodes, rank, bound, ids).Success?
    requires KindsAllowed(nodes, ids)
    ensures Shaped(Unfold(nodes, rank, bound, ids).value)
  {
    if ids != [] {
      hide Ranked;
      var id := ids[0];
      var children := nodes[id].Children();
      ChildrenBelow(nodes, rank, id);
      assert OwnsAllowed(nodes, id) && Below(nodes, rank, children, rank[id]);
      if IsGuard(nodes[id]) {
        if Unfold(nodes, rank, rank[id], children).Success? {
          ItemsUnfold(nodes, rank, rank[id], children);
        }
      } else if !nodes[id].StepNode? {
        StepsUnfold(nodes, rank, rank[id], children);
      }
      KindsShape(nodes, rank, bound, ids[1..]);
    }
  }

  // ---- What single ownership gives -----------------------------------------------------

  /** The nodes an id spells out, itself included. */
  ghost function ReachNode(nodes: Table, rank: map<string, nat>, id: string): set<string>
    requires Ranked(nodes, rank)
    decreases if id in nodes then 2 * rank[id] + 1 else 0, 0, 0
  {
    if id !in nodes then {id}
    else
      assert Below(nodes, rank, nodes[id].Children(), rank[id]);
      {id} + Reach(nodes, rank, rank[id], nodes[id].Children())
  }

  ghost function Reach(nodes: Table, rank: map<string, nat>, bound: nat, ids: seq<string>): set<string>
    requires Ranked(nodes, rank) && Below(nodes, rank, ids, bound)
    decreases 2 * bound, |ids|, 0
  {
    if ids == [] then {} else ReachNode(nodes, rank, ids[0]) + Reach(nodes, rank, bound, ids[1..])
  }

  lemma {:induction false} ReachIs(nodes: Table, rank: map<string, nat>, bound: nat, ids: seq<string>, x: string)
    requires Ranked(nodes, rank) && Below(nodes, rank, ids, bound)
    ensures x in Reach(nodes, rank, bound, ids) <==> exists k :: 0 <= k < |ids| && x in ReachNode(nodes, rank, ids[k])
  {
    if ids != [] {
      ReachIs(nodes, rank, bound, ids[1..], x);
      if x in Reach(nodes, rank, bound, ids[1..]) {
        var k :| 0 <= k < |ids| - 1 && x in ReachNode(nodes, rank, ids[1..][k]);
        assert ids[k + 1] == ids[1..][k];
      }
      if k :| 0 <= k < |ids| && x in ReachNode(nodes, rank, ids[k]) {
        assert k > 0 ==> ids[1..][k - 1] == ids[k];
      }
    }
  }

  /** What is reached from a node, but the node, has a parent that is reached, and a smaller rank. */
  lemma {:induction false} Parent(nodes: Table, rank: map<string, nat>, id: string, x: string)
    requires Ranked(nodes, rank) && x in ReachNode(nodes, rank, id) && x != id
    ensures id in nodes
    ensures exists y :: y in ReachNode(nodes, rank, id) && y in nodes && x in nodes[y].Children()
    ensures x in nodes ==> rank[x] < rank[id]
    decreases if id in nodes then rank[id] else 0
  {
    var children := nodes[id].Children();
    assert Below(nodes, rank, children, rank[id]);
    ReachIs(nodes, rank, rank[id], children, x);
    var k :| 0 <= k < |children| && x in ReachNode(nodes, rank, children[k]);
    if x == children[k] {
      assert id in ReachNode(nodes, rank, id);
    } else {
      ChildIsRanked(nodes, rank, children[k], x);
      Parent(nodes, rank, children[k], x);
      var y :| y in ReachNode(nodes, rank, children[k]) && y in nodes && x in nodes[y].Children();
      ReachIs(nodes, rank, rank[id], children, y);
    }
  }

  lemma ChildIsRanked(nodes: Table, rank: map<string, nat>, id: string, x: string)
    requires Ranked(nodes, rank) && x in ReachNode(nodes, rank, id) && x != id
    ensures id in nodes
  {
  }

  lemma InList(nodes: Table, root: seq<string>, y: string, x: string) returns (i: nat)
    requires y in nodes && x in nodes[y].Children()
    ensures i < |ListOf(nodes, root, Some(y))| && ListOf(nodes, root, Some(y))[i] == x
  {
    i :| 0 <= i < |nodes[y].Children()| && nodes[y].Children()[i] == x;
  }

  /** A listed node is not reached from another of the same list. */
  lemma NotInside(nodes: Table, rank: map<string, nat>, root: seq<string>, o: Option<string>, j: nat, k: nat)
    requires Ranked(nodes, rank) && SingleOwner(nodes, root)
    requires j < |ListOf(nodes, root, o)| && k < |ListOf(nodes, root, o)| && j != k
    ensures ListOf(nodes, root, o)[j] !in ReachNode(nodes, rank, ListOf(nodes, root, o)[k])
  {
    var list := ListOf(nodes, root, o);
    var x, top := list[j], list[k];
    assert x != top;
    if x in ReachNode(nodes, rank, top) {
      Parent(nodes, rank, top, x);
      var y :| y in ReachNode(nodes, rank, top) && y in nodes && x in nodes[y].Children();
      var i := InList(nodes, root, y, x);
      assert o == Some(y);
      assert Below(nodes, rank, nodes[y].Children(), rank[y]);
      assert rank[top] < rank[y];
      if y != top {
        Parent(nodes, rank, top, y);
      }
    }
  }

  /** Two members of one list spell out nothing in common. */
  lemma {:induction false} SharesNothing(nodes: Table, rank: map<string, nat>, root: seq<string>, o: Option<string>,
                                         j: nat, k: nat, x: string)
    requires Ranked(nodes, rank) && SingleOwner(nodes, root)
    requires j < |ListOf(nodes, root, o)| && k < |ListOf(nodes, root, o)| && j != k
    requires x in ReachNode(nodes, rank, ListOf(nodes, root, o)[j])
    ensures x !in ReachNode(nodes, rank, ListOf(nodes, root, o)[k])
    decreases
      var top := ListOf(nodes, root, o)[j];
      if top !in nodes then 0 else if x in nodes && rank[x] <= rank[top] then rank[top] - rank[x] else rank[top] + 1
  {
    var list := ListOf(nodes, root, o);
    var a, b := list[j], list[k];
    if x in ReachNode(nodes, rank, b) {
      NotInside(nodes, rank, root, o, j, k);
      NotInside(nodes, rank, root, o, k, j);
      hide SingleOwner, ReachNode;
      assert x != a && x != b;
      Parent(nodes, rank, a, x);
      Parent(nodes, rank, b, x);
      var y :| y in ReachNode(nodes, rank, a) && y in nodes && x in nodes[y].Children();
      var z :| z in ReachNode(nodes, rank, b) && z in nodes && x in nodes[z].Children();
      SameParent(nodes, root, y, z, x);
      assert Below(nodes, rank, nodes[y].Children(), rank[y]);
      if y != a {
        Parent(nodes, rank, a, y);
      }
      SharesNothing(nodes, rank, root, o, j, k, y);
    }
  }

  lemma SameParent(nodes: Table, root: seq<string>, y: string, z: string, x: string)
    requires SingleOwner(nodes, root) && y in nodes && z in nodes && x in nodes[y].Children()
             && x in nodes[z].Children()
    ensures y == z
  {
    var i := InList(nodes, root, y, x);
    var j := InList(nodes, root, z, x);
    assert Some(y) == Some(z);
  }

  lemma {:induction false} StepsReached(nodes: Table, rank: map<string, nat>, bound: nat, ids: seq<string>)
    requires Ranked(nodes, rank) && Below(nodes, rank, ids, bound) && Unfold(nodes, rank, bound, ids).Success?
    ensures Ids(AllSteps(Unfold(nodes, rank, bound, ids).value)) <= Reach(nodes, rank, bound, ids)
    decreases 2 * bound, |ids|
  {
    if ids == [] {
      NoIds();
    } else {
      var id, rest := ids[0], ids[1..];
      var body := Unfold(nodes, rank, bound, ids).value;
      assert Below(nodes, rank, nodes[id].Children(), rank[id]);
      StepsReached(nodes, rank, bound, rest);
      var item := UnfoldNode(nodes, rank, id).value;
      FirstSteps(body);
      FlattenKeepsSteps(body);
      FlattenSplits(body);
      assert FirstItem(body) == item;
      StepsOfConcat(Flatten(item), Flatten(body.rest));
      FlattenKeepsSteps(body.rest);
      IdsConcat(ItemSteps(body), AllSteps(body.rest));
      hide Ids, Flatten, AllSteps, StepsOf;
      if !item.StepItem? && !(item.RepeatItem? && item.count == 0) {
        StepsReached(nodes, rank, rank[id], nodes[id].Children());
      }
    }
  }

  lemma {:induction false} FreshUnfolds(nodes: Table, rank: map<string, nat>, root: seq<string>, o: Option<string>,
                                        bound: nat,
                                        k: nat, seen: set<string>)
    requires Ranked(nodes, rank) && SingleOwner(nodes, root) && k <= |ListOf(nodes, root, o)|
    requires Below(nodes, rank, ListOf(nodes, root, o)[k..], bound)
    requires Unfold(nodes, rank, bound, ListOf(nodes, root, o)[k..]).Success?
    requires seen !! Reach(nodes, rank, bound, ListOf(nodes, root, o)[k..])
    ensures FreshIds(Unfold(nodes, rank, bound, ListOf(nodes, root, o)[k..]).value, seen)
    decreases 2 * bound, |ListOf(nodes, root, o)| - k
  {
    hide SingleOwner, Ids;
    var list := ListOf(nodes, root, o);
    var ids := list[k..];
    if ids != [] {
      var id, rest := ids[0], ids[1..];
      assert rest == list[k + 1..] && id == list[k];
      var item := UnfoldNode(nodes, rank, id).value;
      assert Below(nodes, rank, nodes[id].Children(), rank[id]);
      TailApart(nodes, rank, root, o, bound, k);
      var own := if item.StepItem? then {id} else Ids(AllSteps(item.kids));
      if !item.StepItem? && !(item.RepeatItem? && item.count == 0) {
        assert ListOf(nodes, root, Some(id)) == nodes[id].Children();
        assert nodes[id].Children()[0..] == nodes[id].Children();
        StepsReached(nodes, rank, rank[id], nodes[id].Children());
        FreshUnfolds(nodes, rank, root, Some(id), rank[id], 0, seen);
      } else {
        NoIds();
      }
      assert own <= ReachNode(nodes, rank, id);
      FreshUnfolds(nodes, rank, root, o, bound, k + 1, seen + own);
    }
  }

  lemma TailApart(nodes: Table, rank: map<string, nat>, root: seq<string>, o: Option<string>, bound: nat, k: nat)
    requires Ranked(nodes, rank) && SingleOwner(nodes, root) && k < |ListOf(nodes, root, o)|
    requires Below(nodes, rank, ListOf(nodes, root, o)[k + 1..], bound)
    ensures var list := ListOf(nodes, root, o);
            ReachNode(nodes, rank, list[k]) !! Reach(nodes, rank, bound, list[k + 1..])
  {
    hide SingleOwner, ReachNode, Reach;
    var list := ListOf(nodes, root, o);
    var rest := list[k + 1..];
    forall x | x in ReachNode(nodes, rank, list[k]) ensures x !in Reach(nodes, rank, bound, rest) {
      ReachIs(nodes, rank, bound, rest, x);
      forall m | 0 <= m < |rest| ensures x !in ReachNode(nodes, rank, rest[m]) {
        assert rest[m] == list[k + 1 + m];
        SharesNothing(nodes, rank, root, o, k, k + 1 + m, x);
      }
    }
  }

  /** Every document the structure rules permit spells out a well-shaped body. */
  lemma PermittedIsWellShaped(nodes: Table, rank: map<string, nat>, bound: nat, root: seq<string>)
    requires Ranked(nodes, rank) && Below(nodes, rank, root, bound) && Permitted(nodes, root)
    requires Unfold(nodes, rank, bound, root).Success?
    ensures WellShaped(Unfold(nodes, rank, bound, root).value)
  {
    KindsShape(nodes, rank, bound, root);
    assert root[0..] == root && ListOf(nodes, root, None) == root;
    FreshUnfolds(nodes, rank, root, None, bound, 0, {});
  }
}
