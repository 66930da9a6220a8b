/** One round of the agent that splits steps (`RefactoringAgent._violations`, `_split` and `propose`
    in `impl/lnpl/agents.py`) over a whole document: what every workflow of the document still does,
    and why the rounds end. A document is read as a table keyed on ids; the split changes the owner
    and the step and adds the new steps, so by induction on the rank of a node every workflow above
    the owner does what it did, up to the order inside the split step. */
module RefactorRound {
  import opened Wrappers
  import opened Text
  import opened Refactor

  type Table = map<string, Node>

  // ---- Documents as tables -------------------------------------------------------------

  function TableOf(doc: Document): (t: Table)
    ensures forall id :: id in t <==> NodeOf(doc, id).Some?
    ensures forall id :: id in t ==> t[id] == NodeOf(doc, id).value && t[id].id == id
  {
    if doc == [] then map[] else TableOf(doc[..|doc| - 1])[doc[|doc| - 1].id := doc[|doc| - 1]]
  }

  function CallIn(t: Table): string -> bool {
    id => id in t && t[id].kind.RepositoryCall?
  }

  /** Ownership descends. */
  ghost predicate Descends(t: Table, rank: string -> nat) {
    forall id, c :: id in t && c in t[id].children && c in t ==> rank(c) < rank(id)
  }

  // ---- What a workflow does ------------------------------------------------------------

  /** The direct children of the steps below a node, in execution order. */
  ghost function Trace(t: Table, rank: string -> nat, id: string): seq<string>
    requires Descends(t, rank) && id in t
    decreases rank(id), 1, 0
  {
    if t[id].kind.WorkflowStep? then t[id].children else TraceAll(t, rank, rank(id), t[id].children)
  }

  ghost function TraceAll(t: Table, rank: string -> nat, bound: nat, ids: seq<string>): seq<string>
    requires Descends(t, rank) && forall c :: c in ids && c in t ==> rank(c) < bound
    decreases bound, 0, |ids|
  {
    if ids == [] then []
    else (if ids[0] in t then Trace(t, rank, ids[0]) else [ids[0]]) + TraceAll(t, rank, bound, ids[1..])
  }

  ghost function Traces(t: Table, rank: string -> nat, ids: seq<string>): map<string, seq<string>>
    requires Descends(t, rank)
  {
    map c | c in ids && c in t :: Trace(t, rank, c)
  }

  lemma {:induction false} TraceIsProgram(t: Table, rank: string -> nat, bound: nat, ids: seq<string>, all: seq<string>)
    requires Descends(t, rank) && (forall c :: c in ids ==> c in all)
             && forall c :: c in all && c in t ==> rank(c) < bound
    ensures TraceAll(t, rank, bound, ids) == Program(ids, Traces(t, rank, all))
    decreases ids
  {
    if ids != [] {
      hide Trace, Descends;
      TraceIsProgram(t, rank, bound, ids[1..], all);
    }
  }

  // ---- The split of a document ---------------------------------------------------------

  function Added(t: Table, ids: seq<string>, extra: seq<string>): Table
    requires |ids| == |extra|
    decreases ids
  {
    if ids == [] then t else Added(t[ids[0] := Node(ids[0], WorkflowStep, [extra[0]])], ids[1..], extra[1..])
  }

  predicate SplitsAt(t: Table, owner: string, step: string, at: nat, ids: seq<string>) {
    && owner in t && step in t && owner != step && at < |t[owner].children| && t[owner].children[at] == step
    && |ids| == |Extra(t[step].children, CallIn(t))|
  }

  /** The owner lists the new steps right after the original, which keeps its first access. */
  function SplitTable(t: Table, owner: string, step: string, at: nat, ids: seq<string>): Table
    requires SplitsAt(t, owner, step, at, ids)
  {
    var children, extra := t[owner].children, Extra(t[step].children, CallIn(t));
    var listed := t[owner].(children := children[..at + 1] + ids + children[at + 1..]);
    Added(t[owner := listed][step := t[step].(children := Keep(t[step].children, extra))], ids, extra)
  }

  /** The step is owned by its owner alone, there once, and the new ids are nowhere yet. */
  ghost predicate OwnedOnce(t: Table, owner: string, step: string, at: nat, ids: seq<string>) {
    && SplitsAt(t, owner, step, at, ids)
    && !t[owner].kind.WorkflowStep? && t[step].kind.WorkflowStep?
    && (forall id :: id in t && step in t[id].children ==> id == owner)
    && (forall j, k :: 0 <= j < k < |t[owner].children| ==> t[owner].children[j] != t[owner].children[k])
    && Fresh(ids, t.Keys) && (forall id, k :: id in t && 0 <= k < |ids| ==> ids[k] !in t[id].children)
    && FirstOwnedOnce(t[step].children, CallIn(t))
  }

  lemma {:induction false} AddedIs(t: Table, ids: seq<string>, extra: seq<string>)
    requires |ids| == |extra| && forall j, k :: 0 <= j < k < |ids| ==> ids[j] != ids[k]
    ensures forall id :: id in Added(t, ids, extra) <==> id in t || id in ids
    ensures forall id :: id !in ids && id in t ==> Added(t, ids, extra)[id] == t[id]
    ensures forall k :: 0 <= k < |ids| ==> Added(t, ids, extra)[ids[k]] == Node(ids[k], WorkflowStep, [extra[k]])
    decreases ids
  {
    if ids != [] {
      AddedIs(t[ids[0] := Node(ids[0], WorkflowStep, [extra[0]])], ids[1..], extra[1..]);
      assert ids == [ids[0]] + ids[1..];
    }
  }

  /** The split table, node by node. */
  ghost predicate IsSplit(t: Table, next: Table, owner: string, step: string, at: nat, ids: seq<string>)
    requires SplitsAt(t, owner, step, at, ids)
  {
    var children, extra := t[owner].children, Extra(t[step].children, CallIn(t));
    && (forall id :: id in next <==> id in t || id in ids)
    && (forall id :: id in t && id != owner && id != step ==> id in next && next[id] == t[id])
    && owner in next && next[owner] == t[owner].(children := children[..at + 1] + ids + children[at + 1..])
    && step in next && next[step] == t[step].(children := Keep(t[step].children, extra))
    && (forall k :: 0 <= k < |ids| ==> ids[k] in next && next[ids[k]] == Node(ids[k], WorkflowStep, [extra[k]]))
  }

  lemma SplitIs(t: Table, owner: string, step: string, at: nat, ids: seq<string>)
    requires OwnedOnce(t, owner, step, at, ids)
    ensures IsSplit(t, SplitTable(t, owner, step, at, ids), owner, step, at, ids)
  {
    hide Keep, Extra, FirstOwnedOnce;
    var children, extra := t[owner].children, Extra(t[step].children, CallIn(t));
    var listed := t[owner].(children := children[..at + 1] + ids + children[at + 1..]);
    AddedIs(t[owner := listed][step := t[step].(children := Keep(t[step].children, extra))], ids, extra);
    hide Added;
    assert forall k :: 0 <= k < |ids| ==> ids[k] != owner && ids[k] != step;
  }

  /** The new steps rank with the one they come from. */
  function Ranked(rank: string -> nat, step: string, ids: seq<string>): string -> nat {
    id => if id in ids then rank(step) else rank(id)
  }

  lemma {:induction false} KeepIsSubset(children: seq<string>, extra: seq<string>)
    ensures forall c :: c in Keep(children, extra) ==> c in children
  {
    if children != [] {
      KeepIsSubset(children[1..], extra);
      assert forall c :: c in children[1..] ==> c in children;
    }
  }

  lemma StillDescends(t: Table, next: Table, rank: string -> nat, owner: string, step: string, at: nat,
                      ids: seq<string>)
    requires Descends(t, rank) && OwnedOnce(t, owner, step, at, ids) && IsSplit(t, next, owner, step, at, ids)
    ensures Descends(next, Ranked(rank, step, ids))
  {
    hide Keep, Calls, FirstOwnedOnce;
    var extra := Extra(t[step].children, CallIn(t));
    KeepIsSubset(t[step].children, extra);
    CallsAreCalls(t[step].children, CallIn(t));
    var below := Ranked(rank, step, ids);
    forall id, c | id in next && c in next[id].children && c in next ensures below(c) < below(id) {
      if id in ids {
        var k :| 0 <= k < |ids| && ids[k] == id;
        assert c == extra[k] && c in t[step].children;
        assert c !in ids;
      } else if id == owner {
        assert c in t[owner].children || c in ids;
      } else {
        assert c in t[id].children;
        assert c !in ids;
      }
    }
  }

  // ---- What the split keeps ------------------------------------------------------------

  /** The node, or a node below it, is the owner. */
  ghost predicate Reaches(t: Table, rank: string -> nat, id: string, owner: string)
    requires Descends(t, rank) && id in t
    decreases rank(id), 1, 0
  {
    id == owner || (!t[id].kind.WorkflowStep? && AnyReaches(t, rank, rank(id), t[id].children, owner))
  }

  ghost predicate AnyReaches(t: Table, rank: string -> nat, bound: nat, ids: seq<string>, owner: string)
    requires Descends(t, rank) && forall c :: c in ids && c in t ==> rank(c) < bound
    decreases bound, 0, |ids|
  {
    ids != []
    && ((ids[0] in t && Reaches(t, rank, ids[0], owner)) || AnyReaches(t, rank, bound, ids[1..], owner))
  }

  ghost predicate MovedLast(t: Table, step: string)
    requires step in t
  {
    var children := t[step].children;
    var extra := Extra(children, CallIn(t));
    |extra| <= |children| && children[|children| - |extra|..] == extra
  }

  /** Same accesses in the same order, same effects, and the same order of all of them just when
      `same`. */
  ghost predicate Keeps(before: seq<string>, after: seq<string>, isCall: string -> bool, same: bool) {
    && Calls(after, isCall) == Calls(before, isCall) && multiset(after) == multiset(before)
    && (after == before <==> same)
  }

  lemma KeepsConcat(a: seq<string>, b: seq<string>, c: seq<string>, d: seq<string>, isCall: string -> bool,
                    same: bool, too: bool)
    requires Keeps(a, b, isCall, same) && Keeps(c, d, isCall, too)
    ensures Keeps(a + c, b + d, isCall, same && too)
  {
    hide Calls;
    CallsConcat(a, c, isCall);
    CallsConcat(b, d, isCall);
    assert |a| == |multiset(a)| == |multiset(b)| == |b|;
    if a + c == b + d {
      assert a == (a + c)[..|a|] && b == (b + d)[..|b|];
      assert c == (a + c)[|a|..] && d == (b + d)[|b|..];
    }
  }

  /** Below the owner, but for the split step, nothing changes. */
  lemma {:induction false} BelowIsSame(t: Table, next: Table, rank: string -> nat, below: string -> nat, owner: string,
                                       step: string, at: nat, ids: seq<string>, id: string)
    requires Descends(t, rank) && OwnedOnce(t, owner, step, at, ids) && IsSplit(t, next, owner, step, at, ids)
    requires below == Ranked(rank, step, ids) && Descends(next, below)
    requires id in t && id != step && rank(id) < rank(owner)
    ensures id in next && Trace(next, below, id) == Trace(t, rank, id)
    decreases rank(id), 1, 0
  {
    hide OwnedOnce, IsSplit;
    UntouchedNode(t, next, owner, step, at, ids, id);
    if !t[id].kind.WorkflowStep? {
      assert below(id) == rank(id) by { NotNew(t, next, owner, step, at, ids, id); }
      BelowListIsSame(t, next, rank, below, owner, step, at, ids, id, rank(id), t[id].children);
    }
  }

  lemma NotNew(t: Table, next: Table, owner: string, step: string, at: nat, ids: seq<string>, id: string)
    requires OwnedOnce(t, owner, step, at, ids) && id in t
    ensures id !in ids
  {
  }

  lemma UntouchedNode(t: Table, next: Table, owner: string, step: string, at: nat, ids: seq<string>, id: string)
    requires OwnedOnce(t, owner, step, at, ids) && IsSplit(t, next, owner, step, at, ids)
    requires id in t && id != step && id != owner
    ensures id in next && next[id] == t[id] && step !in t[id].children
    ensures forall c :: c in t[id].children ==> c !in ids && (c in next <==> c in t)
  {
    hide Keep, Extra, FirstOwnedOnce;
  }

  lemma {:induction false} BelowListIsSame(t: Table, next: Table, rank: string -> nat, below: string -> nat,
                                           owner: string,
                                           step: string, at: nat, ids: seq<string>, id: string, bound: nat,
                                               list: seq<string>)
    requires Descends(t, rank) && OwnedOnce(t, owner, step, at, ids) && IsSplit(t, next, owner, step, at, ids)
    requires below == Ranked(rank, step, ids) && Descends(next, below) && bound <= rank(owner)
    requires forall c :: c in list ==> c != step && c !in ids && (c in next <==> c in t) && (c in t ==> rank(c) < bound)
    ensures TraceAll(next, below, bound, list) == TraceAll(t, rank, bound, list)
    decreases bound, 0, |list|
  {
    if list != [] {
      hide OwnedOnce, IsSplit, Descends;
      assert forall c :: c in list[1..] ==> c in list;
      if list[0] in t {
        BelowIsSame(t, next, rank, below, owner, step, at, ids, list[0]);
      }
      BelowListIsSame(t, next, rank, below, owner, step, at, ids, id, bound, list[1..]);
    }
  }

  /** What one item of the owner does after the split. */
  lemma ItemAfter(t: Table, next: Table, rank: string -> nat, below: string -> nat, owner: string, step: string,
                  at: nat, ids: seq<string>, items: map<string, seq<string>>, c: string)
    requires Descends(t, rank) && OwnedOnce(t, owner, step, at, ids) && IsSplit(t, next, owner, step, at, ids)
    requires below == Ranked(rank, step, ids) && Descends(next, below)
    requires var extra := Extra(t[step].children, CallIn(t));
             items == NewSteps(ids, extra, Traces(t, rank, t[owner].children)[step := Keep(t[step].children, extra)])
    requires c in t[owner].children || c in ids
    ensures (c in items <==> c in next) && (c in next ==> items[c] == Trace(next, below, c))
  {
    hide Keep, Calls, FirstOwnedOnce, Extra, Ranked;
    var children, extra := t[owner].children, Extra(t[step].children, CallIn(t));
    var kept := Traces(t, rank, children)[step := Keep(t[step].children, extra)];
    NewStepsHold(ids, extra, kept);
    hide NewSteps;
    if c in ids {
      var k :| 0 <= k < |ids| && ids[k] == c;
      assert Trace(next, below, c) == [extra[k]];
    } else if c == step {
      assert Trace(next, below, step) == Keep(t[step].children, extra);
    } else if c in t {
      ChildrenBelow(t, rank, owner);
      assert c != owner;
      BelowIsSame(t, next, rank, below, owner, step, at, ids, c);
    }
  }

  /** What the owner's items do after the split. */
  lemma ItemsAfter(t: Table, next: Table, rank: string -> nat, below: string -> nat, owner: string, step: string,
                   at: nat, ids: seq<string>)
    requires Descends(t, rank) && OwnedOnce(t, owner, step, at, ids) && IsSplit(t, next, owner, step, at, ids)
    requires below == Ranked(rank, step, ids) && Descends(next, below)
    ensures var o := Owner(t[owner].children, Traces(t, rank, t[owner].children));
            var extra := Extra(t[step].children, CallIn(t));
            && step in o.steps && o.steps[step] == t[step].children
            && owner in next && next[owner].children == Split(o, at, ids, CallIn(t)).order
            && Untouched(next[owner].children, NewSteps(ids, extra, o.steps[step := Keep(t[step].children, extra)]),
                         Traces(next, below, next[owner].children))
  {
    hide Keep, Calls, FirstOwnedOnce, Extra, Descends, NewSteps, Ranked;
    var children, extra := t[owner].children, Extra(t[step].children, CallIn(t));
    var steps := Traces(t, rank, children);
    assert step in children && Trace(t, rank, step) == t[step].children;
    var items, order := NewSteps(ids, extra, steps[step := Keep(t[step].children, extra)]), next[owner].children;
    assert order == children[..at + 1] + ids + children[at + 1..];
    hide Trace;
    forall k | 0 <= k < |order|
      ensures order[k] in items <==> order[k] in next
      ensures order[k] in next ==> items[order[k]] == Trace(next, below, order[k])
    {
      ItemAfter(t, next, rank, below, owner, step, at, ids, items, order[k]);
    }
  }

  lemma OwnerKeeps(t: Table, next: Table, rank: string -> nat, below: string -> nat, owner: string, step: string,
                   at: nat, ids: seq<string>)
    requires Descends(t, rank) && OwnedOnce(t, owner, step, at, ids) && IsSplit(t, next, owner, step, at, ids)
    requires below == Ranked(rank, step, ids) && Descends(next, below)
    ensures owner in next && Keeps(Trace(t, rank, owner), Trace(next, below, owner), CallIn(t), MovedLast(t, step))
  {
    hide Keep, Calls, FirstOwnedOnce, Extra, Descends, Untouched, NewSteps, Program, Ranked, Trace, Traces, TraceAll,
         Fresh;
    var children, isCall := t[owner].children, CallIn(t);
    var o := Owner(children, Traces(t, rank, children));
    ItemsAfter(t, next, rank, below, owner, step, at, ids);
    NodeTrace(t, rank, owner);
    NodeTrace(next, below, owner);
    var order := next[owner].children;
    ProgramSame(order, Split(o, at, ids, isCall).steps, Traces(next, below, order));
    OwnerSplittable(t, rank, owner, step, at, ids);
    SplitKeepsProgram(o, at, ids, isCall);
  }

  lemma OwnerSplittable(t: Table, rank: string -> nat, owner: string, step: string, at: nat, ids: seq<string>)
    requires Descends(t, rank) && OwnedOnce(t, owner, step, at, ids)
    ensures Splittable(Owner(t[owner].children, Traces(t, rank, t[owner].children)), at, ids)
    ensures Traces(t, rank, t[owner].children)[step] == t[step].children
  {
    hide Extra, Descends, Calls, FirstOwnedOnce;
  }

  lemma NodeTrace(t: Table, rank: string -> nat, id: string)
    requires Descends(t, rank) && id in t && !t[id].kind.WorkflowStep?
    ensures Trace(t, rank, id) == Program(t[id].children, Traces(t, rank, t[id].children))
  {
    hide Program, Traces, TraceAll;
    ChildrenBelow(t, rank, id);
    TraceIsProgram(t, rank, rank(id), t[id].children, t[id].children);
  }

  lemma ChildrenBelow(t: Table, rank: string -> nat, id: string)
    requires Descends(t, rank) && id in t
    ensures forall c :: c in t[id].children && c in t ==> rank(c) < rank(id)
  {
  }

  lemma {:induction false} NodeKeeps(t: Table, next: Table, rank: string -> nat, below: string -> nat, owner: string,
                                     step: string, at: nat, ids: seq<string>, id: string)
    requires Descends(t, rank) && OwnedOnce(t, owner, step, at, ids) && IsSplit(t, next, owner, step, at, ids)
    requires below == Ranked(rank, step, ids) && Descends(next, below)
    requires id in t && id != step
    ensures id in next && Keeps(Trace(t, rank, id), Trace(next, below, id), CallIn(t),
                                !Reaches(t, rank, id, owner) || MovedLast(t, step))
    decreases rank(id), 1, 0
  {
    hide OwnedOnce, IsSplit, MovedLast;
    if id == owner {
      OwnerKeeps(t, next, rank, below, owner, step, at, ids);
    } else {
      UntouchedNode(t, next, owner, step, at, ids, id);
      if !t[id].kind.WorkflowStep? {
        NotNew(t, next, owner, step, at, ids, id);
        ListKeeps(t, next, rank, below, owner, step, at, ids, rank(id), t[id].children);
      }
    }
  }

  lemma {:induction false} ListKeeps(t: Table, next: Table, rank: string -> nat, below: string -> nat, owner: string,
                                     step: string, at: nat, ids: seq<string>, bound: nat, list: seq<string>)
    requires Descends(t, rank) && OwnedOnce(t, owner, step, at, ids) && IsSplit(t, next, owner, step, at, ids)
    requires below == Ranked(rank, step, ids) && Descends(next, below)
    requires forall c :: c in list ==> c != step && c !in ids && (c in next <==> c in t) && (c in t ==> rank(c) < bound)
    ensures Keeps(TraceAll(t, rank, bound, list), TraceAll(next, below, bound, list), CallIn(t),
                  !AnyReaches(t, rank, bound, list, owner) || MovedLast(t, step))
    decreases bound, 0, |list|
  {
    if list != [] {
      hide OwnedOnce, IsSplit, Descends, Keeps, MovedLast;
      var c, rest, isCall := list[0], list[1..], CallIn(t);
      assert forall d :: d in rest ==> d in list;
      if c in t {
        NodeKeeps(t, next, rank, below, owner, step, at, ids, c);
      } else {
        KeepsItself([c], isCall);
      }
      ListKeeps(t, next, rank, below, owner, step, at, ids, bound, rest);
      KeepsConcat(if c in t then Trace(t, rank, c) else [c], if c in next then Trace(next, below, c) else [c],
                  TraceAll(t, rank, bound, rest), TraceAll(next, below, bound, rest), isCall,
                  !(c in t && Reaches(t, rank, c, owner)) || MovedLast(t, step),
                  !AnyReaches(t, rank, bound, rest, owner) || MovedLast(t, step));
    }
  }

  lemma KeepsItself(a: seq<string>, isCall: string -> bool)
    ensures Keeps(a, a, isCall, true)
  {
  }

  /** The whole document: every workflow keeps its accesses and their order, and all of its effects;
      those of a workflow that holds the split step keep their order if and only if the moved
      accesses are the step's last children. */
  lemma SplitKeepsWorkflows(t: Table, rank: string -> nat, owner: string, step: string, at: nat, ids: seq<string>,
                            root: string)
    requires Descends(t, rank) && OwnedOnce(t, owner, step, at, ids) && root in t && root != step
    ensures var next, below := SplitTable(t, owner, step, at, ids), Ranked(rank, step, ids);
            && Descends(next, below) && root in next
            && Keeps(Trace(t, rank, root), Trace(next, below, root), CallIn(t),
                     !Reaches(t, rank, root, owner) || MovedLast(t, step))
  {
    hide SplitTable, IsSplit, Keeps, MovedLast, Ranked;
    var next, below := SplitTable(t, owner, step, at, ids), Ranked(rank, step, ids);
    SplitIs(t, owner, step, at, ids);
    StillDescends(t, next, rank, owner, step, at, ids);
    NodeKeeps(t, next, rank, below, owner, step, at, ids, root);
  }

  // ---- One round -----------------------------------------------------------------------

  /** The document rules a round relies on: ids are unique, a node is listed once and by one owner,
      and what is listed is there. */
  ghost predicate Sound(doc: Document) {
    UniqueIds(doc) && ListedOnce(TableOf(doc))
  }

  predicate UniqueIds(doc: Document) {
    forall j, k :: 0 <= j < k < |doc| ==> doc[j].id != doc[k].id
  }

  ghost predicate ListedOnce(t: Table) {
    && (forall x, y, c :: x in t && y in t && c in t[x].children && c in t[y].children ==> x == y)
    && (forall x :: x in t ==> AllDifferent(t[x].children))
    && (forall x, c :: x in t && c in t[x].children ==> c in t)
  }

  predicate AllDifferent(list: seq<string>) {
    forall j, k :: 0 <= j < k < |list| ==> list[j] != list[k]
  }

  function Replaced(doc: Document, node: Node): Document {
    if doc == [] then []
    else
      var last := doc[|doc| - 1];
      Replaced(doc[..|doc| - 1], node) + [if last.id == node.id then node else last]
  }

  function NewNodes(ids: seq<string>, extra: seq<string>): Document
    requires |ids| == |extra|
  {
    if ids == [] then [] else [Node(ids[0], WorkflowStep, [extra[0]])] + NewNodes(ids[1..], extra[1..])
  }

  /** The owner and the step are replaced in place, and the new steps appended. */
  function Applied(doc: Document, owner: Node, step: Node, ids: seq<string>, extra: seq<string>): Document
    requires |ids| == |extra|
  {
    Replaced(Replaced(doc, owner), step) + NewNodes(ids, extra)
  }

  lemma {:induction false} ReplacedTable(doc: Document, node: Node)
    requires node.id in TableOf(doc)
    ensures TableOf(Replaced(doc, node)) == TableOf(doc)[node.id := node]
  {
    var init, last := doc[..|doc| - 1], doc[|doc| - 1];
    var all := Replaced(doc, node);
    assert all[..|all| - 1] == Replaced(init, node);
    if node.id in TableOf(init) {
      ReplacedTable(init, node);
    } else {
      NotReplaced(init, node);
    }
  }

  lemma {:induction false} NotReplaced(doc: Document, node: Node)
    requires node.id !in TableOf(doc)
    ensures Replaced(doc, node) == doc
  {
    if doc != [] {
      NotReplaced(doc[..|doc| - 1], node);
    }
  }

  lemma {:induction false} AppendedTable(doc: Document, ids: seq<string>, extra: seq<string>)
    requires |ids| == |extra|
    ensures TableOf(doc + NewNodes(ids, extra)) == Added(TableOf(doc), ids, extra)
    decreases ids
  {
    if ids == [] {
      assert doc + [] == doc;
    } else {
      var first := Node(ids[0], WorkflowStep, [extra[0]]);
      assert (doc + [first])[..|doc|] == doc;
      AppendedTable(doc + [first], ids[1..], extra[1..]);
      Assoc(doc, [first], NewNodes(ids[1..], extra[1..]));
    }
  }

  lemma {:induction false} CallsAlike(children: seq<string>, f: string -> bool, g: string -> bool)
    requires forall c :: f(c) == g(c)
    ensures Calls(children, f) == Calls(children, g)
  {
    if children != [] {
      CallsAlike(children[1..], f, g);
    }
  }

  lemma CallsOfTable(doc: Document, children: seq<string>)
    ensures Calls(children, IsCall(doc)) == Calls(children, CallIn(TableOf(doc)))
    ensures Extra(children, IsCall(doc)) == Extra(children, CallIn(TableOf(doc)))
  {
    CallsAlike(children, IsCall(doc), CallIn(TableOf(doc)));
  }

  lemma {:induction false} OwnerIsListed(doc: Document, id: string)
    requires OwnerOf(doc, id).Some?
    ensures OwnerOf(doc, id).value in doc && id in OwnerOf(doc, id).value.children
  {
    if id !in doc[|doc| - 1].children {
      OwnerIsListed(doc[..|doc| - 1], id);
    }
  }

  lemma {:induction false} NodeIsIt(doc: Document, node: Node)
    requires node in doc && UniqueIds(doc)
    ensures NodeOf(doc, node.id) == Some(node)
  {
    var last := doc[|doc| - 1];
    if last != node {
      var k :| 0 <= k < |doc| && doc[k] == node;
      NodeIsIt(doc[..|doc| - 1], node);
    }
  }

  lemma FirstCallOnce(children: seq<string>, isCall: string -> bool)
    requires AllDifferent(children)
    ensures FirstOwnedOnce(children, isCall)
  {
    if children != [] {
      var rest := children[1..];
      if isCall(children[0]) {
        CallsAreCalls(rest, isCall);
      } else {
        FirstCallOnce(rest, isCall);
      }
    }
  }

  /** A violation names a step that its owner lists once, and minted ids are new. */
  lemma ViolationIsOwned(doc: Document, v: Violation, at: nat, ids: seq<string>)
    requires Sound(doc) && v.step in doc && Violates(doc, v.step) && v == ViolationOf(doc, v.step)
    requires v.owner in TableOf(doc) && at < |TableOf(doc)[v.owner].children|
    requires TableOf(doc)[v.owner].children[at] == v.step.id
    requires |ids| == |v.extra| && Fresh(ids, TableOf(doc).Keys)
    ensures OwnedOnce(TableOf(doc), v.owner, v.step.id, at, ids) && TableOf(doc)[v.step.id] == v.step
    ensures v.extra == Extra(v.step.children, CallIn(TableOf(doc)))
  {
    hide Calls, FirstOwnedOnce;
    var t := TableOf(doc);
    NodeIsIt(doc, v.step);
    OwnerIsListed(doc, v.step.id);
    NodeIsIt(doc, OwnerOf(doc, v.step.id).value);
    CallsOfTable(doc, v.step.children);
    FirstCallOnce(v.step.children, CallIn(t));
  }

  method IndexOf(list: seq<string>, x: string) returns (k: nat)
    requires x in list
    ensures k < |list| && list[k] == x
  {
    k := 0;
    while list[k] != x
      invariant k < |list| && x in list[k..]
      decreases |list| - k
    {
      k := k + 1;
    }
  }

  /** Every access that the split of a step moves has a name. */
  predicate Nameable(extra: seq<string>, naming: string -> Naming, lower: char -> char) {
    forall j :: 0 <= j < |extra| ==> naming(extra[j]).Name(lower).Some?
  }

  /** `propose`, and the merge of an approved proposal: the split of the first step that needs one, or
      `None` when no step does or one of its moved accesses has no name. */
  method Round(doc: Document, naming: string -> Naming, lower: char -> char) returns (next: Option<Document>)
    ensures next.Some? <==> exists k: nat ::
              ViolatesFirst(doc, k) && Nameable(ViolationOf(doc, doc[k]).extra, naming, lower)
    ensures DistinctIds(doc) && OneOwner(doc) && (forall id :: naming(id).Name(lower).Some?) ==>
              (next.None? <==> forall o: nat, s: nat :: !Crowded(doc, o, s))
    ensures Sound(doc) && next.Some? ==>
              exists k: nat, at: nat, ids: seq<string> ::
                && ViolatesFirst(doc, k) && ids != []
                && OwnedOnce(TableOf(doc), ViolationOf(doc, doc[k]).owner, doc[k].id, at, ids)
                && RoundOf(doc, ViolationOf(doc, doc[k]).owner, doc[k].id, at, ids, next.value)
  {
    hide Calls, OwnedOnce, Sound, ListedOnce, Fresh, Replaced, NewNodes, Naming.Name, OwnerOf, Extra, DistinctIds,
         OneOwner, Crowded;
    if DistinctIds(doc) && OneOwner(doc) {
      NothingToSplit(doc);
    }
    var found := Violations(doc);
    if found == [] {
      forall step | step in doc ensures !Violates(doc, step) {
        assert Violates(doc, step) ==> ViolationOf(doc, step) in found;
      }
      NoneIsFirst(doc);
      return None;
    }
    var v := found[0];
    assert v in found;
    var t := TableOf(doc);
    var minted := MintSteps(v.owner, t.Keys, v.extra, naming, lower);
    ghost var first: nat :| ViolatesFirst(doc, first) && v.step == doc[first];
    if minted.None? {
      OnlyFirst(doc, first);
      return None;
    }
    var ids := minted.value;
    OwnerIsListed(doc, v.step.id);
    var owner := OwnerOf(doc, v.step.id).value;
    var at := IndexOf(owner.children, v.step.id);
    var listed := owner.(children := owner.children[..at + 1] + ids + owner.children[at + 1..]);
    var kept := v.step.(children := Keep(v.step.children, v.extra));
    next := Some(Applied(doc, listed, kept, ids, v.extra));
    assert Nameable(ViolationOf(doc, doc[first]).extra, naming, lower);
    if Sound(doc) {
      OwnerInTable(doc, owner);
      ViolationIsOwned(doc, v, at, ids);
      AppliedIs(doc, v.owner, v.step.id, at, ids);
    }
  }

  lemma NoneIsFirst(doc: Document)
    requires forall step :: step in doc ==> !Violates(doc, step)
    ensures forall k: nat :: !ViolatesFirst(doc, k)
  {
  }

  lemma OnlyFirst(doc: Document, k: nat)
    requires ViolatesFirst(doc, k)
    ensures forall j: nat :: ViolatesFirst(doc, j) ==> j == k
  {
  }

  lemma OwnerInTable(doc: Document, owner: Node)
    requires Sound(doc) && owner in doc
    ensures owner.id in TableOf(doc) && TableOf(doc)[owner.id] == owner
  {
    NodeIsIt(doc, owner);
  }

  /** The document after the split of a step. */
  ghost predicate RoundOf(doc: Document, owner: string, step: string, at: nat, ids: seq<string>, next: Document)
    requires SplitsAt(TableOf(doc), owner, step, at, ids)
  {
    var t := TableOf(doc);
    var children, extra := t[owner].children, Extra(t[step].children, CallIn(t));
    next == Applied(doc, t[owner].(children := children[..at + 1] + ids + children[at + 1..]),
                    t[step].(children := Keep(t[step].children, extra)), ids, extra)
  }

  lemma AppliedIs(doc: Document, owner: string, step: string, at: nat, ids: seq<string>)
    requires OwnedOnce(TableOf(doc), owner, step, at, ids)
    ensures var t := TableOf(doc);
            var children, extra := t[owner].children, Extra(t[step].children, CallIn(t));
            TableOf(Applied(doc, t[owner].(children := children[..at + 1] + ids + children[at + 1..]),
                            t[step].(children := Keep(t[step].children, extra)), ids, extra))
            == SplitTable(t, owner, step, at, ids)
  {
    hide Keep, Extra, FirstOwnedOnce, TableOf;
    var t := TableOf(doc);
    var children, extra := t[owner].children, Extra(t[step].children, CallIn(t));
    var listed, kept := t[owner].(children := children[..at + 1] + ids + children[at + 1..]),
                        t[step].(children := Keep(t[step].children, extra));
    ReplacedTable(doc, listed);
    ReplacedTable(Replaced(doc, listed), kept);
    AppendedTable(Replaced(Replaced(doc, listed), kept), ids, extra);
  }

  // ---- Rounds end ----------------------------------------------------------------------

  function Weight(node: Node, isCall: string -> bool): nat {
    if node.kind.WorkflowStep? then |Extra(node.children, isCall)| else 0
  }

  /** The accesses that some step of the document would still have to give up. */
  function Remaining(doc: Document, isCall: string -> bool): nat {
    if doc == [] then 0 else Remaining(doc[..|doc| - 1], isCall) + Weight(doc[|doc| - 1], isCall)
  }

  lemma {:induction false} IdInTable(doc: Document, k: nat)
    requires k < |doc|
    ensures doc[k].id in TableOf(doc)
  {
    if k < |doc| - 1 {
      IdInTable(doc[..|doc| - 1], k);
    }
  }

  lemma {:induction false} TableIds(doc: Document, id: string)
    requires id in TableOf(doc)
    ensures exists k :: 0 <= k < |doc| && doc[k].id == id
  {
    if doc[|doc| - 1].id != id {
      TableIds(doc[..|doc| - 1], id);
    }
  }

  lemma {:induction false} SameIds(doc: Document, node: Node)
    ensures |Replaced(doc, node)| == |doc| && forall k :: 0 <= k < |doc| ==> Replaced(doc, node)[k].id == doc[k].id
  {
    if doc != [] {
      SameIds(doc[..|doc| - 1], node);
    }
  }

  lemma {:induction false} WeightReplaced(doc: Document, node: Node, isCall: string -> bool)
    requires UniqueIds(doc) && node.id in TableOf(doc)
    ensures Remaining(Replaced(doc, node), isCall) + Weight(TableOf(doc)[node.id], isCall)
         == Remaining(doc, isCall) + Weight(node, isCall)
  {
    hide Weight;
    var init, last := doc[..|doc| - 1], doc[|doc| - 1];
    var all := Replaced(doc, node);
    assert all[..|all| - 1] == Replaced(init, node);
    if last.id == node.id {
      if node.id in TableOf(init) {
        TableIds(init, node.id);
        assert false;
      }
      NotReplaced(init, node);
    } else {
      WeightReplaced(init, node, isCall);
    }
  }

  lemma {:induction false} WeightOfNew(doc: Document, ids: seq<string>, extra: seq<string>, isCall: string -> bool)
    requires |ids| == |extra|
    ensures Remaining(doc + NewNodes(ids, extra), isCall) == Remaining(doc, isCall)
    decreases ids
  {
    if ids == [] {
      assert doc + [] == doc;
    } else {
      var first := Node(ids[0], WorkflowStep, [extra[0]]);
      assert (doc + [first])[..|doc|] == doc;
      assert |Calls([extra[0]], isCall)| <= 1;
      WeightOfNew(doc + [first], ids[1..], extra[1..], isCall);
      Assoc(doc, [first], NewNodes(ids[1..], extra[1..]));
    }
  }

  lemma {:induction false} WeightAlike(doc: Document, f: string -> bool, g: string -> bool)
    requires forall c :: f(c) == g(c)
    ensures Remaining(doc, f) == Remaining(doc, g)
  {
    if doc != [] {
      CallsAlike(doc[|doc| - 1].children, f, g);
      WeightAlike(doc[..|doc| - 1], f, g);
    }
  }

  lemma RoundLowers(doc: Document, owner: string, step: string, at: nat, ids: seq<string>, next: Document)
    requires UniqueIds(doc) && OwnedOnce(TableOf(doc), owner, step, at, ids) && RoundOf(doc, owner, step, at, ids, next)
    ensures Remaining(next, CallIn(TableOf(next))) + |ids| == Remaining(doc, CallIn(TableOf(doc)))
  {
    hide Keep, Extra, Calls, FirstOwnedOnce, TableOf, Remaining, Replaced, NewNodes;
    var t, isCall := TableOf(doc), CallIn(TableOf(doc));
    var children, extra := t[owner].children, Extra(t[step].children, isCall);
    var listed, kept := t[owner].(children := children[..at + 1] + ids + children[at + 1..]),
                        t[step].(children := Keep(t[step].children, extra));
    var middle := Replaced(doc, listed);
    ReplacedTable(doc, listed);
    SameIds(doc, listed);
    WeightReplaced(doc, listed, isCall);
    WeightReplaced(middle, kept, isCall);
    KeptCount(t[step].children, isCall);
    CountIs(Keep(t[step].children, extra), isCall);
    WeightOfNew(Replaced(middle, kept), ids, extra, isCall);
    AppliedIs(doc, owner, step, at, ids);
    SplitIs(t, owner, step, at, ids);
    WeightAlike(next, isCall, CallIn(TableOf(next))) by {
      CallsStay(t, TableOf(next), owner, step, at, ids);
    }
  }

  lemma CallsStay(t: Table, next: Table, owner: string, step: string, at: nat, ids: seq<string>)
    requires OwnedOnce(t, owner, step, at, ids) && IsSplit(t, next, owner, step, at, ids)
    ensures forall c :: CallIn(t)(c) == CallIn(next)(c)
  {
    hide Keep, Extra, FirstOwnedOnce;
    forall c ensures CallIn(t)(c) == CallIn(next)(c) {
      if c in ids {
        var k :| 0 <= k < |ids| && ids[k] == c;
      }
    }
  }

  // ---- The rules still hold ------------------------------------------------------------

  lemma {:induction false} KeepDiffers(children: seq<string>, extra: seq<string>)
    requires AllDifferent(children)
    ensures AllDifferent(Keep(children, extra))
            && forall c :: c in Keep(children, extra) <==> c in children && c !in extra
  {
    if children != [] {
      KeepDiffers(children[1..], extra);
      assert children == [children[0]] + children[1..];
    }
  }

  lemma {:induction false} CallsDiffer(children: seq<string>, isCall: string -> bool)
    requires AllDifferent(children)
    ensures AllDifferent(Calls(children, isCall))
  {
    if children != [] {
      CallsDiffer(children[1..], isCall);
      CallsAreCalls(children[1..], isCall);
    }
  }

  /** Who lists what after the split. */
  lemma ListsAfter(t: Table, next: Table, owner: string, step: string, at: nat, ids: seq<string>, x: string)
    requires ListedOnce(t) && OwnedOnce(t, owner, step, at, ids) && IsSplit(t, next, owner, step, at, ids) && x in next
    ensures AllDifferent(next[x].children)
    ensures var extra := Extra(t[step].children, CallIn(t));
            forall c :: c in next[x].children <==>
              if x in ids then exists k :: 0 <= k < |ids| && ids[k] == x && c == extra[k]
              else if x == owner then c in t[x].children || c in ids
              else if x == step then c in t[x].children && c !in extra
              else c in t[x].children
  {
    hide Keep, Calls, FirstOwnedOnce;
    var extra := Extra(t[step].children, CallIn(t));
    KeepDiffers(t[step].children, extra);
    if x in ids {
      var k :| 0 <= k < |ids| && ids[k] == x;
      assert next[x].children == [extra[k]];
    } else if x == owner {
      assert AllDifferent(t[owner].children);
    } else if x != step {
      assert next[x] == t[x];
    }
  }

  lemma ExtraDiffers(t: Table, owner: string, step: string, at: nat, ids: seq<string>)
    requires ListedOnce(t) && OwnedOnce(t, owner, step, at, ids)
    ensures var extra := Extra(t[step].children, CallIn(t));
            AllDifferent(extra) && forall k :: 0 <= k < |extra| ==> extra[k] in t[step].children && extra[k] in t
  {
    CallsDiffer(t[step].children, CallIn(t));
    CallsAreCalls(t[step].children, CallIn(t));
    hide Calls;
  }

  lemma StillThere(t: Table, next: Table, owner: string, step: string, at: nat, ids: seq<string>, x: string, c: string)
    requires ListedOnce(t) && OwnedOnce(t, owner, step, at, ids) && IsSplit(t, next, owner, step, at, ids)
    requires x in next && c in next[x].children
    ensures c in next
  {
    hide Keep, Extra, FirstOwnedOnce;
    ListsAfter(t, next, owner, step, at, ids, x);
    ExtraDiffers(t, owner, step, at, ids);
  }

  lemma SplitIsListedOnce(t: Table, next: Table, owner: string, step: string, at: nat, ids: seq<string>)
    requires ListedOnce(t) && OwnedOnce(t, owner, step, at, ids) && IsSplit(t, next, owner, step, at, ids)
    ensures ListedOnce(next)
  {
    hide OwnedOnce, IsSplit, AllDifferent;
    forall x, c | x in next && c in next[x].children ensures c in next {
      StillThere(t, next, owner, step, at, ids, x, c);
    }
    forall x, y, c | x in next && y in next && c in next[x].children && c in next[y].children ensures x == y {
      SameLister(t, next, owner, step, at, ids, x, y, c);
    }
    forall x | x in next ensures AllDifferent(next[x].children) {
      ListsAfter(t, next, owner, step, at, ids, x);
    }
  }

  lemma SameLister(t: Table, next: Table, owner: string, step: string, at: nat, ids: seq<string>, x: string,
                   y: string, c: string)
    requires ListedOnce(t) && OwnedOnce(t, owner, step, at, ids) && IsSplit(t, next, owner, step, at, ids)
    requires x in next && y in next && c in next[x].children && c in next[y].children
    ensures x == y
  {
    hide Keep, Extra, FirstOwnedOnce;
    var extra := Extra(t[step].children, CallIn(t));
    ExtraDiffers(t, owner, step, at, ids);
    ListsAfter(t, next, owner, step, at, ids, x);
    ListsAfter(t, next, owner, step, at, ids, y);
    if x in ids && y in ids {
      var j :| 0 <= j < |ids| && ids[j] == x && c == extra[j];
      var k :| 0 <= k < |ids| && ids[k] == y && c == extra[k];
      assert j == k;
    }
  }

  lemma {:induction false} NewNodeIds(ids: seq<string>, extra: seq<string>)
    requires |ids| == |extra|
    ensures |NewNodes(ids, extra)| == |ids| && forall k :: 0 <= k < |ids| ==> NewNodes(ids, extra)[k].id == ids[k]
  {
    if ids != [] {
      NewNodeIds(ids[1..], extra[1..]);
    }
  }

  lemma RoundIsUnique(doc: Document, owner: string, step: string, at: nat, ids: seq<string>, next: Document)
    requires UniqueIds(doc) && OwnedOnce(TableOf(doc), owner, step, at, ids) && RoundOf(doc, owner, step, at, ids, next)
    ensures UniqueIds(next)
  {
    hide Keep, Extra, Calls, FirstOwnedOnce, Replaced, NewNodes;
    var t, isCall := TableOf(doc), CallIn(TableOf(doc));
    var children, extra := t[owner].children, Extra(t[step].children, isCall);
    var listed, kept := t[owner].(children := children[..at + 1] + ids + children[at + 1..]),
                        t[step].(children := Keep(t[step].children, extra));
    SameIds(doc, listed);
    SameIds(Replaced(doc, listed), kept);
    NewNodeIds(ids, extra);
    forall k | 0 <= k < |doc| ensures doc[k].id !in ids {
      IdInTable(doc, k);
    }
  }

  /** One round over a sound document: the rules still hold, every workflow keeps its accesses in
      their order and all its effects, and fewer accesses remain to be split off. */
  lemma RoundKeeps(doc: Document, rank: string -> nat, owner: string, step: string, at: nat, ids: seq<string>,
                   next: Document,
                   root: string)
    requires Sound(doc) && Descends(TableOf(doc), rank) && OwnedOnce(TableOf(doc), owner, step, at, ids) && ids != []
    requires RoundOf(doc, owner, step, at, ids, next) && root in TableOf(doc) && root != step
    ensures Sound(next) && Remaining(next, CallIn(TableOf(next))) < Remaining(doc, CallIn(TableOf(doc)))
    ensures var below := Ranked(rank, step, ids);
            && Descends(TableOf(next), below) && root in TableOf(next)
            && Keeps(Trace(TableOf(doc), rank, root), Trace(TableOf(next), below, root), CallIn(TableOf(doc)),
                     !Reaches(TableOf(doc), rank, root, owner) || MovedLast(TableOf(doc), step))
  {
    hide Descends, Trace, Reaches, MovedLast, Keeps, TableOf, Ranked, SplitTable, IsSplit, ListedOnce, Remaining,
         Applied, FirstOwnedOnce, Keep, Calls;
    AppliedIs(doc, owner, step, at, ids);
    SplitKeepsWorkflows(TableOf(doc), rank, owner, step, at, ids, root);
    SplitIs(TableOf(doc), owner, step, at, ids);
    SplitIsListedOnce(TableOf(doc), TableOf(next), owner, step, at, ids);
    RoundIsUnique(doc, owner, step, at, ids, next);
    RoundLowers(doc, owner, step, at, ids, next);
  }
}
