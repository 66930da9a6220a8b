/** Splitting a step that owns more than one repository access (`RefactoringAgent` in
    `impl/lnpl/agents.py`): what the split keeps, and exactly when it keeps the order. */
module Refactor {
  import opened Wrappers
  import opened Text

  datatype Kind = WorkflowStep | RepositoryCall | Workflow | Pipeline | OtherKind

  datatype Node = Node(id: string, kind: Kind, children: seq<string>)

  type Document = seq<Node>

  /** The last node of an id, as a dictionary keyed on ids keeps it. */
  function NodeOf(doc: Document, id: string): Option<Node> {
    if doc == [] then None
    else if doc[|doc| - 1].id == id then Some(doc[|doc| - 1])
    else NodeOf(doc[..|doc| - 1], id)
  }

  /** The last node that lists the id among its children. */
  function OwnerOf(doc: Document, id: string): Option<Node> {
    if doc == [] then None
    else if id in doc[|doc| - 1].children then Some(doc[|doc| - 1])
    else OwnerOf(doc[..|doc| - 1], id)
  }

  function IsCall(doc: Document): string -> bool {
    id =>
      var node := NodeOf(doc, id);
      node.Some? && node.value.kind.RepositoryCall?
  }

  // ---- What a split moves --------------------------------------------------------------

  /** The repository accesses among a step's direct children, in order. */
  function Calls(children: seq<string>, isCall: string -> bool): seq<string> {
    if children == [] then [] else (if isCall(children[0]) then [children[0]] else []) + Calls(children[1..], isCall)
  }

  /** Every access but the first moves out. */
  function Extra(children: seq<string>, isCall: string -> bool): seq<string> {
    var calls := Calls(children, isCall);
    if calls == [] then [] else calls[1..]
  }

  function Keep(children: seq<string>, extra: seq<string>): seq<string> {
    if children == [] then []
    else (if children[0] in extra then [] else [children[0]]) + Keep(children[1..], extra)
  }

  /** The original step's children after the split, then the new steps' in order. */
  function SplitChildren(children: seq<string>, isCall: string -> bool): seq<string> {
    Keep(children, Extra(children, isCall)) + Extra(children, isCall)
  }

  /** The first access is none of the moved ones: it is owned once. */
  predicate FirstOwnedOnce(children: seq<string>, isCall: string -> bool) {
    var calls := Calls(children, isCall);
    calls != [] ==> calls[0] !in calls[1..]
  }

  lemma {:induction false} CallsConcat(a: seq<string>, b: seq<string>, isCall: string -> bool)
    ensures Calls(a + b, isCall) == Calls(a, isCall) + Calls(b, isCall)
  {
    if a == [] {
      assert a + b == b;
    } else {
      assert (a + b)[1..] == a[1..] + b;
      CallsConcat(a[1..], b, isCall);
    }
  }

  lemma {:induction false} CallsAreCalls(children: seq<string>, isCall: string -> bool)
    ensures forall k :: 0 <= k < |Calls(children, isCall)| ==>
              isCall(Calls(children, isCall)[k]) && Calls(children, isCall)[k] in children
    ensures forall c :: c in children && isCall(c) ==> c in Calls(children, isCall)
  {
    if children != [] {
      CallsAreCalls(children[1..], isCall);
      assert children == [children[0]] + children[1..];
    }
  }

  lemma {:induction false} AllCalls(calls: seq<string>, isCall: string -> bool)
    requires forall k :: 0 <= k < |calls| ==> isCall(calls[k])
    ensures Calls(calls, isCall) == calls
  {
    if calls != [] {
      AllCalls(calls[1..], isCall);
    }
  }

  lemma {:induction false} CallsKept(children: seq<string>, extra: seq<string>, isCall: string -> bool)
    ensures Calls(Keep(children, extra), isCall) == Keep(Calls(children, isCall), extra)
  {
    if children != [] {
      CallsKept(children[1..], extra, isCall);
      var rest := Keep(children[1..], extra);
      var calls := Calls(children[1..], isCall);
      assert ([children[0]] + rest)[1..] == rest && [] + rest == rest;
      assert ([children[0]] + calls)[1..] == calls && [] + calls == calls;
    }
  }

  lemma {:induction false} KeepNone(calls: seq<string>, extra: seq<string>)
    requires forall k :: 0 <= k < |calls| ==> calls[k] in extra
    ensures Keep(calls, extra) == []
  {
    if calls != [] {
      KeepNone(calls[1..], extra);
    }
  }

  /** Of the accesses only the first is kept. */
  lemma FirstCallKept(children: seq<string>, isCall: string -> bool)
    requires FirstOwnedOnce(children, isCall)
    ensures var calls := Calls(children, isCall);
            Calls(Keep(children, Extra(children, isCall)), isCall) == if calls == [] then [] else [calls[0]]
  {
    var calls, extra := Calls(children, isCall), Extra(children, isCall);
    CallsKept(children, extra, isCall);
    if calls != [] {
      KeepNone(calls[1..], extra);
    }
  }

  /** The sequence of repository accesses is preserved. */
  lemma SplitKeepsCalls(children: seq<string>, isCall: string -> bool)
    requires FirstOwnedOnce(children, isCall)
    ensures Calls(SplitChildren(children, isCall), isCall) == Calls(children, isCall)
  {
    var calls, extra := Calls(children, isCall), Extra(children, isCall);
    FirstCallKept(children, isCall);
    CallsConcat(Keep(children, extra), extra, isCall);
    CallsAreCalls(children, isCall);
    AllCalls(extra, isCall);
    if calls != [] {
      assert calls == [calls[0]] + calls[1..];
    }
  }

  lemma {:induction false} KeepMultiset(children: seq<string>, extra: seq<string>, c: string)
    ensures multiset(Keep(children, extra))[c] == if c in extra then 0 else multiset(children)[c]
  {
    if children != [] {
      KeepMultiset(children[1..], extra, c);
      assert children == [children[0]] + children[1..];
    }
  }

  lemma {:induction false} CallsMultiset(children: seq<string>, isCall: string -> bool, c: string)
    ensures multiset(Calls(children, isCall))[c] == if isCall(c) then multiset(children)[c] else 0
  {
    if children != [] {
      CallsMultiset(children[1..], isCall, c);
      assert children == [children[0]] + children[1..];
    }
  }

  lemma SplitCount(children: seq<string>, isCall: string -> bool, c: string)
    ensures (var calls := Calls(children, isCall);
             var doubled := if calls != [] && c == calls[0] && c in calls[1..] then 1 else 0;
             multiset(SplitChildren(children, isCall))[c] + doubled == multiset(children)[c])
  {
    hide Keep, Calls;
    var calls, extra := Calls(children, isCall), Extra(children, isCall);
    KeepMultiset(children, extra, c);
    CallsMultiset(children, isCall, c);
    if calls != [] {
      assert calls == [calls[0]] + extra;
      CallsAreCalls(children, isCall);
    }
  }

  /** No effect is lost or doubled if and only if the first access is owned once. */
  lemma SplitKeepsEffectsExactly(children: seq<string>, isCall: string -> bool)
    ensures multiset(SplitChildren(children, isCall)) == multiset(children) <==> FirstOwnedOnce(children, isCall)
  {
    hide SplitChildren, Calls;
    var calls := Calls(children, isCall);
    if FirstOwnedOnce(children, isCall) {
      forall c ensures multiset(SplitChildren(children, isCall))[c] == multiset(children)[c] {
        SplitCount(children, isCall, c);
      }
    } else {
      SplitCount(children, isCall, calls[0]);
      CallsAreCalls(children, isCall);
    }
  }

  lemma {:induction false} KeepUnmoved(children: seq<string>, extra: seq<string>)
    requires forall k :: 0 <= k < |children| ==> children[k] !in extra
    ensures Keep(children, extra) == children
  {
    if children != [] {
      KeepUnmoved(children[1..], extra);
    }
  }

  lemma {:induction false} KeepConcat(a: seq<string>, b: seq<string>, extra: seq<string>)
    ensures Keep(a + b, extra) == Keep(a, extra) + Keep(b, extra)
  {
    if a == [] {
      assert a + b == b;
    } else {
      assert (a + b)[1..] == a[1..] + b;
      KeepConcat(a[1..], b, extra);
    }
  }

  /** Before a suffix of moved accesses there is at most the first one. */
  lemma SuffixFront(front: seq<string>, extra: seq<string>, isCall: string -> bool)
    requires FirstOwnedOnce(front + extra, isCall) && Extra(front + extra, isCall) == extra
    ensures forall k :: 0 <= k < |front| ==> front[k] !in extra
  {
    hide Keep;
    var calls := Calls(front + extra, isCall);
    CallsConcat(front, extra, isCall);
    CallsAreCalls(front + extra, isCall);
    AllCalls(extra, isCall);
    CallsAreCalls(front, isCall);
    if calls != [] {
      assert calls == [calls[0]] + extra;
      assert Calls(front, isCall) == [calls[0]];
    }
  }

  lemma SuffixSplits(children: seq<string>, isCall: string -> bool)
    requires FirstOwnedOnce(children, isCall)
    requires var extra := Extra(children, isCall); |extra| <= |children| && children[|children| - |extra|..] == extra
    ensures SplitChildren(children, isCall) == children
  {
    hide Calls, Keep, FirstOwnedOnce;
    var extra := Extra(children, isCall);
    hide Extra;
    var front := children[..|children| - |extra|];
    assert children == front + extra;
    SuffixFront(front, extra, isCall);
    KeepConcat(front, extra, extra);
    KeepNone(extra, extra);
    KeepUnmoved(front, extra);
  }

  /** The full effect order is preserved if and only if the moved accesses are the step's last
      children. */
  lemma SplitKeepsOrderExactly(children: seq<string>, isCall: string -> bool)
    requires FirstOwnedOnce(children, isCall)
    ensures (var extra := Extra(children, isCall);
             SplitChildren(children, isCall) == children
             <==> |extra| <= |children| && children[|children| - |extra|..] == extra)
  {
    hide Extra, Keep, FirstOwnedOnce;
    var extra := Extra(children, isCall);
    if SplitChildren(children, isCall) == children {
      assert children[|children| - |extra|..] == extra;
    }
    if |extra| <= |children| && children[|children| - |extra|..] == extra {
      SuffixSplits(children, isCall);
    }
  }

  // ---- Which steps are split -----------------------------------------------------------

  datatype Violation = Violation(owner: string, step: Node, extra: seq<string>)

  /** A step with two direct accesses or more, directly under a workflow or a pipeline. */
  predicate Violates(doc: Document, step: Node) {
    && step.kind.WorkflowStep? && |Calls(step.children, IsCall(doc))| >= 2
    && var owner := OwnerOf(doc, step.id);
       owner.Some? && (owner.value.kind.Workflow? || owner.value.kind.Pipeline?)
  }

  function ViolationOf(doc: Document, step: Node): Violation
    requires Violates(doc, step)
  {
    Violation(OwnerOf(doc, step.id).value.id, step, Extra(step.children, IsCall(doc)))
  }

  /** Node `k` is the first that violates the rule. */
  predicate ViolatesFirst(doc: Document, k: nat) {
    k < |doc| && Violates(doc, doc[k]) && forall j :: 0 <= j < k ==> !Violates(doc, doc[j])
  }

  /** `_violations`: every step that violates the rule, the first of them first. */
  method Violations(doc: Document) returns (found: seq<Violation>)
    ensures forall v :: v in found <==> v.step in doc && Violates(doc, v.step) && v == ViolationOf(doc, v.step)
    ensures forall v :: v in found ==> v.extra != []
    ensures found != [] ==> exists k: nat :: ViolatesFirst(doc, k) && found[0].step == doc[k]
  {
    hide Calls, OwnerOf, IsCall;
    found := [];
    for k := 0 to |doc|
      invariant forall v :: v in found <==> v.step in doc[..k] && Violates(doc, v.step) && v == ViolationOf(doc, v.step)
      invariant forall v :: v in found ==> v.extra != []
      invariant found == [] ==> forall j :: 0 <= j < k ==> !Violates(doc, doc[j])
      invariant found != [] ==> exists j: nat :: ViolatesFirst(doc, j) && found[0].step == doc[j]
    {
      var node := doc[k];
      assert doc[..k + 1] == doc[..k] + [node];
      if !node.kind.WorkflowStep? {
        continue;
      }
      var calls := Calls(node.children, IsCall(doc));
      if |calls| < 2 {
        continue;
      }
      var owner := OwnerOf(doc, node.id);
      if owner.None? || !(owner.value.kind.Workflow? || owner.value.kind.Pipeline?) {
        continue;
      }
      found := found + [Violation(owner.value.id, node, calls[1..])];
    }
    assert doc[..|doc|] == doc;
  }

  // ---- What has nothing to split -------------------------------------------------------

  predicate DistinctIds(doc: Document) {
    forall j, k :: 0 <= j < k < |doc| ==> doc[j].id != doc[k].id
  }

  predicate OneOwner(doc: Document) {
    forall j, k, id :: 0 <= j < k < |doc| && id in doc[j].children ==> id !in doc[k].children
  }

  /** The id is that of a repository access. */
  ghost predicate NamesAccess(doc: Document, id: string) {
    exists k :: 0 <= k < |doc| && doc[k].id == id && doc[k].kind == RepositoryCall
  }

  /** Node `s` is a step that node `o`, a workflow or a pipeline, lists, and two of its children are
      accesses. */
  ghost predicate Crowded(doc: Document, o: nat, s: nat) {
    && o < |doc| && s < |doc| && doc[o].kind in {Workflow, Pipeline} && doc[s].kind == WorkflowStep
    && doc[s].id in doc[o].children
    && exists i, j :: 0 <= i < j < |doc[s].children|
                      && NamesAccess(doc, doc[s].children[i]) && NamesAccess(doc, doc[s].children[j])
  }

  lemma {:induction false} NodeIs(doc: Document, k: nat)
    requires DistinctIds(doc) && k < |doc|
    ensures NodeOf(doc, doc[k].id) == Some(doc[k])
  {
    if k < |doc| - 1 {
      NodeIs(doc[..|doc| - 1], k);
    }
  }

  lemma {:induction false} NodeIsIn(doc: Document, id: string)
    ensures NodeOf(doc, id).Some? ==> exists k :: 0 <= k < |doc| && doc[k] == NodeOf(doc, id).value && doc[k].id == id
  {
    if doc != [] && doc[|doc| - 1].id != id {
      var init := doc[..|doc| - 1];
      NodeIsIn(init, id);
      if NodeOf(init, id).Some? {
        var k :| 0 <= k < |init| && init[k] == NodeOf(init, id).value && init[k].id == id;
        assert doc[k] == init[k];
      }
    }
  }

  lemma {:induction false} OwnerIs(doc: Document, o: nat, id: string)
    requires OneOwner(doc) && o < |doc| && id in doc[o].children
    ensures OwnerOf(doc, id) == Some(doc[o])
  {
    if o < |doc| - 1 {
      OwnerIs(doc[..|doc| - 1], o, id);
    }
  }

  lemma {:induction false} OwnerIsIn(doc: Document, id: string)
    ensures OwnerOf(doc, id).Some? ==> exists o :: 0 <= o < |doc| && doc[o] == OwnerOf(doc, id).value
                                                   && id in doc[o].children
  {
    if doc != [] && id !in doc[|doc| - 1].children {
      var init := doc[..|doc| - 1];
      OwnerIsIn(init, id);
      if OwnerOf(init, id).Some? {
        var k :| 0 <= k < |init| && init[k] == OwnerOf(init, id).value && id in init[k].children;
        assert doc[k] == init[k];
      }
    }
  }

  lemma {:induction false} CallsCount(children: seq<string>, isCall: string -> bool)
    ensures |Calls(children, isCall)| >= 1 <==> exists i :: 0 <= i < |children| && isCall(children[i])
    ensures |Calls(children, isCall)| >= 2
       <==> exists i, j :: 0 <= i < j < |children| && isCall(children[i]) && isCall(children[j])
  {
    if children != [] {
      var rest := children[1..];
      CallsCount(rest, isCall);
      assert forall i :: 0 < i < |children| ==> children[i] == rest[i - 1];
      assert forall i :: 0 <= i < |rest| ==> rest[i] == children[i + 1];
    }
  }

  lemma AccessIs(doc: Document, id: string)
    requires DistinctIds(doc)
    ensures IsCall(doc)(id) <==> NamesAccess(doc, id)
  {
    NodeIsIn(doc, id);
    forall k | 0 <= k < |doc| && doc[k].id == id ensures NodeOf(doc, id) == Some(doc[k]) {
      NodeIs(doc, k);
    }
  }

  lemma CrowdedExactly(doc: Document, s: nat)
    requires DistinctIds(doc) && OneOwner(doc) && s < |doc|
    ensures Violates(doc, doc[s]) <==> exists o: nat :: Crowded(doc, o, s)
  {
    hide DistinctIds, OneOwner, NamesAccess, NodeOf, OwnerOf, Calls, IsCall;
    var step := doc[s];
    CallsCount(step.children, IsCall(doc));
    forall i | 0 <= i < |step.children|
      ensures IsCall(doc)(step.children[i]) <==> NamesAccess(doc, step.children[i])
    {
      AccessIs(doc, step.children[i]);
    }
    OwnerIsIn(doc, step.id);
    if o: nat :| Crowded(doc, o, s) {
      OwnerIs(doc, o, step.id);
    }
    if Violates(doc, step) {
      var o :| 0 <= o < |doc| && doc[o] == OwnerOf(doc, step.id).value && step.id in doc[o].children;
      assert Crowded(doc, o, s);
    }
  }

  /** In a document of distinct ids and single owners nothing violates the rule exactly if no step under a
      workflow or a pipeline has two accesses. */
  lemma NothingToSplit(doc: Document)
    requires DistinctIds(doc) && OneOwner(doc)
    ensures (forall step :: step in doc ==> !Violates(doc, step)) <==> forall o: nat, s: nat :: !Crowded(doc, o, s)
  {
    hide DistinctIds, OneOwner, Violates;
    forall s: nat | s < |doc| ensures Violates(doc, doc[s]) <==> exists o: nat :: Crowded(doc, o, s) {
      CrowdedExactly(doc, s);
    }
    if o: nat, s: nat :| Crowded(doc, o, s) {
      assert doc[s] in doc;
    }
  }

  // ---- Fresh ids -----------------------------------------------------------------------

  function SplitId(owner: string, n: nat): string {
    owner + ".split." + Decimal(n)
  }

  lemma SplitIdInjective(owner: string, m: nat, n: nat)
    requires SplitId(owner, m) == SplitId(owner, n)
    ensures m == n
  {
    var prefix := owner + ".split.";
    assert SplitId(owner, m)[|prefix|..] == Decimal(m) && SplitId(owner, n)[|prefix|..] == Decimal(n);
    DecimalInjective(m, n);
  }

  /** The id loop of `_new_step`: the first number not used in the document or by this split. */
  method FreshId(owner: string, nodes: set<string>, taken: set<string>) returns (n: nat)
    ensures n >= 1 && SplitId(owner, n) !in nodes + taken
    ensures forall m :: 1 <= m < n ==> SplitId(owner, m) in nodes + taken
  {
    n := 1;
    ghost var left := nodes + taken;
    while SplitId(owner, n) in nodes || SplitId(owner, n) in taken
      invariant n >= 1 && left <= nodes + taken
      invariant forall m :: 1 <= m < n ==> SplitId(owner, m) in nodes + taken
      invariant forall m :: m >= n && SplitId(owner, m) in nodes + taken ==> SplitId(owner, m) in left
      decreases left
    {
      forall m | m >= n + 1 && SplitId(owner, m) == SplitId(owner, n) ensures false {
        SplitIdInjective(owner, m, n);
      }
      left := left - {SplitId(owner, n)};
      n := n + 1;
    }
  }

  /** A step name can be derived for a moved access; `_split` declines when one cannot. */
  datatype Naming = Naming(operation: Option<string>, entityWords: seq<string>) {
    function Name(lower: char -> char): Option<string> {
      if entityWords == [] || operation.None? || operation.value == "" then None
      else Some((if operation.value == "query" then "list" else operation.value) + " " + Lowered(entityWords[0], lower))
    }
  }

  /** A moved access is named after its operation and the first word of its entity in lower case; a query is a
      `list`. Without an operation or an entity it has no name. */
  lemma NamesAre(operation: string, word: string, more: seq<string>, lower: char -> char)
    ensures Naming(None, [word] + more).Name(lower) == None && Naming(Some(operation), []).Name(lower) == None
    ensures Naming(Some(""), [word] + more).Name(lower) == None
    ensures Naming(Some("query"), [word] + more).Name(lower) == Some("list " + Lowered(word, lower))
    ensures operation != "" && operation != "query" ==>
              Naming(Some(operation), [word] + more).Name(lower) == Some(operation + " " + Lowered(word, lower))
  {
    assert ([word] + more)[0] == word;
    assert "list" + " " == "list ";
  }

  function Lowered(s: string, lower: char -> char): string {
    if s == [] then [] else [lower(s[0])] + Lowered(s[1..], lower)
  }

  /** The id is the owner's, `.split.` and a number. */
  ghost predicate NumberedAfter(owner: string, id: string) {
    exists n: nat :: id == owner + ".split." + Decimal(n)
  }

  /** The new steps' ids, or `None` as soon as an access has no name. */
  method MintSteps(owner: string, nodes: set<string>, extra: seq<string>, naming: string -> Naming, lower: char -> char)
    returns (ids: Option<seq<string>>)
    ensures ids.Some? <==> forall k :: 0 <= k < |extra| ==> naming(extra[k]).Name(lower).Some?
    ensures ids.Some? ==> |ids.value| == |extra| && Fresh(ids.value, nodes)
    ensures ids.Some? ==> forall k :: 0 <= k < |extra| ==> NumberedAfter(owner, ids.value[k])
  {
    var made: seq<string> := [];
    var taken: set<string> := {};
    for k := 0 to |extra|
      invariant |made| == k && forall j :: 0 <= j < k ==> NumberedAfter(owner, made[j])
      invariant |made| == k && Fresh(made, nodes) && forall id :: id in made <==> id in taken
      invariant forall j :: 0 <= j < k ==> naming(extra[j]).Name(lower).Some?
    {
      if naming(extra[k]).Name(lower).None? {
        return None;
      }
      var n := FreshId(owner, nodes, taken);
      assert NumberedAfter(owner, SplitId(owner, n));
      made := made + [SplitId(owner, n)];
      taken := taken + {SplitId(owner, n)};
    }
    ids := Some(made);
  }

  predicate Fresh(ids: seq<string>, nodes: set<string>) {
    && (forall k :: 0 <= k < |ids| ==> ids[k] !in nodes)
    && (forall j, k :: 0 <= j < k < |ids| ==> ids[j] != ids[k])
  }

  // ---- The owner's program -------------------------------------------------------------

  /** The children of an owner in execution order, and the children of the steps among them. */
  datatype Owner = Owner(order: seq<string>, steps: map<string, seq<string>>)

  function ItemEffects(id: string, steps: map<string, seq<string>>): seq<string> {
    if id in steps then steps[id] else [id]
  }

  /** What runs, in order; a child that is no step counts as itself. */
  function Program(order: seq<string>, steps: map<string, seq<string>>): seq<string> {
    if order == [] then [] else ItemEffects(order[0], steps) + Program(order[1..], steps)
  }

  function NewSteps(ids: seq<string>, extra: seq<string>, steps: map<string, seq<string>>): map<string, seq<string>>
    requires |ids| == |extra|
    decreases ids
  {
    if ids == [] then steps else NewSteps(ids[1..], extra[1..], steps[ids[0] := [extra[0]]])
  }

  /** The new steps go immediately after the original: `children` order is execution order. */
  function Split(o: Owner, at: nat, ids: seq<string>, isCall: string -> bool): Owner
    requires at < |o.order| && o.order[at] in o.steps && |ids| == |Extra(o.steps[o.order[at]], isCall)|
  {
    var step := o.order[at];
    var extra := Extra(o.steps[step], isCall);
    Owner(o.order[..at + 1] + ids + o.order[at + 1..],
          NewSteps(ids, extra, o.steps[step := Keep(o.steps[step], extra)]))
  }

  lemma {:induction false} ProgramConcat(a: seq<string>, b: seq<string>, steps: map<string, seq<string>>)
    ensures Program(a + b, steps) == Program(a, steps) + Program(b, steps)
  {
    if a == [] {
      assert a + b == b;
    } else {
      assert (a + b)[1..] == a[1..] + b;
      ProgramConcat(a[1..], b, steps);
      Assoc(ItemEffects(a[0], steps), Program(a[1..], steps), Program(b, steps));
    }
  }

  lemma {:induction false} ProgramSame(order: seq<string>, steps: map<string, seq<string>>,
                                       next: map<string, seq<string>>)
    requires Untouched(order, steps, next)
    ensures Program(order, steps) == Program(order, next)
  {
    if order != [] {
      ProgramSame(order[1..], steps, next);
    }
  }

  lemma {:induction false} NewStepsHold(ids: seq<string>, extra: seq<string>, steps: map<string, seq<string>>)
    requires |ids| == |extra| && forall j, k :: 0 <= j < k < |ids| ==> ids[j] != ids[k]
    ensures forall k :: 0 <= k < |ids| ==>
              ids[k] in NewSteps(ids, extra, steps) && NewSteps(ids, extra, steps)[ids[k]] == [extra[k]]
    ensures forall id :: id !in ids ==> (id in steps <==> id in NewSteps(ids, extra, steps))
    ensures forall id :: id !in ids && id in steps ==> NewSteps(ids, extra, steps)[id] == steps[id]
    decreases ids
  {
    if ids != [] {
      NewStepsHold(ids[1..], extra[1..], steps[ids[0] := [extra[0]]]);
      assert ids == [ids[0]] + ids[1..];
      assert ids[0] !in ids[1..];
    }
  }

  lemma {:induction false} ProgramOfNew(ids: seq<string>, extra: seq<string>, steps: map<string, seq<string>>)
    requires |ids| == |extra| && forall k :: 0 <= k < |ids| ==> ids[k] in steps && steps[ids[k]] == [extra[k]]
    ensures Program(ids, steps) == extra
  {
    if ids != [] {
      ProgramOfNew(ids[1..], extra[1..], steps);
    }
  }

  /** An owner with distinct children, none of them a new id. */
  predicate Splittable(o: Owner, at: nat, ids: seq<string>) {
    && at < |o.order| && o.order[at] in o.steps
    && Fresh(ids, set k | 0 <= k < |o.order| :: o.order[k])
    && forall j, k :: 0 <= j < k < |o.order| ==> o.order[j] != o.order[k]
  }

  /** What a split leaves alone: the other children, and what they do. */
  lemma SplitFrame(o: Owner, at: nat, ids: seq<string>, isCall: string -> bool)
    requires Splittable(o, at, ids) && |ids| == |Extra(o.steps[o.order[at]], isCall)|
    ensures var step, next := o.order[at], Split(o, at, ids, isCall);
            var front, back, extra := o.order[..at], o.order[at + 1..], Extra(o.steps[step], isCall);
            && o.order == (front + [step]) + back && next.order == ((front + [step]) + ids) + back
            && step in next.steps && next.steps[step] == Keep(o.steps[step], extra)
            && (forall k :: 0 <= k < |ids| ==> ids[k] in next.steps && next.steps[ids[k]] == [extra[k]])
            && Untouched(front, o.steps, next.steps) && Untouched(back, o.steps, next.steps)
  {
    hide Extra, Keep, Calls, NewSteps;
    var step := o.order[at];
    var extra := Extra(o.steps[step], isCall);
    NewStepsHold(ids, extra, o.steps[step := Keep(o.steps[step], extra)]);
    forall k | 0 <= k < |o.order| ensures o.order[k] !in ids {
      assert o.order[k] in set j | 0 <= j < |o.order| :: o.order[j];
    }
  }

  predicate Untouched(order: seq<string>, steps: map<string, seq<string>>, next: map<string, seq<string>>) {
    forall k :: 0 <= k < |order| ==>
      (order[k] in steps <==> order[k] in next) && (order[k] in steps ==> steps[order[k]] == next[order[k]])
  }

  /** The split changes the program only by rearranging the split step's own effects. */
  lemma SplitProgram(o: Owner, at: nat, ids: seq<string>, isCall: string -> bool)
    requires Splittable(o, at, ids) && |ids| == |Extra(o.steps[o.order[at]], isCall)|
    ensures var children, next := o.steps[o.order[at]], Split(o, at, ids, isCall);
            var before, after := Program(o.order[..at], o.steps), Program(o.order[at + 1..], o.steps);
            && Program(o.order, o.steps) == before + children + after
            && Program(next.order, next.steps) == before + SplitChildren(children, isCall) + after
  {
    hide Extra, Keep, Calls, Program;
    var step := o.order[at];
    var extra, next := Extra(o.steps[step], isCall), Split(o, at, ids, isCall);
    var front, back := o.order[..at], o.order[at + 1..];
    SplitFrame(o, at, ids, isCall);
    hide Split;
    ProgramSame(front, o.steps, next.steps);
    ProgramSame(back, o.steps, next.steps);
    ProgramOfNew(ids, extra, next.steps);
    OneStep(step, o.steps);
    OneStep(step, next.steps);
    ProgramConcat(front + [step], back, o.steps);
    ProgramConcat(front, [step], o.steps);
    ProgramConcat((front + [step]) + ids, back, next.steps);
    ProgramConcat(front + [step], ids, next.steps);
    ProgramConcat(front, [step], next.steps);
    Assoc(Program(front, o.steps), Keep(o.steps[step], extra), extra);
  }

  lemma OneStep(step: string, steps: map<string, seq<string>>)
    requires step in steps
    ensures Program([step], steps) == steps[step]
  {
    assert [step][1..] == [];
  }

  /** A split keeps the owner's program: the same accesses in the same order, the same effects,
      and the same effects in the same order if and only if the moved accesses come last. */
  lemma SplitKeepsProgram(o: Owner, at: nat, ids: seq<string>, isCall: string -> bool)
    requires Splittable(o, at, ids) && |ids| == |Extra(o.steps[o.order[at]], isCall)|
    requires FirstOwnedOnce(o.steps[o.order[at]], isCall)
    ensures (var next, children := Split(o, at, ids, isCall), o.steps[o.order[at]];
             var extra := Extra(children, isCall);
             && Calls(Program(next.order, next.steps), isCall) == Calls(Program(o.order, o.steps), isCall)
             && multiset(Program(next.order, next.steps)) == multiset(Program(o.order, o.steps))
             && (Program(next.order, next.steps) == Program(o.order, o.steps)
                 <==> |extra| <= |children| && children[|children| - |extra|..] == extra))
  {
    hide Calls, Extra, Program, FirstOwnedOnce, SplitChildren, Split;
    var next, children := Split(o, at, ids, isCall), o.steps[o.order[at]];
    var before, after := Program(o.order[..at], o.steps), Program(o.order[at + 1..], o.steps);
    var moved := SplitChildren(children, isCall);
    SplitProgram(o, at, ids, isCall);
    SplitKeepsCalls(children, isCall);
    SplitKeepsEffectsExactly(children, isCall);
    SplitKeepsOrderExactly(children, isCall);
    CallsConcat(before + children, after, isCall);
    CallsConcat(before, children, isCall);
    CallsConcat(before + moved, after, isCall);
    CallsConcat(before, moved, isCall);
    MiddleSame(before, children, moved, after);
  }

  lemma MiddleSame<T>(before: seq<T>, a: seq<T>, b: seq<T>, after: seq<T>)
    ensures multiset(a) == multiset(b) ==> multiset(before + a + after) == multiset(before + b + after)
    ensures before + a + after == before + b + after <==> a == b
  {
    if before + a + after == before + b + after {
      assert |a| == |b|;
      assert a == (before + a + after)[|before|..|before| + |a|];
      assert b == (before + b + after)[|before|..|before| + |b|];
    }
  }

  // ---- Termination ---------------------------------------------------------------------

  function ExtraCount(children: seq<string>, isCall: string -> bool): nat {
    |Extra(children, isCall)|
  }

  /** The accesses that are still to be moved out of some step. */
  function TotalExtra(order: seq<string>, steps: map<string, seq<string>>, isCall: string -> bool): nat {
    if order == [] then 0
    else (if order[0] in steps then ExtraCount(steps[order[0]], isCall) else 0) + TotalExtra(order[1..], steps, isCall)
  }

  lemma {:induction false} TotalConcat(a: seq<string>, b: seq<string>, steps: map<string, seq<string>>,
                                       isCall: string -> bool)
    ensures TotalExtra(a + b, steps, isCall) == TotalExtra(a, steps, isCall) + TotalExtra(b, steps, isCall)
  {
    hide ExtraCount;
    if a == [] {
      assert a + b == b;
    } else {
      assert (a + b)[1..] == a[1..] + b;
      TotalConcat(a[1..], b, steps, isCall);
    }
  }

  lemma {:induction false} TotalSame(order: seq<string>, steps: map<string, seq<string>>,
                                     next: map<string, seq<string>>, isCall: string -> bool)
    requires Untouched(order, steps, next)
    ensures TotalExtra(order, steps, isCall) == TotalExtra(order, next, isCall)
  {
    hide ExtraCount;
    if order != [] {
      TotalSame(order[1..], steps, next, isCall);
    }
  }

  lemma {:induction false} TotalOfNew(ids: seq<string>, extra: seq<string>, steps: map<string, seq<string>>,
                                      isCall: string -> bool)
    requires |ids| == |extra| && forall k :: 0 <= k < |ids| ==> ids[k] in steps && steps[ids[k]] == [extra[k]]
    ensures TotalExtra(ids, steps, isCall) == 0
  {
    if ids != [] {
      TotalOfNew(ids[1..], extra[1..], steps, isCall);
      assert |Calls([extra[0]], isCall)| <= 1;
    }
  }

  lemma KeptCount(children: seq<string>, isCall: string -> bool)
    requires FirstOwnedOnce(children, isCall)
    ensures ExtraCount(Keep(children, Extra(children, isCall)), isCall) == 0
  {
    hide Calls, Keep;
    FirstCallKept(children, isCall);
  }

  /** Splitting again and again ends: the accesses still to be moved strictly fall. */
  lemma SplitLowersExtra(o: Owner, at: nat, ids: seq<string>, isCall: string -> bool)
    requires Splittable(o, at, ids) && |ids| == |Extra(o.steps[o.order[at]], isCall)|
    requires FirstOwnedOnce(o.steps[o.order[at]], isCall)
    ensures var next := Split(o, at, ids, isCall);
            TotalExtra(next.order, next.steps, isCall) + |ids| == TotalExtra(o.order, o.steps, isCall)
  {
    hide Calls, Keep, Extra, ExtraCount, FirstOwnedOnce, TotalExtra;
    var step := o.order[at];
    var extra, next := Extra(o.steps[step], isCall), Split(o, at, ids, isCall);
    var front, back := o.order[..at], o.order[at + 1..];
    SplitFrame(o, at, ids, isCall);
    hide Split;
    KeptCount(o.steps[step], isCall);
    CountIs(o.steps[step], isCall);
    TotalSame(front, o.steps, next.steps, isCall);
    TotalSame(back, o.steps, next.steps, isCall);
    TotalOfNew(ids, extra, next.steps, isCall);
    OneTotal(step, o.steps, isCall);
    OneTotal(step, next.steps, isCall);
    TotalConcat(front + [step], back, o.steps, isCall);
    TotalConcat(front, [step], o.steps, isCall);
    TotalConcat((front + [step]) + ids, back, next.steps, isCall);
    TotalConcat(front + [step], ids, next.steps, isCall);
    TotalConcat(front, [step], next.steps, isCall);
  }

  lemma CountIs(children: seq<string>, isCall: string -> bool)
    ensures ExtraCount(children, isCall) == |Extra(children, isCall)|
  {
  }

  lemma OneTotal(step: string, steps: map<string, seq<string>>, isCall: string -> bool)
    requires step in steps
    ensures TotalExtra([step], steps, isCall) == ExtraCount(steps[step], isCall)
  {
    assert [step][1..] == [];
  }
}
