/** Workflows as the compiler reads them: the flat node table, the body it spells out, and the
    flattened, unrolled step list (`_steps_in_order` in `impl/lnpl/backend.py`). */
module Workflow {
  import opened Wrappers

  const UNTIL_ROUND_CAP: nat := 16

  datatype RepositoryOp = Read | Query | Create | Update | Delete

  datatype CacheOp = Get | Set | Invalidate

  /** The effects a step owns. `rejects` says whether the run's payload fails the validation;
      both modes ask the same validator. An assignment writes the bound row of its entity back. */
  datatype Effect =
    | RepositoryCall(op: RepositoryOp, entity: string)
    | CacheAccess(cache: CacheOp)
    | Validation(rejects: bool)
    | Assignment(entity: string, field: string)
    | NetworkCall(target: string)
    | EventEmit(event: string)
    | OtherEffect(name: string)
  {
    function Kind(): string {
      match this
      case RepositoryCall(_, _) => "RepositoryCall"
      case CacheAccess(_) => "CacheAccess"
      case Validation(_) => "Validation"
      case Assignment(_, _) => "Assignment"
      case NetworkCall(_) => "NetworkCall"
      case EventEmit(_) => "EventEmit"
      case OtherEffect(name) => name
    }
  }

  function Kinds(effects: seq<Effect>): (kinds: seq<string>)
    ensures |kinds| == |effects|
  {
    if effects == [] then [] else [effects[0].Kind()] + Kinds(effects[1..])
  }

  datatype Step = Step(id: string, name: string, effects: seq<Effect>)

  datatype GuardMode = When | Until

  // The runtime guard of a flattened step.
  datatype Guard = Guard(mode: GuardMode, condition: string, alternatives: seq<string>)

  /** What a guarded step is compared on: the condition and its alternatives joined by `or`. */
  function GuardTexts(g: Guard): seq<string> {
    if g.mode.When? then [g.condition] + g.alternatives else [g.condition]
  }

  // ---- The node table ------------------------------------------------------------------

  datatype Node =
    | StepNode(name: string, effects: seq<Effect>)
    | ConcurrencyNode(children: seq<string>)
    | PipelineNode(children: seq<string>)
    | RepeatNode(count: int, children: seq<string>)
    | WhenNode(condition: string, alternatives: seq<string>, children: seq<string>)
    | UntilNode(condition: string, children: seq<string>)
    | UnknownGuardNode(children: seq<string>)
    | OtherNode
  {
    function Children(): seq<string> {
      match this
      case StepNode(_, _) => []
      case OtherNode => []
      case _ => children
    }
  }

  type Table = map<string, Node>

  // A dangling id, an unknown guard mode, and a node kind a body cannot hold.
  datatype BuildError = DanglingId | UnknownGuardMode | CannotContain

  /** A rank that falls from every node to its children: the table has no cycle. */
  ghost predicate Ranked(nodes: Table, rank: map<string, nat>) {
    nodes.Keys <= rank.Keys
    && forall id :: id in nodes ==> Below(nodes, rank, nodes[id].Children(), rank[id])
  }

  ghost predicate Below(nodes: Table, rank: map<string, nat>, ids: seq<string>, bound: nat) {
    forall k :: 0 <= k < |ids| ==> ids[k] in nodes ==> ids[k] in rank && rank[ids[k]] < bound
  }

  // ---- Bodies --------------------------------------------------------------------------

  /** A workflow body, as the list of its items. */
  datatype Body =
    | Done
    | StepItem(step: Step, rest: Body)
    | GroupItem(kids: Body, rest: Body)
    | ParallelItem(kids: Body, rest: Body)
    | RepeatItem(count: nat, kids: Body, rest: Body)
    | GuardItem(guard: Guard, kids: Body, rest: Body)

  /** One item: what a single id spells out. The children of a guard repeated no time are never
      read. */
  function UnfoldNode(nodes: Table, ghost rank: map<string, nat>, id: string): (r: Result<Body, BuildError>)
    requires Ranked(nodes, rank)
    ensures r.Success? ==> !r.value.Done? && r.value.rest == Done
    decreases if id in nodes then 2 * rank[id] + 1 else 0, 0, 0
  {
    if id !in nodes then Failure(DanglingId)
    else
      assert Below(nodes, rank, nodes[id].Children(), rank[id]);
      match nodes[id]
      case OtherNode => Failure(CannotContain)
      case UnknownGuardNode(_) => Failure(UnknownGuardMode)
      case StepNode(name, effects) => Success(StepItem(Step(id, name, effects), Done))
      case ConcurrencyNode(children) =>
        var kids :- Unfold(nodes, rank, rank[id], children);
        Success(ParallelItem(kids, Done))
      case PipelineNode(children) =>
        var kids :- Unfold(nodes, rank, rank[id], children);
        Success(GroupItem(kids, Done))
      case RepeatNode(count, children) =>
        if count <= 0 then Success(RepeatItem(0, Done, Done))
        else
          var kids :- Unfold(nodes, rank, rank[id], children);
          Success(RepeatItem(count, kids, Done))
      case WhenNode(condition, alternatives, children) =>
        var kids :- Unfold(nodes, rank, rank[id], children);
        Success(GuardItem(Guard(When, condition, alternatives), kids, Done))
      case UntilNode(condition, children) =>
        var kids :- Unfold(nodes, rank, rank[id], children);
        Success(GuardItem(Guard(Until, condition, []), kids, Done))
  }

  /** The body that the ids spell out, or the error that reading it raises first. */
  function Unfold(nodes: Table, ghost rank: map<string, nat>, ghost bound: nat, ids: seq<string>)
    : Result<Body, BuildError>
    requires Ranked(nodes, rank) && Below(nodes, rank, ids, bound)
    decreases 2 * bound, |ids|, 0
  {
    if ids == [] then Success(Done)
    else
      var first :- UnfoldNode(nodes, rank, ids[0]);
      var rest :- Unfold(nodes, rank, bound, ids[1..]);
      Success(first.(rest := rest))
  }

  // ---- The flattened list --------------------------------------------------------------

  datatype Flat = Flat(step: Step, guard: Option<Guard>)

  function Times<T>(xs: seq<T>, n: nat): seq<T> {
    if n == 0 then [] else Times(xs, n - 1) + xs
  }

  /** Every entry under the guard `g`, whatever guard it had before. */
  function Tag(flats: seq<Flat>, g: Guard): (out: seq<Flat>)
    ensures |out| == |flats|
    ensures forall k :: 0 <= k < |flats| ==> out[k] == Flat(flats[k].step, Some(g))
  {
    if flats == [] then [] else [Flat(flats[0].step, Some(g))] + Tag(flats[1..], g)
  }

  function GuardCopies(g: Guard): nat {
    if g.mode.When? then 1 else UNTIL_ROUND_CAP
  }

  function Flatten(body: Body): seq<Flat> {
    match body
    case Done => []
    case StepItem(step, rest) => [Flat(step, None)] + Flatten(rest)
    case GroupItem(kids, rest) => Flatten(kids) + Flatten(rest)
    case ParallelItem(kids, rest) => Flatten(kids) + Flatten(rest)
    case RepeatItem(count, kids, rest) => Times(Flatten(kids), count) + Flatten(rest)
    case GuardItem(g, kids, rest) => Times(Tag(Flatten(kids), g), GuardCopies(g)) + Flatten(rest)
  }

  /** Every step of a body in written order, as if each guard were taken. */
  function AllSteps(body: Body): seq<Step> {
    match body
    case Done => []
    case StepItem(step, rest) => [step] + AllSteps(rest)
    case GroupItem(kids, rest) => AllSteps(kids) + AllSteps(rest)
    case ParallelItem(kids, rest) => AllSteps(kids) + AllSteps(rest)
    case RepeatItem(count, kids, rest) => Times(AllSteps(kids), count) + AllSteps(rest)
    case GuardItem(g, kids, rest) => Times(AllSteps(kids), GuardCopies(g)) + AllSteps(rest)
  }

  lemma FlattenSplits(body: Body)
    requires !body.Done?
    ensures Flatten(body) == Flatten(FirstItem(body)) + Flatten(body.rest)
  {
  }

  /** A body of the first item alone. */
  function FirstItem(body: Body): Body
    requires !body.Done?
  {
    body.(rest := Done)
  }

  // ---- The list, read off the table ----------------------------------------------------

  function Again<T>(n: nat, xs: seq<T>): seq<T> {
    if n == 0 then [] else xs + Again(n - 1, xs)
  }

  /** Every entry's step, under the given guard. */
  function Under(inner: seq<Flat>, mode: GuardMode, condition: string, alternatives: seq<string>): seq<Flat> {
    seq(|inner|, k requires 0 <= k < |inner| => Flat(inner[k].step, Some(Guard(mode, condition, alternatives))))
  }

  /** The list a node adds: a step itself, the children of a block in order, those of a repetition as often
      as it says, those of `when` under its condition and its alternatives, and sixteen rounds of those of
      `until` under its condition. */
  function PlannedAt(nodes: Table, ghost rank: map<string, nat>, id: string): seq<Flat>
    requires Ranked(nodes, rank)
    decreases if id in nodes then 2 * rank[id] + 1 else 0, 0, 0
  {
    if id !in nodes then []
    else
      assert Below(nodes, rank, nodes[id].Children(), rank[id]);
      match nodes[id]
      case StepNode(name, effects) => [Flat(Step(id, name, effects), None)]
      case ConcurrencyNode(children) => Planned(nodes, rank, rank[id], children)
      case PipelineNode(children) => Planned(nodes, rank, rank[id], children)
      case RepeatNode(count, children) =>
        if count <= 0 then [] else Again(count, Planned(nodes, rank, rank[id], children))
      case WhenNode(condition, alternatives, children) =>
        Under(Planned(nodes, rank, rank[id], children), When, condition, alternatives)
      case UntilNode(condition, children) =>
        Again(16, Under(Planned(nodes, rank, rank[id], children), Until, condition, []))
      case _ => []
  }

  function Planned(nodes: Table, ghost rank: map<string, nat>, ghost bound: nat, ids: seq<string>): seq<Flat>
    requires Ranked(nodes, rank) && Below(nodes, rank, ids, bound)
    decreases 2 * bound, |ids|, 0
  {
    if ids == [] then [] else PlannedAt(nodes, rank, ids[0]) + Planned(nodes, rank, bound, ids[1..])
  }

  /** The walk meets no id that is missing, no mode it does not know and no kind that cannot stand in a
      body. Nothing under a repetition of no rounds is looked at. */
  predicate ReadableAt(nodes: Table, ghost rank: map<string, nat>, id: string)
    requires Ranked(nodes, rank)
    decreases if id in nodes then 2 * rank[id] + 1 else 0, 0, 0
  {
    && id in nodes
    && !nodes[id].OtherNode? && !nodes[id].UnknownGuardNode?
    && (nodes[id].StepNode? || (nodes[id].RepeatNode? && nodes[id].count <= 0)
        || (assert Below(nodes, rank, nodes[id].Children(), rank[id]);
            Readable(nodes, rank, rank[id], nodes[id].Children())))
  }

  predicate Readable(nodes: Table, ghost rank: map<string, nat>, ghost bound: nat, ids: seq<string>)
    requires Ranked(nodes, rank) && Below(nodes, rank, ids, bound)
    decreases 2 * bound, |ids|, 0
  {
    ids == [] || (ReadableAt(nodes, rank, ids[0]) && Readable(nodes, rank, bound, ids[1..]))
  }

  lemma {:induction false} AgainIsTimes<T>(n: nat, xs: seq<T>)
    ensures Again(n, xs) == Times(xs, n)
    ensures xs + Times(xs, n) == Times(xs, n) + xs
  {
    if n > 0 {
      AgainIsTimes(n - 1, xs);
      assert (xs + Times(xs, n - 1)) + xs == xs + (Times(xs, n - 1) + xs);
    }
  }

  lemma UnderIsTag(inner: seq<Flat>, g: Guard)
    ensures Under(inner, g.mode, g.condition, g.alternatives) == Tag(inner, g)
  {
  }

  lemma UnfoldsInto(nodes: Table, rank: map<string, nat>, bound: nat, ids: seq<string>)
    requires Ranked(nodes, rank) && Below(nodes, rank, ids, bound) && ids != []
    requires Unfold(nodes, rank, bound, ids).Success?
    ensures var first, rest := UnfoldNode(nodes, rank, ids[0]), Unfold(nodes, rank, bound, ids[1..]);
            first.Success? && rest.Success?
            && Flatten(Unfold(nodes, rank, bound, ids).value) == Flatten(first.value) + Flatten(rest.value)
  {
    hide UnfoldNode, Flatten;
    AppendRest([], UnfoldNode(nodes, rank, ids[0]).value, Unfold(nodes, rank, bound, ids[1..]).value);
    var a, b := Flatten(UnfoldNode(nodes, rank, ids[0]).value), Flatten(Unfold(nodes, rank, bound, ids[1..]).value);
    assert ([] + a) + b == a + b;
  }

  lemma {:induction false} PlannedAtIsFlat(nodes: Table, rank: map<string, nat>, id: string)
    requires Ranked(nodes, rank)
    ensures UnfoldNode(nodes, rank, id).Success? <==> ReadableAt(nodes, rank, id)
    ensures UnfoldNode(nodes, rank, id).Success?
            ==> PlannedAt(nodes, rank, id) == Flatten(UnfoldNode(nodes, rank, id).value)
    decreases if id in nodes then 2 * rank[id] + 1 else 0, 0, 0
  {
    if id in nodes {
      assert Below(nodes, rank, nodes[id].Children(), rank[id]);
      PlannedIsFlat(nodes, rank, rank[id], nodes[id].Children());
      hide Readable, Planned, Unfold;
      var inner := Planned(nodes, rank, rank[id], nodes[id].Children());
      match nodes[id] {
        case RepeatNode(count, children) =>
          if count > 0 {
            AgainIsTimes(count, inner);
          }
        case WhenNode(condition, alternatives, children) =>
          UnderIsTag(inner, Guard(When, condition, alternatives));
          AgainIsTimes(1, Tag(inner, Guard(When, condition, alternatives)));
        case UntilNode(condition, children) =>
          UnderIsTag(inner, Guard(Until, condition, []));
          AgainIsTimes(16, Tag(inner, Guard(Until, condition, [])));
        case _ =>
      }
    }
  }

  /** What a body flattens to is the list read off the table, and there is a body exactly if the walk can
      read everything it meets. */
  lemma {:induction false} PlannedIsFlat(nodes: Table, rank: map<string, nat>, bound: nat, ids: seq<string>)
    requires Ranked(nodes, rank) && Below(nodes, rank, ids, bound)
    ensures Unfold(nodes, rank, bound, ids).Success? <==> Readable(nodes, rank, bound, ids)
    ensures Unfold(nodes, rank, bound, ids).Success?
            ==> Planned(nodes, rank, bound, ids) == Flatten(Unfold(nodes, rank, bound, ids).value)
    decreases 2 * bound, |ids|, 0
  {
    if ids != [] {
      PlannedAtIsFlat(nodes, rank, ids[0]);
      PlannedIsFlat(nodes, rank, bound, ids[1..]);
      hide ReadableAt, PlannedAt, UnfoldNode, Flatten;
      if Unfold(nodes, rank, bound, ids).Success? {
        UnfoldsInto(nodes, rank, bound, ids);
      }
    }
  }

  // ---- The walk over the table ---------------------------------------------------------

  class PlanList {
    var items: seq<Flat>

    constructor ()
      ensures items == []
    {
      items := [];
    }

    method Append(entry: Flat)
      modifies this
      ensures items == old(items) + [entry]
    {
      items := items + [entry];
    }
  }

  method TagInto(inner: seq<Flat>, g: Guard, out: PlanList)
    modifies out
    ensures out.items == old(out.items) + Tag(inner, g)
  {
    hide Tag;
    ghost var before := out.items;
    for k := 0 to |inner|
      invariant out.items == before + Tag(inner, g)[..k]
    {
      out.Append(Flat(inner[k].step, Some(g)));
      assert Tag(inner, g)[..k + 1] == Tag(inner, g)[..k] + [Tag(inner, g)[k]];
    }
    assert Tag(inner, g)[..|inner|] == Tag(inner, g);
  }

  lemma AppendTimes<T>(before: seq<T>, xs: seq<T>, n: nat)
    ensures (before + Times(xs, n)) + xs == before + Times(xs, n + 1)
  {
  }

  lemma AppendRest(before: seq<Flat>, first: Body, rest: Body)
    requires !first.Done? && first.rest == Done
    ensures (before + Flatten(first)) + Flatten(rest) == before + Flatten(first.(rest := rest))
  {
    var body := first.(rest := rest);
    FlattenSplits(body);
    assert FirstItem(body) == first;
  }

  /** `_steps_in_order`: appends to the shared list `out` what the body flattens to. When the
      walk raises, what it appended so far is of no use to anyone. */
  method StepsInOrder(nodes: Table, ghost rank: map<string, nat>, ghost bound: nat, ids: seq<string>, out: PlanList)
    returns (raised: Option<BuildError>)
    requires Ranked(nodes, rank) && Below(nodes, rank, ids, bound)
    modifies out
    ensures match Unfold(nodes, rank, bound, ids)
            case Success(body) => raised == None && out.items == old(out.items) + Flatten(body)
            case Failure(error) => raised == Some(error)
    ensures raised == None <==> Readable(nodes, rank, bound, ids)
    ensures raised == None ==> out.items == old(out.items) + Planned(nodes, rank, bound, ids)
    decreases 2 * bound, |ids|, 0
  {
    PlannedIsFlat(nodes, rank, bound, ids);
    hide Planned, Readable;
    if ids == [] {
      return None;
    }
    ghost var before := out.items;
    raised := VisitNode(nodes, rank, ids[0], out);
    if raised.None? {
      raised := StepsInOrder(nodes, rank, bound, ids[1..], out);
      if raised.None? {
        AppendRest(before, UnfoldNode(nodes, rank, ids[0]).value, Unfold(nodes, rank, bound, ids[1..]).value);
      }
    }
  }

  method VisitNode(nodes: Table, ghost rank: map<string, nat>, id: string, out: PlanList)
    returns (raised: Option<BuildError>)
    requires Ranked(nodes, rank)
    modifies out
    ensures match UnfoldNode(nodes, rank, id)
            case Success(body) => raised == None && out.items == old(out.items) + Flatten(body)
            case Failure(error) => raised == Some(error)
    ensures id !in nodes ==> raised == Some(DanglingId)
    ensures id in nodes && nodes[id].OtherNode? ==> raised == Some(CannotContain)
    ensures id in nodes && nodes[id].UnknownGuardNode? ==> raised == Some(UnknownGuardMode)
    decreases if id in nodes then 2 * rank[id] + 1 else 0, 0, 0
  {
    if id !in nodes {
      return Some(DanglingId);
    }
    assert Below(nodes, rank, nodes[id].Children(), rank[id]);
    match nodes[id] {
      case OtherNode =>
        raised := Some(CannotContain);
      case UnknownGuardNode(_) =>
        raised := Some(UnknownGuardMode);
      case StepNode(name, effects) =>
        out.Append(Flat(Step(id, name, effects), None));
        raised := None;
      case ConcurrencyNode(children) =>
        raised := StepsInOrder(nodes, rank, rank[id], children, out);
      case PipelineNode(children) =>
        raised := StepsInOrder(nodes, rank, rank[id], children, out);
      case RepeatNode(count, children) =>
        raised := VisitRepeat(nodes, rank, rank[id], count, children, out);
      case WhenNode(condition, alternatives, children) =>
        raised := VisitGuarded(nodes, rank, rank[id], Guard(When, condition, alternatives), children, out);
      case UntilNode(condition, children) =>
        raised := VisitGuarded(nodes, rank, rank[id], Guard(Until, condition, []), children, out);
    }
  }

  method VisitGuarded(nodes: Table, ghost rank: map<string, nat>, ghost bound: nat, g: Guard, ids: seq<string>,
                      out: PlanList)
    returns (raised: Option<BuildError>)
    requires Ranked(nodes, rank) && Below(nodes, rank, ids, bound)
    modifies out
    ensures match Unfold(nodes, rank, bound, ids)
            case Success(kids) => raised == None && out.items == old(out.items) + Flatten(GuardItem(g, kids, Done))
            case Failure(error) => raised == Some(error)
    decreases 2 * bound, |ids|, 1
  {
    var inner := new PlanList();
    raised := StepsInOrder(nodes, rank, bound, ids, inner);
    if raised.None? {
      ghost var kids := Unfold(nodes, rank, bound, ids).value;
      assert inner.items == Flatten(kids);
      TagRounds(inner.items, g, GuardCopies(g), out);
      assert Flatten(GuardItem(g, kids, Done)) == Times(Tag(Flatten(kids), g), GuardCopies(g));
    }
  }

  method TagRounds(inner: seq<Flat>, g: Guard, rounds: nat, out: PlanList)
    modifies out
    ensures out.items == old(out.items) + Times(Tag(inner, g), rounds)
  {
    ghost var before := out.items;
    for k := 0 to rounds
      invariant out.items == before + Times(Tag(inner, g), k)
    {
      TagInto(inner, g, out);
      AppendTimes(before, Tag(inner, g), k);
    }
  }

  method VisitRepeat(nodes: Table, ghost rank: map<string, nat>, ghost bound: nat, count: int, ids: seq<string>,
                     out: PlanList)
    returns (raised: Option<BuildError>)
    requires Ranked(nodes, rank) && Below(nodes, rank, ids, bound)
    modifies out
    ensures count <= 0 ==> raised == None && out.items == old(out.items)
    ensures count > 0 ==> match Unfold(nodes, rank, bound, ids)
                          case Success(kids) =>
                            raised == None && out.items == old(out.items) + Flatten(RepeatItem(count, kids, Done))
                          case Failure(error) => raised == Some(error)
    decreases 2 * bound, |ids|, 1
  {
    raised := None;
    ghost var before := out.items;
    var n := 0;
    while n < count
      invariant 0 <= n && (if count > 0 then n <= count else n == 0) && raised == None
      invariant n == 0 ==> out.items == before
      invariant n > 0 ==> Unfold(nodes, rank, bound, ids).Success?
      invariant n > 0 ==> out.items == before + Times(Flatten(Unfold(nodes, rank, bound, ids).value), n)
    {
      raised := StepsInOrder(nodes, rank, bound, ids, out);
      if raised.Some? {
        return;
      }
      ghost var flats := Flatten(Unfold(nodes, rank, bound, ids).value);
      AppendTimes(before, flats, n);
      n := n + 1;
    }
  }
}
