/** Mode A straight on the node table, as `_flatten_items` in `impl/lnpl/interp.py` reads it: ids in order,
    a guard's texts, its rounds and its record, with no body in between. */
module TableWalk {
  import opened Wrappers
  import opened Text
  import opened Evaluation
  import opened ConditionSyntax
  import opened Workflow
  import opened Attempts
  import opened Blocks
  import opened Interp
  import opened Ownership
  import opened GuardMeaning

  /** The steps that the ids name. */
  function StepsAt(nodes: Table, ids: seq<string>): seq<Step> {
    if ids == [] then []
    else
      (if ids[0] in nodes && nodes[ids[0]].StepNode?
       then [Step(ids[0], nodes[ids[0]].name, nodes[ids[0]].effects)] else [])
      + StepsAt(nodes, ids[1..])
  }

  /** `_guarded_step_names`: the names of the steps under the ids, in order. */
  function NamesUnder(nodes: Table, ghost rank: map<string, nat>, ghost bound: nat, ids: seq<string>): seq<string>
    requires Ranked(nodes, rank) && Below(nodes, rank, ids, bound)
    decreases bound, |ids|
  {
    if ids == [] then []
    else
      var own :=
        if ids[0] !in nodes then []
        else if nodes[ids[0]].StepNode? then [nodes[ids[0]].name]
        else
          assert Below(nodes, rank, nodes[ids[0]].Children(), rank[ids[0]]);
          NamesUnder(nodes, rank, rank[ids[0]], nodes[ids[0]].Children());
      own + NamesUnder(nodes, rank, bound, ids[1..])
  }

  function Front(ids: seq<string>): seq<string> {
    if ids == [] then [] else ids[..1]
  }

  /** The record of a guard that did not take its item. */
  function Left(nodes: Table, ghost rank: map<string, nat>, ghost bound: nat, mode: GuardMode, texts: seq<string>,
                children: seq<string>, rounds: Option<nat>)
    : SkipRecord
    requires Ranked(nodes, rank) && Below(nodes, rank, children, bound)
  {
    SkipRecord(mode, Join(texts, " or "), NamesUnder(nodes, rank, bound, Front(children)), rounds)
  }

  /** The walk over the ids: it stops as soon as the run has failed or raised. */
  function Walk(nodes: Table, ghost rank: map<string, nat>, ghost bound: nat, ids: seq<string>, inp: Inputs, run: Run)
    : Run
    requires Ranked(nodes, rank) && Below(nodes, rank, ids, bound)
    decreases 2 * bound, |ids|, 0
  {
    if ids == [] || !run.status.Completed? then run
    else Walk(nodes, rank, bound, ids[1..], inp, Visit(nodes, rank, ids[0], inp, run))
  }

  /** One id. Every text of a `when` is evaluated, its condition and its alternatives; any that holds takes
      the first child, and any that faults ends the run. */
  function Visit(nodes: Table, ghost rank: map<string, nat>, id: string, inp: Inputs, run: Run): Run
    requires Ranked(nodes, rank)
    decreases if id in nodes then 2 * rank[id] + 1 else 0, 0, 0
  {
    if id !in nodes then run.(status := Raised)
    else
      assert Below(nodes, rank, nodes[id].Children(), rank[id]);
      match nodes[id]
      case StepNode(name, effects) => RunStep(Step(id, name, effects), inp.cfg, run)
      case ConcurrencyNode(children) => RunParallel(StepsAt(nodes, children), inp, run)
      case PipelineNode(children) => Walk(nodes, rank, rank[id], children, inp, run)
      case RepeatNode(count, children) =>
        if count <= 0 then run else WalkTimes(nodes, rank, rank[id], children, count, inp, run)
      case WhenNode(condition, alternatives, children) =>
        var texts := [condition] + alternatives;
        if exists k :: 0 <= k < |texts| && TextVerdict(inp.u, texts[k], inp.scope) == GuardFault then
          run.(status := Raised)
        else if exists k :: 0 <= k < |texts| && TextVerdict(inp.u, texts[k], inp.scope) == Holds(true) then
          Walk(nodes, rank, rank[id], Front(children), inp, run)
        else run.(skips := run.skips + [Left(nodes, rank, rank[id], When, texts, children, None)])
      case UntilNode(condition, children) =>
        WalkUntil(nodes, rank, rank[id], condition, children, run.now, 0, inp, run)
      case UnknownGuardNode(_) => run.(status := Raised)
      case OtherNode => run.(status := Raised)
  }

  function WalkTimes(nodes: Table, ghost rank: map<string, nat>, ghost bound: nat, ids: seq<string>, count: nat,
                     inp: Inputs, run: Run)
    : Run
    requires Ranked(nodes, rank) && Below(nodes, rank, ids, bound)
    decreases 2 * bound, |ids| + 1, count
  {
    if count == 0 then run
    else WalkTimes(nodes, rank, bound, ids, count - 1, inp, Walk(nodes, rank, bound, ids, inp, run))
  }

  /** The rounds of an `until` that started at `start`: as long as its condition is false, sixteen at most
      and none from its own deadline on. A loop without a round leaves a record. */
  function WalkUntil(nodes: Table, ghost rank: map<string, nat>, ghost bound: nat, condition: string,
                     children: seq<string>, start: nat, rounds: nat, inp: Inputs, run: Run)
    : Run
    requires Ranked(nodes, rank) && Below(nodes, rank, children, bound) && rounds <= 16
    decreases 2 * bound, |children| + 1, 16 - rounds
  {
    if !run.status.Completed? then run
    else if TextVerdict(inp.u, condition, inp.scope) == GuardFault then run.(status := Raised)
    else if TextVerdict(inp.u, condition, inp.scope) == Holds(true) || rounds == 16
            || (inp.cfg.timeout.Some? && run.now >= start + inp.cfg.timeout.value) then
      if rounds > 0 then run
      else run.(skips := run.skips + [Left(nodes, rank, bound, Until, [condition], children, Some(0))])
    else
      WalkUntil(nodes, rank, bound, condition, children, start, rounds + 1, inp,
                Walk(nodes, rank, bound, children, inp, run))
  }

  // ---- The body gives the same run -----------------------------------------------------

  ghost predicate SomeText(u: CharClass, texts: seq<string>, scope: Scope, v: Verdict) {
    exists k :: 0 <= k < |texts| && TextVerdict(u, texts[k], scope) == v
  }

  lemma SomeOfFirst(u: CharClass, texts: seq<string>, scope: Scope, v: Verdict)
    requires texts != []
    ensures SomeText(u, texts, scope, v) <==> TextVerdict(u, texts[0], scope) == v || SomeText(u, texts[1..], scope, v)
  {
    hide TextVerdict;
    var rest := texts[1..];
    if SomeText(u, rest, scope, v) {
      var k :| 0 <= k < |rest| && TextVerdict(u, rest[k], scope) == v;
      assert texts[k + 1] == rest[k];
    }
    if SomeText(u, texts, scope, v) && TextVerdict(u, texts[0], scope) != v {
      var k :| 0 <= k < |texts| && TextVerdict(u, texts[k], scope) == v;
      assert rest[k - 1] == texts[k];
    }
  }

  /** A guard's verdict, by its texts. */
  lemma {:induction false} VerdictOfTexts(u: CharClass, texts: seq<string>, scope: Scope)
    ensures TextsVerdict(u, texts, scope) == GuardFault <==> SomeText(u, texts, scope, GuardFault)
    ensures TextsVerdict(u, texts, scope) == Holds(true)
       <==> TextsVerdict(u, texts, scope) != GuardFault && SomeText(u, texts, scope, Holds(true))
  {
    hide TextVerdict;
    if texts != [] {
      hide SomeText;
      VerdictOfTexts(u, texts[1..], scope);
      SomeOfFirst(u, texts, scope, GuardFault);
      SomeOfFirst(u, texts, scope, Holds(true));
    }
  }

  lemma ChildrenAllowed(nodes: Table, ids: seq<string>, id: string)
    requires KindsAllowed(nodes, ids) && id in nodes
    ensures KindsAllowed(nodes, nodes[id].Children())
    ensures IsGuard(nodes[id]) ==> |nodes[id].Children()| == 1 && ItemsOnly(nodes, nodes[id].Children())
    ensures IsItem(nodes[id]) ==> ListsSteps(nodes, nodes[id].Children())
  {
    assert OwnsAllowed(nodes, id);
  }

  predicate ItemsOnly(nodes: Table, ids: seq<string>) {
    forall k :: 0 <= k < |ids| && ids[k] in nodes ==> IsItem(nodes[ids[k]])
  }

  predicate ListsSteps(nodes: Table, ids: seq<string>) {
    forall k :: 0 <= k < |ids| && ids[k] in nodes ==> nodes[ids[k]].StepNode?
  }

  lemma {:induction false} StepsListed(nodes: Table, rank: map<string, nat>, bound: nat, ids: seq<string>)
    requires Ranked(nodes, rank) && Below(nodes, rank, ids, bound) && ListsSteps(nodes, ids)
    requires Unfold(nodes, rank, bound, ids).Success?
    ensures AllSteps(Unfold(nodes, rank, bound, ids).value) == StepsAt(nodes, ids)
    ensures StepNames(Unfold(nodes, rank, bound, ids).value) == NamesUnder(nodes, rank, bound, ids)
    decreases |ids|
  {
    if ids != [] {
      assert ids[0] in nodes;
      StepsListed(nodes, rank, bound, ids[1..]);
    }
  }

  lemma {:induction false} NamesListed(nodes: Table, rank: map<string, nat>, bound: nat, ids: seq<string>)
    requires Ranked(nodes, rank) && Below(nodes, rank, ids, bound) && ItemsOnly(nodes, ids) && KindsAllowed(nodes, ids)
    requires Unfold(nodes, rank, bound, ids).Success?
    ensures StepNames(Unfold(nodes, rank, bound, ids).value) == NamesUnder(nodes, rank, bound, ids)
    decreases |ids|
  {
    if ids != [] {
      var id := ids[0];
      assert id in nodes;
      assert Below(nodes, rank, nodes[id].Children(), rank[id]);
      ChildrenAllowed(nodes, ids, id);
      NamesListed(nodes, rank, bound, ids[1..]);
      if !nodes[id].StepNode? {
        StepsListed(nodes, rank, rank[id], nodes[id].Children());
      }
    }
  }

  /** A body's first item, then its rest. */
  lemma ItemThenRest(item: Body, rest: Body, inp: Inputs, run: Run)
    requires !item.Done? && item.rest == Done
    ensures RunBody(item.(rest := rest), inp, run) == RunBody(rest, inp, RunBody(item, inp, run))
  {
    hide RunStep, RunParallel, RunRepeat, RunWhen, RunUntil, AllSteps;
  }

  lemma OnlyChild(children: seq<string>)
    requires |children| == 1
    ensures Front(children) == children
  {
    assert children[..1] == children;
  }

  lemma LeftIsSkip(nodes: Table, rank: map<string, nat>, bound: nat, g: Guard, children: seq<string>, kids: Body)
    requires Ranked(nodes, rank) && Below(nodes, rank, children, bound) && |children| == 1
    requires ItemsOnly(nodes, children) && KindsAllowed(nodes, children)
    requires Unfold(nodes, rank, bound, children) == Success(kids)
    ensures SkipOf(g, kids)
         == Left(nodes, rank, bound, g.mode, if g.mode.When? then [g.condition] + g.alternatives else [g.condition],
                 children, if g.mode.When? then None else Some(0))
  {
    hide KindsAllowed, Join, StepNames, NamesUnder;
    OnlyChild(children);
    NamesListed(nodes, rank, bound, children);
  }

  lemma {:induction false} TimesRun(nodes: Table, rank: map<string, nat>, bound: nat, ids: seq<string>, count: nat,
                                    kids: Body, inp: Inputs, run: Run)
    requires Ranked(nodes, rank) && Below(nodes, rank, ids, bound) && KindsAllowed(nodes, ids)
    requires Unfold(nodes, rank, bound, ids) == Success(kids)
    ensures WalkTimes(nodes, rank, bound, ids, count, inp, run) == RunRepeat(count, kids, inp, run)
    decreases 2 * bound, |ids| + 1, count
  {
    if count > 0 {
      hide KindsAllowed, Walk, RunBody;
      WalkRuns(nodes, rank, bound, ids, inp, run);
      TimesRun(nodes, rank, bound, ids, count - 1, kids, inp, RunBody(kids, inp, run));
    }
  }

  lemma {:induction false} UntilRuns(nodes: Table, rank: map<string, nat>, bound: nat, condition: string,
                                     children: seq<string>, start: nat, rounds: nat, kids: Body, inp: Inputs, run: Run)
    requires Ranked(nodes, rank) && Below(nodes, rank, children, bound) && rounds <= 16
    requires |children| == 1 && ItemsOnly(nodes, children) && KindsAllowed(nodes, children)
    requires Unfold(nodes, rank, bound, children) == Success(kids)
    ensures WalkUntil(nodes, rank, bound, condition, children, start, rounds, inp, run)
         == RunUntil(Guard(Until, condition, []), kids, inp, start, rounds, run)
    decreases 2 * bound, |children| + 1, 16 - rounds
  {
    hide KindsAllowed, ItemsOnly, Walk, RunBody, TextVerdict, Left, SkipOf;
    var g := Guard(Until, condition, []);
    if run.status.Completed? {
      OneText(inp.u, g, inp.scope);
      LeftIsSkip(nodes, rank, bound, g, children, kids);
      if rounds < 16 {
        WalkRuns(nodes, rank, bound, children, inp, run);
        UntilRuns(nodes, rank, bound, condition, children, start, rounds + 1, kids, inp, RunBody(kids, inp, run));
      }
    }
  }

  lemma OneText(u: CharClass, g: Guard, scope: Scope)
    requires g.mode.Until?
    ensures GuardVerdict(u, g, scope) == TextVerdict(u, g.condition, scope)
  {
    hide TextVerdict;
    assert [g.condition][1..] == [];
    assert TextsVerdict(u, [], scope) == Holds(false);
  }

  lemma WhenRuns(nodes: Table, rank: map<string, nat>, id: string, kids: Body, inp: Inputs, run: Run)
    requires Ranked(nodes, rank) && id in nodes && nodes[id].WhenNode? && KindsAllowed(nodes, nodes[id].Children())
    requires |nodes[id].Children()| == 1 && ItemsOnly(nodes, nodes[id].Children())
    requires Below(nodes, rank, nodes[id].Children(), rank[id])
    requires Unfold(nodes, rank, rank[id], nodes[id].Children()) == Success(kids)
    requires Walk(nodes, rank, rank[id], nodes[id].Children(), inp, run) == RunBody(kids, inp, run)
    ensures Visit(nodes, rank, id, inp, run)
         == RunWhen(Guard(When, nodes[id].condition, nodes[id].alternatives), kids, inp, run)
  {
    hide KindsAllowed, ItemsOnly, Walk, RunBody, TextVerdict, Left, SkipOf, TextsVerdict;
    var g := Guard(When, nodes[id].condition, nodes[id].alternatives);
    OnlyChild(nodes[id].Children());
    VerdictOfTexts(inp.u, GuardTexts(g), inp.scope);
    LeftIsSkip(nodes, rank, rank[id], g, nodes[id].Children(), kids);
  }

  lemma OneItem(nodes: Table, rank: map<string, nat>, id: string, inp: Inputs, run: Run)
    requires Ranked(nodes, rank) && UnfoldNode(nodes, rank, id).Success? && run.status.Completed?
    ensures id in nodes && id in rank && Below(nodes, rank, nodes[id].Children(), rank[id])
    ensures !nodes[id].OtherNode? && !nodes[id].UnknownGuardNode?
    ensures !nodes[id].StepNode? && !(nodes[id].RepeatNode? && nodes[id].count <= 0)
            ==> Unfold(nodes, rank, rank[id], nodes[id].Children()).Success?
    ensures var n, r := nodes[id], RunBody(UnfoldNode(nodes, rank, id).value, inp, run);
            var kids := Unfold(nodes, rank, rank[id], n.Children());
            if n.StepNode? then r == RunStep(Step(id, n.name, n.effects), inp.cfg, run)
            else if n.RepeatNode? && n.count <= 0 then r == run
            else if n.ConcurrencyNode? then r == RunParallel(AllSteps(kids.value), inp, run)
            else if n.PipelineNode? then r == RunBody(kids.value, inp, run)
            else if n.RepeatNode? then r == RunRepeat(n.count, kids.value, inp, run)
            else if n.WhenNode? then r == RunWhen(Guard(When, n.condition, n.alternatives), kids.value, inp, run)
            else r == RunUntil(Guard(Until, n.condition, []), kids.value, inp, run.now, 0, run)
  {
    hide Unfold, RunStep, RunParallel, RunWhen, RunUntil, AllSteps;
    assert forall r :: RunBody(Done, inp, r) == r;
  }

  lemma {:induction false} VisitRuns(nodes: Table, rank: map<string, nat>, ids: seq<string>, id: string, inp: Inputs,
                                     run: Run)
    requires Ranked(nodes, rank) && KindsAllowed(nodes, ids)
    requires UnfoldNode(nodes, rank, id).Success? && run.status.Completed?
    ensures Visit(nodes, rank, id, inp, run) == RunBody(UnfoldNode(nodes, rank, id).value, inp, run)
    decreases if id in nodes then 2 * rank[id] + 1 else 0, 0, 0
  {
    hide *;
    OneItem(nodes, rank, id, inp, run);
    var children := nodes[id].Children();
    ChildrenAllowed(nodes, ids, id);
    VisitIs(nodes, rank, id, inp, run);
    match nodes[id] {
      case StepNode(_, _) =>
      case ConcurrencyNode(_) =>
        ItemOrGuard(nodes[id]);
        StepsListed(nodes, rank, rank[id], children);
      case PipelineNode(_) =>
        WalkRuns(nodes, rank, rank[id], children, inp, run);
      case RepeatNode(count, _) =>
        if count > 0 {
          TimesRun(nodes, rank, rank[id], children, count, Unfold(nodes, rank, rank[id], children).value, inp, run);
        }
      case WhenNode(_, _, _) =>
        ItemOrGuard(nodes[id]);
        WalkRuns(nodes, rank, rank[id], children, inp, run);
        WhenRuns(nodes, rank, id, Unfold(nodes, rank, rank[id], children).value, inp, run);
      case UntilNode(condition, _) =>
        ItemOrGuard(nodes[id]);
        UntilRuns(nodes, rank, rank[id], condition, children, run.now, 0,
                  Unfold(nodes, rank, rank[id], children).value, inp, run);
      case _ =>
    }
  }

  lemma ItemOrGuard(node: Node)
    ensures node.ConcurrencyNode? || node.PipelineNode? ==> IsItem(node)
    ensures node.WhenNode? || node.UntilNode? ==> IsGuard(node)
  {
  }

  /** What a visit does but for `when`. */
  lemma VisitIs(nodes: Table, rank: map<string, nat>, id: string, inp: Inputs, run: Run)
    requires Ranked(nodes, rank) && id in nodes && Below(nodes, rank, nodes[id].Children(), rank[id])
    ensures var n, children, r := nodes[id], nodes[id].Children(), Visit(nodes, rank, id, inp, run);
            && (n.StepNode? ==> r == RunStep(Step(id, n.name, n.effects), inp.cfg, run))
            && (n.ConcurrencyNode? ==> r == RunParallel(StepsAt(nodes, children), inp, run))
            && (n.PipelineNode? ==> r == Walk(nodes, rank, rank[id], children, inp, run))
            && (n.RepeatNode? && n.count <= 0 ==> r == run)
            && (n.RepeatNode? && n.count > 0 ==> r == WalkTimes(nodes, rank, rank[id], children, n.count, inp, run))
            && (n.UntilNode? ==> r == WalkUntil(nodes, rank, rank[id], n.condition, children, run.now, 0, inp, run))
  {
    hide Walk, WalkTimes, WalkUntil, RunStep, RunParallel, StepsAt, TextVerdict, Left;
  }

  /** The walk over the table and the run of the body that the ids spell out are one run, in every document
      that keeps the rule about which kinds own which. */
  lemma {:induction false} WalkRuns(nodes: Table, rank: map<string, nat>, bound: nat, ids: seq<string>, inp: Inputs,
                                    run: Run)
    requires Ranked(nodes, rank) && Below(nodes, rank, ids, bound) && KindsAllowed(nodes, ids)
    requires Unfold(nodes, rank, bound, ids).Success?
    ensures Walk(nodes, rank, bound, ids, inp, run) == RunBody(Unfold(nodes, rank, bound, ids).value, inp, run)
    decreases 2 * bound, |ids|, 0
  {
    hide *;
    if ids == [] || !run.status.Completed? {
      WalkOver(nodes, rank, bound, ids, inp, run);
    } else {
      WalkStep(nodes, rank, bound, ids, inp, run);
      var item, rest := UnfoldNode(nodes, rank, ids[0]), Unfold(nodes, rank, bound, ids[1..]);
      VisitRuns(nodes, rank, ids, ids[0], inp, run);
      WalkRuns(nodes, rank, bound, ids[1..], inp, RunBody(item.value, inp, run));
      ItemThenRest(item.value, rest.value, inp, run);
    }
  }

  lemma WalkOver(nodes: Table, rank: map<string, nat>, bound: nat, ids: seq<string>, inp: Inputs, run: Run)
    requires Ranked(nodes, rank) && Below(nodes, rank, ids, bound) && Unfold(nodes, rank, bound, ids).Success?
    requires ids == [] || !run.status.Completed?
    ensures Walk(nodes, rank, bound, ids, inp, run) == run
    ensures RunBody(Unfold(nodes, rank, bound, ids).value, inp, run) == run
  {
    hide UnfoldNode;
  }

  lemma WalkStep(nodes: Table, rank: map<string, nat>, bound: nat, ids: seq<string>, inp: Inputs, run: Run)
    requires Ranked(nodes, rank) && Below(nodes, rank, ids, bound) && Unfold(nodes, rank, bound, ids).Success?
    requires ids != [] && run.status.Completed?
    requires KindsAllowed(nodes, ids)
    ensures Below(nodes, rank, ids[1..], bound) && KindsAllowed(nodes, ids[1..])
    ensures var item, rest := UnfoldNode(nodes, rank, ids[0]), Unfold(nodes, rank, bound, ids[1..]);
            && item.Success? && rest.Success? && !item.value.Done? && item.value.rest == Done
            && Unfold(nodes, rank, bound, ids).value == item.value.(rest := rest.value)
    ensures Walk(nodes, rank, bound, ids, inp, run)
         == Walk(nodes, rank, bound, ids[1..], inp, Visit(nodes, rank, ids[0], inp, run))
    ensures ids[0] in nodes && rank[ids[0]] < bound
  {
    hide UnfoldNode, Visit;
    assert ids[0] in nodes by { ReadsPresent(nodes, rank, ids[0]); }
  }

  lemma ReadsPresent(nodes: Table, rank: map<string, nat>, id: string)
    requires Ranked(nodes, rank) && UnfoldNode(nodes, rank, id).Success?
    ensures id in nodes
  {
  }

  // ---- An alternative that holds -------------------------------------------------------

  // when a > 3 or b > 3: run
  const EITHER: Table := map["g" := WhenNode("a > 3", ["b > 3"], ["s"]), "s" := StepNode("run", [])]

  const EITHER_RANK: map<string, nat> := map["g" := 1, "s" := 0]

  lemma EitherIsPermitted()
    ensures Ranked(EITHER, EITHER_RANK) && Below(EITHER, EITHER_RANK, ["g"], 2) && KindsAllowed(EITHER, ["g"])
    ensures Readable(EITHER, EITHER_RANK, 2, ["g"])
  {
    var nodes := EITHER;
    assert Below(nodes, EITHER_RANK, ["s"], 1) && Below(nodes, EITHER_RANK, ["g"], 2);
    assert Readable(nodes, EITHER_RANK, 0, []) && Readable(nodes, EITHER_RANK, 1, []);
    assert ["s"][1..] == [] && ["g"][1..] == [];
    assert ReadableAt(nodes, EITHER_RANK, "s");
    assert Readable(nodes, EITHER_RANK, 1, ["s"]);
    assert ReadableAt(nodes, EITHER_RANK, "g");
    assert Readable(nodes, EITHER_RANK, 2, []);
  }

  /** With a = 0 and b = 5 the step is run, and nothing is skipped. */
  lemma AlternativeRuns(inp: Inputs)
    requires inp.u.Sane() && inp.scope == map["a" := 0, "b" := 5] && inp.cfg.timeout.None?
    ensures Ranked(EITHER, EITHER_RANK) && Below(EITHER, EITHER_RANK, ["g"], 2)
    ensures var run := Walk(EITHER, EITHER_RANK, 2, ["g"], inp, Run({}, 0, [], [], Completed));
            run.status.Completed? && run.spans == [Span("run", [])] && run.skips == []
  {
    hide TextVerdict, CharClass.Sane;
    var start := Run({}, 0, [], [], Completed);
    EitherIsPermitted();
    ZeroAndFive(inp.u);
    var texts := ["a > 3"] + ["b > 3"];
    assert texts[0] == "a > 3" && texts[1] == "b > 3";
    assert Front(["s"]) == ["s"] && ["s"][1..] == [] && ["g"][1..] == [];
    var step := Visit(EITHER, EITHER_RANK, "s", inp, start);
    assert step == RunStep(Step("s", "run", []), inp.cfg, start);
    NothingToRun(inp.cfg, start);
    hide RunStep;
    assert Walk(EITHER, EITHER_RANK, 1, [], inp, step) == step;
    assert Walk(EITHER, EITHER_RANK, 1, ["s"], inp, start) == step;
    assert Visit(EITHER, EITHER_RANK, "g", inp, start) == step;
    assert Walk(EITHER, EITHER_RANK, 2, [], inp, step) == step;
  }

  lemma NothingToRun(cfg: Config, run: Run)
    requires run == Run({}, 0, [], [], Completed) && cfg.timeout.None?
    ensures var r := RunStep(Step("s", "run", []), cfg, run);
            r.status.Completed? && r.spans == [Span("run", [])] && r.skips == []
  {
  }
}
