/** When flattening preserves meaning: exactly if no guard that the walk would skip hides inside a
    guard it takes. */
module Flattening {
  import opened Wrappers
  import opened Text
  import opened Workflow

  // Whether a guard runs the item it owns: its condition holds for `when`, fails for `until`.
  type Outcomes = Guard -> bool

  // ---- The two runs --------------------------------------------------------------------

  /** Walking the body: `when` once, `until` as a loop of at most 16 rounds. */
  function TreeRun(body: Body, takes: Outcomes): seq<Step>
    decreases body, 0
  {
    match body
    case Done => []
    case StepItem(step, rest) => [step] + TreeRun(rest, takes)
    case GroupItem(kids, rest) => TreeRun(kids, takes) + TreeRun(rest, takes)
    case ParallelItem(kids, rest) => TreeRun(kids, takes) + TreeRun(rest, takes)
    case RepeatItem(count, kids, rest) => Times(TreeRun(kids, takes), count) + TreeRun(rest, takes)
    case GuardItem(g, kids, rest) =>
      (if g.mode.When? then (if takes(g) then TreeRun(kids, takes) else []) else UntilRun(g, kids, takes, 0))
      + TreeRun(rest, takes)
  }

  function UntilRun(g: Guard, kids: Body, takes: Outcomes, rounds: nat): seq<Step>
    requires rounds <= UNTIL_ROUND_CAP
    decreases kids, UNTIL_ROUND_CAP - rounds + 1
  {
    if !takes(g) || rounds >= UNTIL_ROUND_CAP then []
    else TreeRun(kids, takes) + UntilRun(g, kids, takes, rounds + 1)
  }

  function EntryRun(entry: Flat, takes: Outcomes): seq<Step> {
    if entry.guard.None? || takes(entry.guard.value) then [entry.step] else []
  }

  /** Running a flattened list: each entry on its own guard. */
  function FlatRun(flats: seq<Flat>, takes: Outcomes): seq<Step> {
    if flats == [] then [] else EntryRun(flats[0], takes) + FlatRun(flats[1..], takes)
  }

  // ---- The condition -------------------------------------------------------------------

  /** No guard that owns a step is skipped anywhere in the body. */
  predicate AllTaken(body: Body, takes: Outcomes) {
    match body
    case Done => true
    case StepItem(_, rest) => AllTaken(rest, takes)
    case GroupItem(kids, rest) => AllTaken(kids, takes) && AllTaken(rest, takes)
    case ParallelItem(kids, rest) => AllTaken(kids, takes) && AllTaken(rest, takes)
    case RepeatItem(count, kids, rest) => (count > 0 ==> AllTaken(kids, takes)) && AllTaken(rest, takes)
    case GuardItem(g, kids, rest) =>
      && (AllSteps(kids) != [] ==> takes(g)) && (takes(g) ==> AllTaken(kids, takes))
      && AllTaken(rest, takes)
  }

  /** Inside each taken outermost guard, every guard that owns a step is taken too. */
  predicate NestedAgree(body: Body, takes: Outcomes) {
    match body
    case Done => true
    case StepItem(_, rest) => NestedAgree(rest, takes)
    case GroupItem(kids, rest) => NestedAgree(kids, takes) && NestedAgree(rest, takes)
    case ParallelItem(kids, rest) => NestedAgree(kids, takes) && NestedAgree(rest, takes)
    case RepeatItem(count, kids, rest) => (count > 0 ==> NestedAgree(kids, takes)) && NestedAgree(rest, takes)
    case GuardItem(g, kids, rest) => (takes(g) ==> AllTaken(kids, takes)) && NestedAgree(rest, takes)
  }

  /** No `when` or `until` inside another or inside a parallel block. */
  predicate NonNesting(body: Body) {
    match body
    case Done => true
    case StepItem(_, rest) => NonNesting(rest)
    case GroupItem(kids, rest) => NonNesting(kids) && NonNesting(rest)
    case ParallelItem(kids, rest) => NoGuard(kids) && NonNesting(rest)
    case RepeatItem(_, kids, rest) => NonNesting(kids) && NonNesting(rest)
    case GuardItem(_, kids, rest) => NoGuard(kids) && NonNesting(rest)
  }

  predicate NoGuard(body: Body) {
    match body
    case Done => true
    case StepItem(_, rest) => NoGuard(rest)
    case GroupItem(kids, rest) => NoGuard(kids) && NoGuard(rest)
    case ParallelItem(kids, rest) => NoGuard(kids) && NoGuard(rest)
    case RepeatItem(_, kids, rest) => NoGuard(kids) && NoGuard(rest)
    case GuardItem(_, _, _) => false
  }

  predicate NoRepeat(body: Body) {
    match body
    case Done => true
    case StepItem(_, rest) => NoRepeat(rest)
    case GroupItem(kids, rest) => NoRepeat(kids) && NoRepeat(rest)
    case ParallelItem(kids, rest) => NoRepeat(kids) && NoRepeat(rest)
    case RepeatItem(_, _, _) => false
    case GuardItem(_, kids, rest) => NoRepeat(kids) && NoRepeat(rest)
  }

  // ---- Lists ---------------------------------------------------------------------------

  lemma {:induction false} TimesLonger<T>(xs: seq<T>, ys: seq<T>, n: nat)
    requires |xs| <= |ys|
    ensures |Times(xs, n)| <= |Times(ys, n)|
    ensures n > 0 && |xs| < |ys| ==> |Times(xs, n)| < |Times(ys, n)|
  {
    if n > 0 {
      TimesLonger(xs, ys, n - 1);
    }
  }

  lemma {:induction false} TimesEmpty<T>(n: nat)
    ensures Times<T>([], n) == []
  {
    if n > 0 {
      TimesEmpty<T>(n - 1);
    }
  }

  lemma TimesOnce<T>(xs: seq<T>)
    ensures Times(xs, 1) == xs
  {
    assert Times(xs, 1) == Times(xs, 0) + xs;
  }

  lemma {:induction false} TimesFront<T>(xs: seq<T>, n: nat)
    ensures Times(xs, n + 1) == xs + Times(xs, n)
  {
    if n > 0 {
      TimesFront(xs, n - 1);
      assert (xs + Times(xs, n - 1)) + xs == xs + (Times(xs, n - 1) + xs);
    }
  }

  /** The loop of an `until` collapses to no round or all sixteen. */
  lemma {:induction false} UntilCollapses(g: Guard, kids: Body, takes: Outcomes, rounds: nat)
    requires rounds <= UNTIL_ROUND_CAP
    ensures UntilRun(g, kids, takes, rounds)
         == if takes(g) then Times(TreeRun(kids, takes), UNTIL_ROUND_CAP - rounds) else []
    decreases UNTIL_ROUND_CAP - rounds
  {
    if takes(g) && rounds < UNTIL_ROUND_CAP {
      UntilCollapses(g, kids, takes, rounds + 1);
      TimesFront(TreeRun(kids, takes), UNTIL_ROUND_CAP - rounds - 1);
    }
  }

  lemma GuardRun(g: Guard, kids: Body, rest: Body, takes: Outcomes)
    ensures TreeRun(GuardItem(g, kids, rest), takes)
         == (if takes(g) then Times(TreeRun(kids, takes), GuardCopies(g)) else []) + TreeRun(rest, takes)
  {
    UntilCollapses(g, kids, takes, 0);
    TimesOnce(TreeRun(kids, takes));
    hide Times;
  }

  lemma {:induction false} FlatRunConcat(a: seq<Flat>, b: seq<Flat>, takes: Outcomes)
    ensures FlatRun(a + b, takes) == FlatRun(a, takes) + FlatRun(b, takes)
  {
    hide EntryRun;
    if a == [] {
      assert a + b == b;
    } else {
      assert (a + b)[1..] == a[1..] + b;
      FlatRunConcat(a[1..], b, takes);
      Assoc(EntryRun(a[0], takes), FlatRun(a[1..], takes), FlatRun(b, takes));
    }
  }

  lemma {:induction false} FlatRunTimes(a: seq<Flat>, n: nat, takes: Outcomes)
    ensures FlatRun(Times(a, n), takes) == Times(FlatRun(a, takes), n)
  {
    if n > 0 {
      FlatRunTimes(a, n - 1, takes);
      FlatRunConcat(Times(a, n - 1), a, takes);
    }
  }

  function StepsOf(flats: seq<Flat>): seq<Step> {
    if flats == [] then [] else [flats[0].step] + StepsOf(flats[1..])
  }

  lemma {:induction false} FlatRunTag(flats: seq<Flat>, g: Guard, takes: Outcomes)
    ensures FlatRun(Tag(flats, g), takes) == if takes(g) then StepsOf(flats) else []
  {
    if flats != [] {
      FlatRunTag(flats[1..], g, takes);
      assert Tag(flats, g)[1..] == Tag(flats[1..], g);
    }
  }

  lemma {:induction false} StepsOfConcat(a: seq<Flat>, b: seq<Flat>)
    ensures StepsOf(a + b) == StepsOf(a) + StepsOf(b)
  {
    if a == [] {
      assert a + b == b;
    } else {
      assert (a + b)[1..] == a[1..] + b;
      StepsOfConcat(a[1..], b);
    }
  }

  lemma {:induction false} StepsOfTimes(a: seq<Flat>, n: nat)
    ensures StepsOf(Times(a, n)) == Times(StepsOf(a), n)
  {
    if n > 0 {
      StepsOfTimes(a, n - 1);
      StepsOfConcat(Times(a, n - 1), a);
    }
  }

  lemma {:induction false} StepsOfTag(flats: seq<Flat>, g: Guard)
    ensures StepsOf(Tag(flats, g)) == StepsOf(flats)
  {
    if flats != [] {
      StepsOfTag(flats[1..], g);
      assert Tag(flats, g)[1..] == Tag(flats[1..], g);
    }
  }

  /** The flattened list holds every step of the body. */
  lemma {:induction false} FlattenKeepsSteps(body: Body)
    ensures StepsOf(Flatten(body)) == AllSteps(body)
  {
    match body
    case Done =>
    case StepItem(step, rest) =>
      FlattenKeepsSteps(rest);
      StepsOfConcat([Flat(step, None)], Flatten(rest));
    case GroupItem(kids, rest) =>
      FlattenKeepsSteps(kids);
      FlattenKeepsSteps(rest);
      StepsOfConcat(Flatten(kids), Flatten(rest));
    case ParallelItem(kids, rest) =>
      FlattenKeepsSteps(kids);
      FlattenKeepsSteps(rest);
      StepsOfConcat(Flatten(kids), Flatten(rest));
    case RepeatItem(count, kids, rest) =>
      FlattenKeepsSteps(kids);
      FlattenKeepsSteps(rest);
      StepsOfTimes(Flatten(kids), count);
      StepsOfConcat(Times(Flatten(kids), count), Flatten(rest));
    case GuardItem(g, kids, rest) =>
      FlattenKeepsSteps(kids);
      FlattenKeepsSteps(rest);
      StepsOfTag(Flatten(kids), g);
      StepsOfTimes(Tag(Flatten(kids), g), GuardCopies(g));
      StepsOfConcat(Times(Tag(Flatten(kids), g), GuardCopies(g)), Flatten(rest));
  }

  /** The first item's share of the flattened run. */
  lemma FlatRunSplits(body: Body, takes: Outcomes)
    requires !body.Done?
    ensures FlatRun(Flatten(body), takes) ==
      (match body
       case StepItem(step, _) => [step]
       case GroupItem(kids, _) => FlatRun(Flatten(kids), takes)
       case ParallelItem(kids, _) => FlatRun(Flatten(kids), takes)
       case RepeatItem(count, kids, _) => Times(FlatRun(Flatten(kids), takes), count)
       case GuardItem(g, kids, _) => if takes(g) then Times(AllSteps(kids), GuardCopies(g)) else [])
      + FlatRun(Flatten(body.rest), takes)
  {
    match body
    case StepItem(step, rest) =>
      FlatRunConcat([Flat(step, None)], Flatten(rest), takes);
      assert [Flat(step, None)][1..] == [];
    case GroupItem(kids, rest) =>
      FlatRunConcat(Flatten(kids), Flatten(rest), takes);
    case ParallelItem(kids, rest) =>
      FlatRunConcat(Flatten(kids), Flatten(rest), takes);
    case RepeatItem(count, kids, rest) =>
      FlatRunTimes(Flatten(kids), count, takes);
      FlatRunConcat(Times(Flatten(kids), count), Flatten(rest), takes);
    case GuardItem(g, kids, rest) =>
      FlatRunConcat(Times(Tag(Flatten(kids), g), GuardCopies(g)), Flatten(rest), takes);
      FlatRunTimes(Tag(Flatten(kids), g), GuardCopies(g), takes);
      FlatRunTag(Flatten(kids), g, takes);
      FlattenKeepsSteps(kids);
      TimesEmpty<Step>(GuardCopies(g));
  }

  // ---- Main results --------------------------------------------------------------------

  /** A walk runs at most every step, and every step just when no guard with a step is skipped. */
  lemma {:induction false} WalkWithinAll(body: Body, takes: Outcomes)
    ensures |TreeRun(body, takes)| <= |AllSteps(body)|
    ensures AllTaken(body, takes) ==> TreeRun(body, takes) == AllSteps(body)
    ensures !AllTaken(body, takes) ==> |TreeRun(body, takes)| < |AllSteps(body)|
  {
    match body
    case Done =>
    case StepItem(step, rest) =>
      WalkWithinAll(rest, takes);
    case GroupItem(kids, rest) =>
      WalkWithinAll(kids, takes);
      WalkWithinAll(rest, takes);
    case ParallelItem(kids, rest) =>
      WalkWithinAll(kids, takes);
      WalkWithinAll(rest, takes);
    case RepeatItem(count, kids, rest) =>
      WalkWithinAll(kids, takes);
      WalkWithinAll(rest, takes);
      TimesLonger(TreeRun(kids, takes), AllSteps(kids), count);
    case GuardItem(g, kids, rest) =>
      WalkWithinAll(kids, takes);
      WalkWithinAll(rest, takes);
      GuardRun(g, kids, rest, takes);
      TimesLonger(TreeRun(kids, takes), AllSteps(kids), GuardCopies(g));
      TimesEmpty<Step>(GuardCopies(g));
      TimesLonger([], AllSteps(kids), GuardCopies(g));
  }

  /** The flattened run is never shorter than the walk, and is the walk exactly when nested
      guards agree. */
  lemma {:induction false} FlattenComparison(body: Body, takes: Outcomes)
    ensures |TreeRun(body, takes)| <= |FlatRun(Flatten(body), takes)|
    ensures NestedAgree(body, takes) ==> FlatRun(Flatten(body), takes) == TreeRun(body, takes)
    ensures !NestedAgree(body, takes) ==> |TreeRun(body, takes)| < |FlatRun(Flatten(body), takes)|
  {
    if !body.Done? {
      FlattenComparison(body.rest, takes);
      FlatRunSplits(body, takes);
    }
    match body
    case Done =>
    case StepItem(step, rest) =>
    case GroupItem(kids, rest) =>
      FlattenComparison(kids, takes);
    case ParallelItem(kids, rest) =>
      FlattenComparison(kids, takes);
    case RepeatItem(count, kids, rest) =>
      FlattenComparison(kids, takes);
      TimesLonger(TreeRun(kids, takes), FlatRun(Flatten(kids), takes), count);
    case GuardItem(g, kids, rest) =>
      WalkWithinAll(kids, takes);
      GuardRun(g, kids, rest, takes);
      TimesLonger(TreeRun(kids, takes), AllSteps(kids), GuardCopies(g));
  }

  /** For fixed guard outcomes, flattening preserves the step sequence if and only if nested
      guards agree. */
  lemma FlattenExactly(body: Body, takes: Outcomes)
    ensures FlatRun(Flatten(body), takes) == TreeRun(body, takes) <==> NestedAgree(body, takes)
  {
    FlattenComparison(body, takes);
  }

  lemma {:induction false} NoGuardAllTaken(body: Body, takes: Outcomes)
    requires NoGuard(body)
    ensures AllTaken(body, takes)
  {
    match body
    case Done =>
    case StepItem(_, rest) => NoGuardAllTaken(rest, takes);
    case GroupItem(kids, rest) => NoGuardAllTaken(kids, takes); NoGuardAllTaken(rest, takes);
    case ParallelItem(kids, rest) => NoGuardAllTaken(kids, takes); NoGuardAllTaken(rest, takes);
    case RepeatItem(_, kids, rest) => NoGuardAllTaken(kids, takes); NoGuardAllTaken(rest, takes);
  }

  lemma {:induction false} NoGuardNests(body: Body)
    requires NoGuard(body)
    ensures NonNesting(body)
  {
    match body
    case Done =>
    case StepItem(_, rest) => NoGuardNests(rest);
    case GroupItem(kids, rest) => NoGuardNests(kids); NoGuardNests(rest);
    case ParallelItem(_, rest) => NoGuardNests(rest);
    case RepeatItem(_, kids, rest) => NoGuardNests(kids); NoGuardNests(rest);
  }

  lemma {:induction false} NonNestingAgrees(body: Body, takes: Outcomes)
    requires NonNesting(body)
    ensures NestedAgree(body, takes)
  {
    match body
    case Done =>
    case StepItem(_, rest) => NonNestingAgrees(rest, takes);
    case GroupItem(kids, rest) => NonNestingAgrees(kids, takes); NonNestingAgrees(rest, takes);
    case ParallelItem(kids, rest) => NoGuardNests(kids); NonNestingAgrees(kids, takes); NonNestingAgrees(rest, takes);
    case RepeatItem(_, kids, rest) => NonNestingAgrees(kids, takes); NonNestingAgrees(rest, takes);
    case GuardItem(_, kids, rest) => NoGuardAllTaken(kids, takes); NonNestingAgrees(rest, takes);
  }

  /** Without nested guards the flattened list means what the body means, whatever the
      conditions turn out to be. */
  lemma FlattenPreservesMeaning(body: Body, takes: Outcomes)
    requires NonNesting(body)
    ensures FlatRun(Flatten(body), takes) == TreeRun(body, takes)
  {
    NonNestingAgrees(body, takes);
    FlattenExactly(body, takes);
  }

  const CHARGE := Step("step", "charge card", [])
  const OUTER := Guard(When, "a == 1", [])
  const INNER := Guard(When, "b == 1", [])
  const NESTED := GuardItem(OUTER, GuardItem(INNER, StepItem(CHARGE, Done), Done), Done)

  /** A nested guard that the flattening gets wrong: the inner `when` is dropped, so its step runs although
      its own condition fails. */
  lemma NestedGuardIsDropped(takes: Outcomes)
    requires takes(OUTER) && !takes(INNER)
    ensures TreeRun(NESTED, takes) == [] && FlatRun(Flatten(NESTED), takes) == [CHARGE]
  {
    var step, inner := StepItem(CHARGE, Done), GuardItem(INNER, StepItem(CHARGE, Done), Done);
    assert TreeRun(inner, takes) == [];
    var one, tagged := [Flat(CHARGE, None)], [Flat(CHARGE, Some(INNER))];
    assert one[1..] == [] && tagged[1..] == [];
    assert Flatten(step) == one;
    TimesOnce(Tag(one, INNER));
    assert Tag(one, INNER) == tagged && Flatten(inner) == tagged;
    TimesOnce(Tag(tagged, OUTER));
    var flats := [Flat(CHARGE, Some(OUTER))];
    assert Tag(tagged, OUTER) == flats && flats[1..] == [] && Flatten(NESTED) == flats;
  }
}
