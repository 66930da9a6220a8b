/** Skips from absence: the flattened plan records the same skipped steps as the tree exactly
    when each skipped guard is recorded at the same grain by both. */
module SkipGrain {
  import opened Wrappers
  import opened Text
  import opened Workflow
  import opened Flattening
  import opened Attempts
  import opened Interp
  import opened Events

  // ---- What the plan records -----------------------------------------------------------

  /** An entry's share of a run: it ran, or its guard was not taken. A later round of an `until`
      is not recorded again: its step id came before. */
  function EntryEvents(f: Flat, takes: Outcomes, seen: set<string>): seq<Event> {
    if f.guard.None? || takes(f.guard.value) then [Ran(f.step)]
    else if f.guard.value.mode.Until? && f.step.id in seen then []
    else [Missed(EntryOf(f.guard.value, f.step.name))]
  }

  /** The events of a flattened list whose predecessors hold the ids `seen`. */
  function FlatEvents(flats: seq<Flat>, takes: Outcomes, seen: set<string>): seq<Event> {
    if flats == [] then []
    else EntryEvents(flats[0], takes, seen) + FlatEvents(flats[1..], takes, seen + {flats[0].step.id})
  }

  function Ids(steps: seq<Step>): set<string> {
    set k | 0 <= k < |steps| :: steps[k].id
  }

  lemma IdsConcat(a: seq<Step>, b: seq<Step>)
    ensures Ids(a + b) == Ids(a) + Ids(b)
  {
    forall id | id in Ids(a) + Ids(b) ensures id in Ids(a + b) {
      if id in Ids(a) {
        var k :| 0 <= k < |a| && a[k].id == id;
        assert (a + b)[k].id == id;
      } else {
        var k :| 0 <= k < |b| && b[k].id == id;
        assert (a + b)[|a| + k].id == id;
      }
    }
  }

  lemma IdsFirst(steps: seq<Step>)
    requires steps != []
    ensures Ids(steps) == {steps[0].id} + Ids(steps[1..])
  {
    assert steps == [steps[0]] + steps[1..];
    IdsConcat([steps[0]], steps[1..]);
    assert Ids([steps[0]]) == {steps[0].id} by { assert [steps[0]][0].id in Ids([steps[0]]); }
  }

  lemma {:induction false} IdsTimes(steps: seq<Step>, n: nat)
    ensures Ids(Times(steps, n)) == if n == 0 then {} else Ids(steps)
  {
    if n > 0 {
      IdsTimes(steps, n - 1);
      IdsConcat(Times(steps, n - 1), steps);
    }
  }

  lemma {:induction false} FlatEventsConcat(a: seq<Flat>, b: seq<Flat>, takes: Outcomes, seen: set<string>)
    ensures FlatEvents(a + b, takes, seen)
         == FlatEvents(a, takes, seen) + FlatEvents(b, takes, seen + Ids(StepsOf(a)))
  {
    hide EntryEvents, Ids;
    if a == [] {
      assert a + b == b;
      NoIds();
      assert seen + Ids(StepsOf(a)) == seen;
    } else {
      assert (a + b)[1..] == a[1..] + b;
      var next := seen + {a[0].step.id};
      FlatEventsConcat(a[1..], b, takes, next);
      IdsFirst(StepsOf(a));
      assert StepsOf(a)[1..] == StepsOf(a[1..]);
      assert next + Ids(StepsOf(a[1..])) == seen + Ids(StepsOf(a));
      Assoc(EntryEvents(a[0], takes, seen), FlatEvents(a[1..], takes, next),
            FlatEvents(b, takes, seen + Ids(StepsOf(a))));
    }
  }

  lemma NoIds()
    ensures Ids([]) == {}
  {
  }

  // ---- One guard -----------------------------------------------------------------------

  function NamesOf(steps: seq<Step>): seq<string> {
    if steps == [] then [] else [steps[0].name] + NamesOf(steps[1..])
  }

  /** The names of the steps whose id is new. */
  function NewNames(steps: seq<Step>, seen: set<string>): seq<string> {
    if steps == [] then []
    else (if steps[0].id in seen then [] else [steps[0].name]) + NewNames(steps[1..], seen + {steps[0].id})
  }

  /** The steps the plan records for a guard it does not take. */
  function PlanNames(g: Guard, steps: seq<Step>, seen: set<string>): seq<string> {
    if g.mode.When? then NamesOf(steps) else NewNames(steps, seen)
  }

  lemma MissedAllConcat(g: Guard, name: string, names: seq<string>)
    ensures MissedAll(g, [name] + names) == [Missed(EntryOf(g, name))] + MissedAll(g, names)
  {
    assert ([name] + names)[1..] == names;
  }

  lemma {:induction false} SkippedRound(flats: seq<Flat>, g: Guard, takes: Outcomes, seen: set<string>)
    requires !takes(g)
    ensures FlatEvents(Tag(flats, g), takes, seen) == MissedAll(g, PlanNames(g, StepsOf(flats), seen))
  {
    if flats != [] {
      var step := flats[0].step;
      SkippedRound(flats[1..], g, takes, seen + {step.id});
      assert Tag(flats, g)[1..] == Tag(flats[1..], g) && StepsOf(flats)[1..] == StepsOf(flats[1..]);
      var names := PlanNames(g, StepsOf(flats[1..]), seen + {step.id});
      hide PlanNames;
      NewNamesOpen(g, StepsOf(flats), seen);
      MissedAllConcat(g, step.name, names);
      assert [] + names == names && [] + MissedAll(g, names) == MissedAll(g, names);
    }
  }

  lemma NewNamesOpen(g: Guard, steps: seq<Step>, seen: set<string>)
    requires steps != []
    ensures PlanNames(g, steps, seen)
         == (if g.mode.Until? && steps[0].id in seen then [] else [steps[0].name])
            + PlanNames(g, steps[1..], seen + {steps[0].id})
  {
  }

  lemma {:induction false} NothingNew(steps: seq<Step>, seen: set<string>)
    requires Ids(steps) <= seen
    ensures NewNames(steps, seen) == []
  {
    if steps != [] {
      IdsFirst(steps);
      assert seen + {steps[0].id} == seen;
      NothingNew(steps[1..], seen);
    }
  }

  /** The first round of an `until` records what is new; the other fifteen record nothing. */
  lemma {:induction false} SkippedRounds(flats: seq<Flat>, g: Guard, takes: Outcomes, seen: set<string>, n: nat)
    requires !takes(g) && g.mode.Until?
    ensures FlatEvents(Times(Tag(flats, g), n), takes, seen)
         == if n == 0 then [] else MissedAll(g, PlanNames(g, StepsOf(flats), seen))
  {
    if n > 0 {
      hide EntryEvents, Ids;
      var round := Tag(flats, g);
      var before := seen + Ids(StepsOf(Times(round, n - 1)));
      SkippedRounds(flats, g, takes, seen, n - 1);
      FlatEventsConcat(Times(round, n - 1), round, takes, seen);
      SkippedRound(flats, g, takes, before);
      StepsOfTimes(round, n - 1);
      StepsOfTag(flats, g);
      IdsTimes(StepsOf(flats), n - 1);
      if n == 1 {
        assert before == seen;
      } else {
        NothingNew(StepsOf(flats), before);
      }
    }
  }

  lemma SkippedGuard(kids: Body, g: Guard, takes: Outcomes, seen: set<string>)
    requires !takes(g)
    ensures FlatEvents(Times(Tag(Flatten(kids), g), GuardCopies(g)), takes, seen)
         == MissedAll(g, PlanNames(g, AllSteps(kids), seen))
  {
    hide Times, FlatEvents, PlanNames, Tag;
    FlattenKeepsSteps(kids);
    if g.mode.When? {
      TimesOnce(Tag(Flatten(kids), g));
      SkippedRound(Flatten(kids), g, takes, seen);
    } else {
      SkippedRounds(Flatten(kids), g, takes, seen, UNTIL_ROUND_CAP);
    }
  }

  lemma {:induction false} RanAllConcat(a: seq<Step>, b: seq<Step>)
    ensures RanAll(a + b) == RanAll(a) + RanAll(b)
  {
    if a == [] {
      assert a + b == b;
    } else {
      assert (a + b)[1..] == a[1..] + b;
      RanAllConcat(a[1..], b);
    }
  }

  lemma {:induction false} RanAllTimes(a: seq<Step>, n: nat)
    ensures RanAll(Times(a, n)) == Times(RanAll(a), n)
  {
    if n > 0 {
      RanAllTimes(a, n - 1);
      RanAllConcat(Times(a, n - 1), a);
    }
  }

  /** Every entry unguarded or taken. */
  predicate AllRun(flats: seq<Flat>, takes: Outcomes) {
    forall k :: 0 <= k < |flats| ==> flats[k].guard.None? || takes(flats[k].guard.value)
  }

  lemma {:induction false} TakenEntries(flats: seq<Flat>, takes: Outcomes, seen: set<string>)
    requires AllRun(flats, takes)
    ensures FlatEvents(flats, takes, seen) == RanAll(StepsOf(flats))
  {
    if flats != [] {
      TakenEntries(flats[1..], takes, seen + {flats[0].step.id});
      assert StepsOf(flats)[1..] == StepsOf(flats[1..]);
    }
  }

  lemma {:induction false} TimesGuards(flats: seq<Flat>, g: Guard, n: nat)
    requires forall k :: 0 <= k < |flats| ==> flats[k].guard == Some(g)
    ensures forall k :: 0 <= k < |Times(flats, n)| ==> Times(flats, n)[k].guard == Some(g)
  {
    if n > 0 {
      TimesGuards(flats, g, n - 1);
    }
  }

  lemma TakenGuard(kids: Body, g: Guard, takes: Outcomes, seen: set<string>)
    requires takes(g)
    ensures FlatEvents(Times(Tag(Flatten(kids), g), GuardCopies(g)), takes, seen)
         == Times(RanAll(AllSteps(kids)), GuardCopies(g))
  {
    hide FlatEvents, RanAll;
    var round := Tag(Flatten(kids), g);
    TimesGuards(round, g, GuardCopies(g));
    TakenEntries(Times(round, GuardCopies(g)), takes, seen);
    StepsOfTimes(round, GuardCopies(g));
    StepsOfTag(Flatten(kids), g);
    FlattenKeepsSteps(kids);
    RanAllTimes(AllSteps(kids), GuardCopies(g));
  }

  lemma {:induction false} UnguardedEvents(kids: Body, takes: Outcomes)
    requires NoGuard(kids)
    ensures TreeEvents(kids, takes) == RanAll(AllSteps(kids))
  {
    match kids
    case Done =>
    case StepItem(step, rest) =>
      UnguardedEvents(rest, takes);
      RanAllConcat([step], AllSteps(rest));
    case GroupItem(inner, rest) =>
      UnguardedEvents(inner, takes);
      UnguardedEvents(rest, takes);
      RanAllConcat(AllSteps(inner), AllSteps(rest));
    case ParallelItem(inner, rest) =>
      UnguardedEvents(rest, takes);
      RanAllConcat(AllSteps(inner), AllSteps(rest));
    case RepeatItem(count, inner, rest) =>
      UnguardedEvents(inner, takes);
      UnguardedEvents(rest, takes);
      RanAllTimes(AllSteps(inner), count);
      RanAllConcat(Times(AllSteps(inner), count), AllSteps(rest));
  }

  // ---- The condition -------------------------------------------------------------------

  /** The tree holds every id once, and none of `seen`. */
  predicate FreshIds(body: Body, seen: set<string>) {
    match body
    case Done => true
    case StepItem(step, rest) => step.id !in seen && FreshIds(rest, seen + {step.id})
    case _ => FreshIds(body.kids, seen) && FreshIds(body.rest, seen + Ids(AllSteps(body.kids)))
  }

  /** Whatever owns a step is unrolled once. */
  predicate SingleCopies(body: Body) {
    match body
    case Done => true
    case StepItem(_, rest) => SingleCopies(rest)
    case GroupItem(kids, rest) => SingleCopies(kids) && SingleCopies(rest)
    case ParallelItem(kids, rest) => SingleCopies(kids) && SingleCopies(rest)
    case RepeatItem(count, kids, rest) => (StepNames(kids) != [] ==> count == 1) && SingleCopies(kids)
        && SingleCopies(rest)
    case GuardItem(g, kids, rest) =>
      (StepNames(kids) != [] ==> g.mode.When?) && SingleCopies(kids) && SingleCopies(rest)
  }

  /** No repeat of no round owns a step. */
  predicate Positive(body: Body) {
    match body
    case Done => true
    case StepItem(_, rest) => Positive(rest)
    case RepeatItem(count, kids, rest) => (count == 0 ==> StepNames(kids) == []) && Positive(kids) && Positive(rest)
    case _ => Positive(body.kids) && Positive(body.rest)
  }

  /** When a skipped guard is recorded at one grain: a `when` unrolls none of its steps, an `until`
      owns no id twice and none that the plan holds before it. */
  predicate SameGrain(g: Guard, kids: Body, seen: set<string>) {
    if g.mode.When? then SingleCopies(kids) else FreshIds(kids, seen)
  }

  /** Each guard that is skipped is recorded at one grain, given the ids planned before it. */
  predicate Aligned(body: Body, takes: Outcomes, seen: set<string>) {
    match body
    case Done => true
    case StepItem(step, rest) => Aligned(rest, takes, seen + {step.id})
    case GroupItem(kids, rest) => Aligned(kids, takes, seen) && Aligned(rest, takes, seen + Ids(AllSteps(kids)))
    case ParallelItem(kids, rest) => Aligned(rest, takes, seen + Ids(AllSteps(kids)))
    case RepeatItem(count, kids, rest) =>
      && (count > 0 ==> Aligned(kids, takes, seen))
      && (count > 1 ==> Aligned(kids, takes, seen + Ids(AllSteps(kids))))
      && Aligned(rest, takes, seen + if count > 0 then Ids(AllSteps(kids)) else {})
    case GuardItem(g, kids, rest) =>
      && (takes(g) || SameGrain(g, kids, seen))
      && Aligned(rest, takes, seen + Ids(AllSteps(kids)))
  }

  // ---- What the condition says ---------------------------------------------------------

  lemma {:induction false} NamesConcat(a: seq<Step>, b: seq<Step>)
    ensures NamesOf(a + b) == NamesOf(a) + NamesOf(b)
  {
    if a == [] {
      assert a + b == b;
    } else {
      assert (a + b)[1..] == a[1..] + b;
      NamesConcat(a[1..], b);
    }
  }

  lemma {:induction false} NewNamesConcat(a: seq<Step>, b: seq<Step>, seen: set<string>)
    ensures NewNames(a + b, seen) == NewNames(a, seen) + NewNames(b, seen + Ids(a))
  {
    hide Ids;
    if a == [] {
      NoIds();
      assert a + b == b && seen + {} == seen;
    } else {
      assert (a + b)[1..] == a[1..] + b;
      NewNamesConcat(a[1..], b, seen + {a[0].id});
      IdsFirst(a);
      assert seen + {a[0].id} + Ids(a[1..]) == seen + Ids(a);
    }
  }

  lemma {:induction false} NamesTimes(steps: seq<Step>, n: nat)
    ensures |NamesOf(Times(steps, n))| == n * |NamesOf(steps)|
    ensures n == 1 ==> NamesOf(Times(steps, n)) == NamesOf(steps)
  {
    if n > 0 {
      NamesTimes(steps, n - 1);
      NamesConcat(Times(steps, n - 1), steps);
      assert n * |NamesOf(steps)| == (n - 1) * |NamesOf(steps)| + |NamesOf(steps)|;
    }
  }

  /** Rounds after the first name nothing new. */
  lemma {:induction false} NewNamesTimes(steps: seq<Step>, n: nat, seen: set<string>)
    ensures NewNames(Times(steps, n), seen) == if n == 0 then [] else NewNames(steps, seen)
  {
    if n > 0 {
      hide Ids;
      NewNamesTimes(steps, n - 1, seen);
      NewNamesConcat(Times(steps, n - 1), steps, seen);
      IdsTimes(steps, n - 1);
      if n > 1 {
        NothingNew(steps, seen + Ids(steps));
      } else {
        assert seen + {} == seen;
      }
    }
  }

  lemma {:induction false} NothingOwned(body: Body)
    requires StepNames(body) == []
    ensures AllSteps(body) == []
  {
    match body
    case Done =>
    case StepItem(_, _) =>
    case RepeatItem(count, kids, rest) =>
      NothingOwned(kids);
      NothingOwned(rest);
      TimesEmpty<Step>(count);
    case GuardItem(g, kids, rest) =>
      NothingOwned(kids);
      NothingOwned(rest);
      TimesEmpty<Step>(GuardCopies(g));
    case _ =>
      NothingOwned(body.kids);
      NothingOwned(body.rest);
  }

  /** The copies of one item: their names against the tree's. */
  lemma CopiesAgainst(kids: Body, n: nat)
    requires n == 0 ==> StepNames(kids) == []
    requires |NamesOf(AllSteps(kids))| >= |StepNames(kids)|
    requires (|NamesOf(AllSteps(kids))| == |StepNames(kids)|) == SingleCopies(kids)
    requires SingleCopies(kids) ==> NamesOf(AllSteps(kids)) == StepNames(kids)
    ensures var names := NamesOf(Times(AllSteps(kids), n));
            var single := (StepNames(kids) != [] ==> n == 1) && SingleCopies(kids);
            && |names| >= |StepNames(kids)| && (|names| == |StepNames(kids)| <==> single)
            && (single ==> names == StepNames(kids))
  {
    hide Times, SingleCopies, NamesOf, AllSteps, StepNames;
    NamesTimes(AllSteps(kids), n);
    var m := |NamesOf(AllSteps(kids))|;
    if StepNames(kids) == [] {
      NothingCopied(kids, n);
    } else if n > 1 {
      assert n * m == (n - 1) * m + m && (n - 1) * m > 0;
    }
  }

  lemma NothingCopied(kids: Body, n: nat)
    requires StepNames(kids) == []
    ensures NamesOf(Times(AllSteps(kids), n)) == NamesOf(AllSteps(kids)) == []
  {
    NothingOwned(kids);
    TimesEmpty<Step>(n);
  }

  /** Unrolled, a body names at least the steps of the tree, and exactly those just when it unrolls
      none of them. */
  lemma {:induction false} CopiesCompared(body: Body)
    requires Positive(body)
    ensures |NamesOf(AllSteps(body))| >= |StepNames(body)|
    ensures |NamesOf(AllSteps(body))| == |StepNames(body)| <==> SingleCopies(body)
    ensures SingleCopies(body) ==> NamesOf(AllSteps(body)) == StepNames(body)
  {
    match body
    case Done =>
    case StepItem(step, rest) =>
      CopiesCompared(rest);
      assert ([step] + AllSteps(rest))[1..] == AllSteps(rest);
    case RepeatItem(count, kids, rest) =>
      CopiesCompared(kids);
      CopiesCompared(rest);
      CopiesAgainst(kids, count);
      NamesConcat(Times(AllSteps(kids), count), AllSteps(rest));
    case GuardItem(g, kids, rest) =>
      CopiesCompared(kids);
      CopiesCompared(rest);
      CopiesAgainst(kids, GuardCopies(g));
      NamesConcat(Times(AllSteps(kids), GuardCopies(g)), AllSteps(rest));
    case _ =>
      CopiesCompared(body.kids);
      CopiesCompared(body.rest);
      NamesConcat(AllSteps(body.kids), AllSteps(body.rest));
  }

  /** The names of the copies of one item that are new. */
  lemma NewCopies(kids: Body, rest: Body, n: nat, seen: set<string>)
    requires n == 0 ==> StepNames(kids) == []
    ensures NewNames(Times(AllSteps(kids), n) + AllSteps(rest), seen)
         == NewNames(AllSteps(kids), seen) + NewNames(AllSteps(rest), seen + Ids(AllSteps(kids)))
  {
    hide Ids;
    NewNamesConcat(Times(AllSteps(kids), n), AllSteps(rest), seen);
    NewNamesTimes(AllSteps(kids), n, seen);
    IdsTimes(AllSteps(kids), n);
    if n == 0 {
      NothingOwned(kids);
      NoIds();
    }
  }

  /** The new names are at most the tree's, and exactly those just when every id is new. */
  lemma {:induction false} FreshCompared(body: Body, seen: set<string>)
    requires Positive(body)
    ensures |NewNames(AllSteps(body), seen)| <= |StepNames(body)|
    ensures |NewNames(AllSteps(body), seen)| == |StepNames(body)| <==> FreshIds(body, seen)
    ensures FreshIds(body, seen) ==> NewNames(AllSteps(body), seen) == StepNames(body)
  {
    hide Ids;
    match body
    case Done =>
    case StepItem(step, rest) =>
      FreshCompared(rest, seen + {step.id});
      assert ([step] + AllSteps(rest))[1..] == AllSteps(rest);
    case RepeatItem(count, kids, rest) =>
      FreshCompared(kids, seen);
      FreshCompared(rest, seen + Ids(AllSteps(kids)));
      NewCopies(kids, rest, count, seen);
    case GuardItem(g, kids, rest) =>
      FreshCompared(kids, seen);
      FreshCompared(rest, seen + Ids(AllSteps(kids)));
      NewCopies(kids, rest, GuardCopies(g), seen);
    case _ =>
      FreshCompared(body.kids, seen);
      FreshCompared(body.rest, seen + Ids(AllSteps(body.kids)));
      NewNamesConcat(AllSteps(body.kids), AllSteps(body.rest), seen);
  }

  /** The plan records at least the tree's steps of a skipped `when` and at most those of a skipped
      `until`, and the same ones exactly at one grain. */
  lemma GrainExactly(g: Guard, kids: Body, seen: set<string>)
    requires Positive(kids)
    ensures PlanNames(g, AllSteps(kids), seen) == StepNames(kids) <==> SameGrain(g, kids, seen)
    ensures |PlanNames(g, AllSteps(kids), seen)| == |StepNames(kids)| <==> SameGrain(g, kids, seen)
    ensures if g.mode.When? then |PlanNames(g, AllSteps(kids), seen)| >= |StepNames(kids)|
            else |PlanNames(g, AllSteps(kids), seen)| <= |StepNames(kids)|
  {
    CopiesCompared(kids);
    FreshCompared(kids, seen);
  }

  // ---- Main results --------------------------------------------------------------------

  lemma {:induction false} MissedAllInjective(g: Guard, a: seq<string>, b: seq<string>)
    requires MissedAll(g, a) == MissedAll(g, b)
    ensures a == b
  {
    if a != [] && b != [] {
      assert MissedAll(g, a)[0] == MissedAll(g, b)[0];
      assert MissedAll(g, a)[1..] == MissedAll(g, b)[1..];
      MissedAllInjective(g, a[1..], b[1..]);
    }
  }

  /** A guard that is not taken is recorded alike by plan and tree if and only if its `when` unrolls
      no step, or its `until` owns ids that are new and different. */
  lemma SkipRecordedExactly(g: Guard, kids: Body, takes: Outcomes, seen: set<string>)
    requires !takes(g) && Positive(kids)
    ensures FlatEvents(Flatten(GuardItem(g, kids, Done)), takes, seen) == TreeEvents(GuardItem(g, kids, Done), takes)
       <==> SameGrain(g, kids, seen)
  {
    SkippedItem(g, kids, takes, seen);
    GrainExactly(g, kids, seen);
    hide FlatEvents, TreeEvents, Flatten, MissedAll, PlanNames, StepNames, AllSteps, SameGrain;
    if MissedAll(g, PlanNames(g, AllSteps(kids), seen)) == MissedAll(g, StepNames(kids)) {
      MissedAllInjective(g, PlanNames(g, AllSteps(kids), seen), StepNames(kids));
    }
  }

  lemma {:induction false} RepeatAligned(kids: Body, takes: Outcomes, seen: set<string>, n: nat)
    requires NonNesting(kids) && Positive(kids)
    requires n > 0 ==> Aligned(kids, takes, seen)
    requires n > 1 ==> Aligned(kids, takes, seen + Ids(AllSteps(kids)))
    ensures FlatEvents(Times(Flatten(kids), n), takes, seen) == Times(TreeEvents(kids, takes), n)
    decreases kids, 1, n
  {
    if n > 0 {
      hide EntryEvents, Ids, FlatEvents, Aligned, TreeEvents, NonNesting, Positive;
      var flats := Flatten(kids);
      var before := seen + Ids(StepsOf(Times(flats, n - 1)));
      RepeatAligned(kids, takes, seen, n - 1);
      FlatEventsConcat(Times(flats, n - 1), flats, takes, seen);
      FlattenKeepsSteps(kids);
      StepsOfTimes(flats, n - 1);
      IdsTimes(AllSteps(kids), n - 1);
      assert before == if n == 1 then seen else seen + Ids(AllSteps(kids));
      PlanMatchesTree(kids, takes, before);
    }
  }

  /** The events the flattened plan plays are the tree's, skips included. */
  lemma {:induction false} PlanMatchesTree(body: Body, takes: Outcomes, seen: set<string>)
    requires NonNesting(body) && Positive(body) && Aligned(body, takes, seen)
    ensures FlatEvents(Flatten(body), takes, seen) == TreeEvents(body, takes)
    decreases body, 0
  {
    if !body.Done? {
      hide EntryEvents, Ids, FlatEvents, Times, MissedAll;
      var first := Flatten(FirstItem(body));
      FlattenSplits(body);
      FirstMatches(body, takes, seen);
      FlatEventsConcat(first, Flatten(body.rest), takes, seen);
      FirstSteps(body);
      var next := seen + Ids(StepsOf(first));
      PlanMatchesTree(body.rest, takes, next);
    }
  }

  /** The steps of a body's first item. */
  function ItemSteps(body: Body): seq<Step>
    requires !body.Done?
  {
    match body
    case StepItem(step, _) => [step]
    case GroupItem(kids, _) => AllSteps(kids)
    case ParallelItem(kids, _) => AllSteps(kids)
    case RepeatItem(count, kids, _) => Times(AllSteps(kids), count)
    case GuardItem(g, kids, _) => Times(AllSteps(kids), GuardCopies(g))
  }

  lemma FirstSteps(body: Body)
    requires !body.Done?
    ensures StepsOf(Flatten(FirstItem(body))) == ItemSteps(body)
    ensures Ids(ItemSteps(body)) ==
      match body
      case StepItem(step, _) => {step.id}
      case GroupItem(kids, _) => Ids(AllSteps(kids))
      case ParallelItem(kids, _) => Ids(AllSteps(kids))
      case RepeatItem(count, kids, _) => if count > 0 then Ids(AllSteps(kids)) else {}
      case GuardItem(_, kids, _) => Ids(AllSteps(kids))
  {
    FlattenKeepsSteps(FirstItem(body));
    assert ItemSteps(body) + [] == ItemSteps(body);
    match body
    case StepItem(step, _) =>
      IdsFirst([step]);
      NoIds();
    case GroupItem(kids, _) =>
    case ParallelItem(kids, _) =>
    case RepeatItem(count, kids, _) =>
      IdsTimes(AllSteps(kids), count);
    case GuardItem(g, kids, _) =>
      IdsTimes(AllSteps(kids), GuardCopies(g));
  }

  lemma FirstMatches(body: Body, takes: Outcomes, seen: set<string>)
    requires !body.Done? && NonNesting(body) && Positive(body) && Aligned(body, takes, seen)
    ensures FlatEvents(Flatten(FirstItem(body)), takes, seen) == FirstEvents(body, takes)
    decreases body, 0, 0
  {
    hide Ids;
    match body
    case StepItem(step, _) =>
      assert [Flat(step, None)] + [] == [Flat(step, None)] && [Flat(step, None)][1..] == [];
    case GroupItem(kids, _) =>
      PlanMatchesTree(kids, takes, seen);
      assert Flatten(kids) + [] == Flatten(kids);
    case ParallelItem(kids, _) =>
      BlockMatches(kids, takes, seen);
      assert Flatten(kids) + [] == Flatten(kids);
    case RepeatItem(count, kids, _) =>
      RepeatAligned(kids, takes, seen, count);
      assert Times(Flatten(kids), count) + [] == Times(Flatten(kids), count);
    case GuardItem(g, kids, _) =>
      GuardMatches(g, kids, takes, seen);
      var flats := Times(Tag(Flatten(kids), g), GuardCopies(g));
      assert flats + [] == flats;
  }

  lemma {:induction false} NothingGuarded(kids: Body)
    requires NoGuard(kids)
    ensures forall k :: 0 <= k < |Flatten(kids)| ==> Flatten(kids)[k].guard.None?
  {
    match kids
    case Done =>
    case StepItem(_, rest) => NothingGuarded(rest);
    case RepeatItem(count, inner, rest) =>
      NothingGuarded(inner);
      NothingGuarded(rest);
      TimesUnguarded(Flatten(inner), count);
    case GroupItem(inner, rest) => NothingGuarded(inner); NothingGuarded(rest);
    case ParallelItem(inner, rest) => NothingGuarded(inner); NothingGuarded(rest);
  }

  lemma {:induction false} TimesUnguarded(flats: seq<Flat>, n: nat)
    requires forall k :: 0 <= k < |flats| ==> flats[k].guard.None?
    ensures forall k :: 0 <= k < |Times(flats, n)| ==> Times(flats, n)[k].guard.None?
  {
    if n > 0 {
      TimesUnguarded(flats, n - 1);
    }
  }

  lemma BlockMatches(kids: Body, takes: Outcomes, seen: set<string>)
    requires NoGuard(kids)
    ensures FlatEvents(Flatten(kids), takes, seen) == RanAll(AllSteps(kids))
  {
    NothingGuarded(kids);
    TakenEntries(Flatten(kids), takes, seen);
    FlattenKeepsSteps(kids);
  }

  lemma GuardMatches(g: Guard, kids: Body, takes: Outcomes, seen: set<string>)
    requires NoGuard(kids) && Positive(kids) && (takes(g) || SameGrain(g, kids, seen))
    ensures FlatEvents(Times(Tag(Flatten(kids), g), GuardCopies(g)), takes, seen)
         == if takes(g) then Times(TreeEvents(kids, takes), GuardCopies(g)) else MissedAll(g, StepNames(kids))
  {
    hide FlatEvents, Times, Tag, TreeEvents, MissedAll;
    if takes(g) {
      TakenGuard(kids, g, takes, seen);
      UnguardedEvents(kids, takes);
    } else {
      SkippedGuard(kids, g, takes, seen);
      GrainExactly(g, kids, seen);
    }
  }

  // ---- When the grains are the same ----------------------------------------------------

  predicate NoUntil(body: Body) {
    match body
    case Done => true
    case StepItem(_, rest) => NoUntil(rest)
    case GroupItem(kids, rest) => NoUntil(kids) && NoUntil(rest)
    case ParallelItem(kids, rest) => NoUntil(kids) && NoUntil(rest)
    case RepeatItem(_, kids, rest) => NoUntil(kids) && NoUntil(rest)
    case GuardItem(g, kids, rest) => g.mode.When? && NoUntil(kids) && NoUntil(rest)
  }

  /** No `repeat` inside a guard, and no `until` inside a `repeat`. */
  predicate PlainGuards(body: Body) {
    match body
    case Done => true
    case StepItem(_, rest) => PlainGuards(rest)
    case GroupItem(kids, rest) => PlainGuards(kids) && PlainGuards(rest)
    case ParallelItem(kids, rest) => PlainGuards(kids) && PlainGuards(rest)
    case RepeatItem(_, kids, rest) => PlainGuards(kids) && NoUntil(kids) && PlainGuards(rest)
    case GuardItem(_, kids, rest) => NoRepeat(kids) && PlainGuards(rest)
  }

  lemma {:induction false} FreshBelow(body: Body, small: set<string>, seen: set<string>)
    requires FreshIds(body, seen) && small <= seen
    ensures FreshIds(body, small)
  {
    hide Ids;
    match body
    case Done =>
    case StepItem(step, rest) => FreshBelow(rest, small + {step.id}, seen + {step.id});
    case _ =>
      FreshBelow(body.kids, small, seen);
      FreshBelow(body.rest, small + Ids(AllSteps(body.kids)), seen + Ids(AllSteps(body.kids)));
  }

  /** Without guards or repeats nothing is unrolled. */
  lemma {:induction false} PlainIsSingle(kids: Body)
    requires NoGuard(kids) && NoRepeat(kids)
    ensures SingleCopies(kids)
  {
    match kids
    case Done =>
    case StepItem(_, rest) => PlainIsSingle(rest);
    case GroupItem(inner, rest) => PlainIsSingle(inner); PlainIsSingle(rest);
    case ParallelItem(inner, rest) => PlainIsSingle(inner); PlainIsSingle(rest);
  }

  lemma {:induction false} WhenAligned(body: Body, takes: Outcomes, seen: set<string>)
    requires NonNesting(body) && PlainGuards(body) && NoUntil(body)
    ensures Aligned(body, takes, seen)
  {
    hide Ids, SameGrain;
    match body
    case Done =>
    case StepItem(step, rest) =>
      WhenAligned(rest, takes, seen + {step.id});
    case GroupItem(kids, rest) =>
      WhenAligned(kids, takes, seen);
      WhenAligned(rest, takes, seen + Ids(AllSteps(kids)));
    case ParallelItem(kids, rest) =>
      WhenAligned(rest, takes, seen + Ids(AllSteps(kids)));
    case RepeatItem(count, kids, rest) =>
      WhenAligned(kids, takes, seen);
      WhenAligned(kids, takes, seen + Ids(AllSteps(kids)));
      WhenAligned(rest, takes, seen + if count > 0 then Ids(AllSteps(kids)) else {});
    case GuardItem(g, kids, rest) =>
      PlainGrain(g, kids, seen);
      WhenAligned(rest, takes, seen + Ids(AllSteps(kids)));
  }

  lemma PlainGrain(g: Guard, kids: Body, seen: set<string>)
    requires NoGuard(kids) && NoRepeat(kids) && (g.mode.When? || FreshIds(kids, seen))
    ensures SameGrain(g, kids, seen)
  {
    PlainIsSingle(kids);
  }

  /** In a tree of distinct ids with plain guards every skip is recorded at one grain, whichever
      guards are taken. */
  lemma {:induction false} PlainAligned(body: Body, takes: Outcomes, seen: set<string>)
    requires NonNesting(body) && PlainGuards(body) && FreshIds(body, seen)
    ensures Aligned(body, takes, seen)
  {
    hide Ids, SameGrain;
    match body
    case Done =>
    case StepItem(step, rest) =>
      PlainAligned(rest, takes, seen + {step.id});
    case GroupItem(kids, rest) =>
      PlainAligned(kids, takes, seen);
      PlainAligned(rest, takes, seen + Ids(AllSteps(kids)));
    case ParallelItem(kids, rest) =>
      PlainAligned(rest, takes, seen + Ids(AllSteps(kids)));
    case RepeatItem(count, kids, rest) =>
      WhenAligned(kids, takes, seen);
      WhenAligned(kids, takes, seen + Ids(AllSteps(kids)));
      var next := seen + if count > 0 then Ids(AllSteps(kids)) else {};
      FreshBelow(rest, next, seen + Ids(AllSteps(kids)));
      PlainAligned(rest, takes, next);
    case GuardItem(g, kids, rest) =>
      PlainGrain(g, kids, seen);
      PlainAligned(rest, takes, seen + Ids(AllSteps(kids)));
  }

  /** What the plan plays for a guard item that is not taken. */
  lemma SkippedItem(g: Guard, kids: Body, takes: Outcomes, seen: set<string>)
    requires !takes(g)
    ensures FlatEvents(Flatten(GuardItem(g, kids, Done)), takes, seen)
            == MissedAll(g, PlanNames(g, AllSteps(kids), seen))
    ensures Ids(StepsOf(Flatten(GuardItem(g, kids, Done)))) == Ids(AllSteps(kids))
    ensures TreeEvents(GuardItem(g, kids, Done), takes) == MissedAll(g, StepNames(kids))
  {
    var flats := Times(Tag(Flatten(kids), g), GuardCopies(g));
    SkippedGuard(kids, g, takes, seen);
    assert flats + [] == flats;
    assert MissedAll(g, StepNames(kids)) + [] == MissedAll(g, StepNames(kids));
    FirstSteps(GuardItem(g, kids, Done));
  }

  lemma TwoTimes<T>(xs: seq<T>)
    ensures Times(xs, 2) == xs + xs
  {
    assert Times(xs, 1) == xs;
  }

  lemma {:induction false} MissedAllLength(g: Guard, names: seq<string>)
    ensures |MissedAll(g, names)| == |names|
  {
    if names != [] {
      MissedAllLength(g, names[1..]);
    }
  }

  /** A zero-round `until` that a `repeat` reaches twice is recorded twice by the tree and once by
      the plan, whatever steps it owns. */
  lemma RepeatedUntilLosesRecords(g: Guard, kids: Body, takes: Outcomes)
    requires g.mode.Until? && !takes(g) && Positive(kids) && FreshIds(kids, {}) && StepNames(kids) != []
    ensures var body := RepeatItem(2, GuardItem(g, kids, Done), Done);
            |FlatEvents(Flatten(body), takes, {})| < |TreeEvents(body, takes)|
  {
    hide FlatEvents, Ids, MissedAll, StepNames, Flatten, TreeEvents, Times, StepsOf, FreshIds, Positive;
    var item := GuardItem(g, kids, Done);
    var flats, events := Flatten(item), TreeEvents(item, takes);
    var seen := {} + Ids(StepsOf(flats));
    SkippedItem(g, kids, takes, {});
    SkippedItem(g, kids, takes, seen);
    NothingNew(AllSteps(kids), seen);
    FlatEventsConcat(flats, flats, takes, {});
    TwiceItem(item, takes);
    MissedAllLength(g, PlanNames(g, AllSteps(kids), {}));
    MissedAllLength(g, StepNames(kids));
    MissedAllLength(g, []);
    GrainExactly(g, kids, {});
  }

  lemma TwiceItem(item: Body, takes: Outcomes)
    ensures Flatten(RepeatItem(2, item, Done)) == Flatten(item) + Flatten(item)
    ensures TreeEvents(RepeatItem(2, item, Done), takes) == TreeEvents(item, takes) + TreeEvents(item, takes)
  {
    var flats, events := Flatten(item), TreeEvents(item, takes);
    TwoTimes(flats);
    TwoTimes(events);
    assert (flats + flats) + [] == flats + flats && (events + events) + [] == events + events;
  }

  /** A `repeat` of several rounds inside a skipped `when` is recorded once per unrolled round by the
      plan and once by the tree. */
  lemma RepeatInsideWhenAddsRecords(g: Guard, inner: Body, count: nat, takes: Outcomes, seen: set<string>)
    requires g.mode.When? && !takes(g) && Positive(inner) && StepNames(inner) != [] && count > 1
    ensures var body := GuardItem(g, RepeatItem(count, inner, Done), Done);
            |FlatEvents(Flatten(body), takes, seen)| > |TreeEvents(body, takes)|
  {
    hide FlatEvents, Ids, MissedAll, Flatten, TreeEvents, Times, StepsOf, FreshIds;
    var kids := RepeatItem(count, inner, Done);
    assert Positive(kids) && !SingleCopies(kids);
    SkippedItem(g, kids, takes, seen);
    GrainExactly(g, kids, seen);
    MissedAllLength(g, PlanNames(g, AllSteps(kids), seen));
    MissedAllLength(g, StepNames(kids));
  }

  // ---- The whole body ------------------------------------------------------------------

  /** How many records of skipped guards of one mode the events hold. */
  function Misses(events: seq<Event>, mode: GuardMode): nat {
    if events == [] then 0
    else (if events[0].Missed? && events[0].entry.mode == mode then 1 else 0) + Misses(events[1..], mode)
  }

  lemma {:induction false} MissesConcat(a: seq<Event>, b: seq<Event>, mode: GuardMode)
    ensures Misses(a + b, mode) == Misses(a, mode) + Misses(b, mode)
  {
    if a == [] {
      assert a + b == b;
    } else {
      assert (a + b)[1..] == a[1..] + b;
      MissesConcat(a[1..], b, mode);
    }
  }

  lemma {:induction false} MissesOfSkip(g: Guard, names: seq<string>, mode: GuardMode)
    ensures Misses(MissedAll(g, names), mode) == if g.mode == mode then |names| else 0
  {
    if names != [] {
      MissesOfSkip(g, names[1..], mode);
      assert MissedAll(g, names)[1..] == MissedAll(g, names[1..]);
    }
  }

  lemma {:induction false} NoMisses(steps: seq<Step>, mode: GuardMode)
    ensures Misses(RanAll(steps), mode) == 0
  {
    if steps != [] {
      NoMisses(steps[1..], mode);
      assert RanAll(steps)[1..] == RanAll(steps[1..]);
    }
  }

  /** The plan records no fewer skips of `when` and no more skips of `until`. */
  predicate Between(plan: seq<Event>, tree: seq<Event>) {
    Misses(plan, When) >= Misses(tree, When) && Misses(plan, Until) <= Misses(tree, Until)
  }

  predicate Even(plan: seq<Event>, tree: seq<Event>) {
    Misses(plan, When) == Misses(tree, When) && Misses(plan, Until) == Misses(tree, Until)
  }

  lemma BetweenBoth(a: seq<Event>, b: seq<Event>, x: seq<Event>, y: seq<Event>)
    requires Between(a, x) && Between(b, y)
    ensures Between(a + b, x + y) && (Even(a + b, x + y) ==> Even(a, x) && Even(b, y))
  {
    MissesConcat(a, b, When);
    MissesConcat(a, b, Until);
    MissesConcat(x, y, When);
    MissesConcat(x, y, Until);
  }

  lemma {:induction false} RoundsBetween(kids: Body, takes: Outcomes, seen: set<string>, n: nat)
    requires NonNesting(kids) && Positive(kids)
    ensures Between(FlatEvents(Times(Flatten(kids), n), takes, seen), Times(TreeEvents(kids, takes), n))
    ensures Even(FlatEvents(Times(Flatten(kids), n), takes, seen), Times(TreeEvents(kids, takes), n)) ==>
              (n > 0 ==> Aligned(kids, takes, seen)) && (n > 1 ==> Aligned(kids, takes, seen + Ids(AllSteps(kids))))
    decreases kids, 1, n
  {
    hide EntryEvents, Ids, Aligned, TreeEvents, NonNesting, Positive, Flatten, Between, Even;
    if n == 0 {
      NothingBetween(takes, seen);
    } else {
      hide FlatEvents;
      var flats, events := Flatten(kids), TreeEvents(kids, takes);
      var before := seen + Ids(StepsOf(Times(flats, n - 1)));
      RoundsBetween(kids, takes, seen, n - 1);
      FlatEventsConcat(Times(flats, n - 1), flats, takes, seen);
      FlattenKeepsSteps(kids);
      StepsOfTimes(flats, n - 1);
      IdsTimes(AllSteps(kids), n - 1);
      assert before == if n == 1 then seen else seen + Ids(AllSteps(kids));
      BodyBetween(kids, takes, before);
      BetweenBoth(FlatEvents(Times(flats, n - 1), takes, seen), FlatEvents(flats, takes, before),
                  Times(events, n - 1), events);
    }
  }

  lemma NothingBetween(takes: Outcomes, seen: set<string>)
    ensures Between(FlatEvents([], takes, seen), []) && Even(FlatEvents([], takes, seen), [])
  {
  }

  lemma SameBetween(events: seq<Event>)
    ensures Between(events, events) && Even(events, events)
  {
  }

  lemma GuardBetween(g: Guard, kids: Body, takes: Outcomes, seen: set<string>)
    requires NoGuard(kids) && Positive(kids)
    ensures var plan := FlatEvents(Times(Tag(Flatten(kids), g), GuardCopies(g)), takes, seen);
            var tree := if takes(g) then Times(TreeEvents(kids, takes), GuardCopies(g))
                else MissedAll(g, StepNames(kids));
            Between(plan, tree) && (Even(plan, tree) ==> takes(g) || SameGrain(g, kids, seen))
  {
    hide FlatEvents, Times, Tag, TreeEvents, MissedAll, StepNames, PlanNames, AllSteps, SameGrain;
    if takes(g) {
      TakenGuard(kids, g, takes, seen);
      UnguardedEvents(kids, takes);
      SameBetween(Times(TreeEvents(kids, takes), GuardCopies(g)));
    } else {
      SkippedGuard(kids, g, takes, seen);
      GrainExactly(g, kids, seen);
      MissesOfSkip(g, PlanNames(g, AllSteps(kids), seen), When);
      MissesOfSkip(g, PlanNames(g, AllSteps(kids), seen), Until);
      MissesOfSkip(g, StepNames(kids), When);
      MissesOfSkip(g, StepNames(kids), Until);
    }
  }

  lemma FirstBetween(body: Body, takes: Outcomes, seen: set<string>)
    requires !body.Done? && NonNesting(body) && Positive(body)
    ensures Between(FlatEvents(Flatten(FirstItem(body)), takes, seen), FirstEvents(body, takes))
    ensures Even(FlatEvents(Flatten(FirstItem(body)), takes, seen), FirstEvents(body, takes)) ==>
              Aligned(FirstItem(body), takes, seen)
    decreases body, 0, 0
  {
    hide Ids, Between, Even, FlatEvents, SameGrain;
    match body
    case StepItem(step, _) =>
      FirstMatches(FirstItem(body), takes, seen);
      SameBetween([Ran(step)]);
    case GroupItem(kids, _) =>
      BodyBetween(kids, takes, seen);
      assert Flatten(kids) + [] == Flatten(kids);
    case ParallelItem(kids, _) =>
      BlockMatches(kids, takes, seen);
      SameBetween(RanAll(AllSteps(kids)));
      assert Flatten(kids) + [] == Flatten(kids);
    case RepeatItem(count, kids, _) =>
      RoundsBetween(kids, takes, seen, count);
      assert Times(Flatten(kids), count) + [] == Times(Flatten(kids), count);
    case GuardItem(g, kids, _) =>
      GuardBetween(g, kids, takes, seen);
      var flats := Times(Tag(Flatten(kids), g), GuardCopies(g));
      assert flats + [] == flats;
  }

  lemma {:induction false} BodyBetween(body: Body, takes: Outcomes, seen: set<string>)
    requires NonNesting(body) && Positive(body)
    ensures Between(FlatEvents(Flatten(body), takes, seen), TreeEvents(body, takes))
    ensures Even(FlatEvents(Flatten(body), takes, seen), TreeEvents(body, takes)) ==> Aligned(body, takes, seen)
    decreases body, 0
  {
    hide EntryEvents, Ids, Between, Even;
    if body.Done? {
      NothingBetween(takes, seen);
    } else {
      hide FlatEvents, Times, MissedAll, SameGrain;
      var first := Flatten(FirstItem(body));
      FlattenSplits(body);
      FirstBetween(body, takes, seen);
      FlatEventsConcat(first, Flatten(body.rest), takes, seen);
      FirstSteps(body);
      var next := seen + Ids(StepsOf(first));
      BodyBetween(body.rest, takes, next);
      BetweenBoth(FlatEvents(first, takes, seen), FlatEvents(Flatten(body.rest), takes, next),
                  FirstEvents(body, takes), TreeEvents(body.rest, takes));
    }
  }

  /** The plan plays the tree's events, skips included, if and only if every guard that is skipped
      is recorded at one grain. */
  lemma PlanMatchesExactly(body: Body, takes: Outcomes, seen: set<string>)
    requires NonNesting(body) && Positive(body)
    ensures FlatEvents(Flatten(body), takes, seen) == TreeEvents(body, takes) <==> Aligned(body, takes, seen)
  {
    hide NonNesting, Positive, Aligned, FlatEvents, TreeEvents, Flatten;
    BodyBetween(body, takes, seen);
    if Aligned(body, takes, seen) {
      PlanMatchesTree(body, takes, seen);
    }
  }
}
