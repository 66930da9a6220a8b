/** What effects ask of the store and what they write to it: effects run alike on stores that agree
    on what they ask, and leave alone what they do not write. */
module Footprint {
  import opened Wrappers
  import opened Workflow
  import opened Attempts

  /** Executing the effect looks at the cell. */
  predicate Asks(effect: Effect, c: Cell) {
    match effect
    case RepositoryCall(op, e) => !op.Query? && c == Row(e)
    case Assignment(e, _) => c == Bound(e)
    case _ => false
  }

  predicate Untouched(effects: seq<Effect>, tainted: set<Cell>) {
    forall k, c :: 0 <= k < |effects| && Asks(effects[k], c) ==> c !in tainted
  }

  function Writes(effect: Effect): set<Cell> {
    match effect
    case RepositoryCall(Read, e) => {Bound(e)}
    case RepositoryCall(Create, e) => {Row(e)}
    case RepositoryCall(Delete, e) => {Row(e)}
    case Assignment(e, _) => {Row(e)}
    case _ => {}
  }

  function Written(effects: seq<Effect>): set<Cell> {
    if effects == [] then {} else Writes(effects[0]) + Written(effects[1..])
  }

  /** The cells the effects ask about, and the rows they write. */
  function Touched(effects: seq<Effect>): set<Cell> {
    if effects == [] then {}
    else
      (match effects[0]
       case RepositoryCall(op, e) => if op.Query? then {} else {Row(e)}
       case Assignment(e, _) => {Row(e), Bound(e)}
       case _ => {})
      + Touched(effects[1..])
  }

  /** An effect that cannot fail, as far as the document says, and writes nothing. */
  predicate Harmless(effect: Effect) {
    match effect
    case RepositoryCall(op, _) => op.Query?
    case CacheAccess(cache) => !cache.Set?
    case Validation(rejects) => !rejects
    case Assignment(_, _) => false
    case _ => true
  }

  lemma {:induction false} HarmlessRuns(effects: seq<Effect>, store: Store, cfg: Config)
    requires cfg.faults == {} && forall i :: 0 <= i < |effects| ==> Harmless(effects[i])
    ensures !RunEffects(effects, store, cfg).failed && Written(effects) == {}
  {
    if effects != [] {
      HarmlessRuns(effects[1..], After(effects[0], store), cfg);
    }
  }

  /** The same cells, outside the tainted ones. */
  ghost predicate Agree(a: Store, b: Store, tainted: set<Cell>) {
    forall c :: c !in tainted ==> (c in a <==> c in b)
  }

  lemma RaisesAlike(effect: Effect, a: Store, b: Store, cfg: Config)
    requires forall c :: Asks(effect, c) ==> (c in a <==> c in b)
    ensures Raises(effect, a, cfg) == Raises(effect, b, cfg)
  {
    if effect.RepositoryCall? && !effect.op.Query? {
      assert Asks(effect, Row(effect.entity));
    } else if effect.Assignment? {
      assert Asks(effect, Bound(effect.entity));
    }
  }

  lemma FirstAgrees(effect: Effect, a: Store, b: Store, tainted: set<Cell>, cfg: Config)
    requires (forall c :: Asks(effect, c) ==> c !in tainted) && Agree(a, b, tainted)
    ensures Raises(effect, a, cfg) == Raises(effect, b, cfg)
    ensures Agree(After(effect, a), After(effect, b), tainted)
  {
    RaisesAlike(effect, a, b, cfg);
  }

  lemma {:induction false} SameOutcome(effects: seq<Effect>, a: Store, b: Store, tainted: set<Cell>, cfg: Config)
    requires Untouched(effects, tainted) && Agree(a, b, tainted)
    ensures var x, y := RunEffects(effects, a, cfg), RunEffects(effects, b, cfg);
            x.failed == y.failed && x.kinds == y.kinds && Agree(x.store, y.store, tainted)
  {
    if effects != [] {
      FirstAgrees(effects[0], a, b, tainted, cfg);
      if !Raises(effects[0], a, cfg) {
        hide Raises, After, Agree, Asks;
        assert forall k :: 0 <= k < |effects| - 1 ==> effects[1..][k] == effects[k + 1];
        SameOutcome(effects[1..], After(effects[0], a), After(effects[0], b), tainted, cfg);
      }
    }
  }

  lemma {:induction false} OnlyWritten(effects: seq<Effect>, store: Store, cfg: Config)
    ensures Agree(RunEffects(effects, store, cfg).store, store, Written(effects))
  {
    if effects != [] && !Raises(effects[0], store, cfg) {
      OnlyWritten(effects[1..], After(effects[0], store), cfg);
    }
  }

  lemma AgreeWider(a: Store, b: Store, c: Store, small: set<Cell>, wide: set<Cell>)
    requires Agree(a, b, small) && Agree(b, c, wide)
    ensures Agree(a, c, small + wide)
  {
    forall e | e !in small + wide ensures e in a <==> e in c {
      assert e in a <==> e in b;
    }
  }

  lemma {:induction false} WrittenRowIsTouched(effects: seq<Effect>, c: Cell)
    requires c in Written(effects) && c.Row?
    ensures c in Touched(effects)
  {
    if c !in Writes(effects[0]) {
      WrittenRowIsTouched(effects[1..], c);
    }
  }

  lemma {:induction false} AskedIsTouched(effects: seq<Effect>, k: nat, c: Cell)
    requires k < |effects| && Asks(effects[k], c)
    ensures c in Touched(effects)
  {
    if k > 0 {
      AskedIsTouched(effects[1..], k - 1, c);
    }
  }

  /** On stores that agree on what the effects touch, they do the same. */
  lemma SameOnTouched(effects: seq<Effect>, a: Store, b: Store, cfg: Config)
    requires forall c :: c in Touched(effects) ==> (c in a <==> c in b)
    ensures var x, y := RunEffects(effects, a, cfg), RunEffects(effects, b, cfg);
            && x.failed == y.failed && x.kinds == y.kinds
            && forall c :: c in Touched(effects) ==> (c in x.store <==> c in y.store)
  {
    hide RunEffects, Touched, Asks;
    var tainted := (a + b) - Touched(effects);
    forall k, c | 0 <= k < |effects| && Asks(effects[k], c) ensures c !in tainted {
      AskedIsTouched(effects, k, c);
    }
    assert Agree(a, b, tainted);
    SameOutcome(effects, a, b, tainted, cfg);
  }

  // ---- What a step binds ---------------------------------------------------------------

  /** The entities that the first `n` effects read. */
  function ReadAmong(effects: seq<Effect>, n: nat): set<string>
    requires n <= |effects|
  {
    if n == 0 then {}
    else
      (if effects[0].RepositoryCall? && effects[0].op.Read? then {effects[0].entity} else {})
      + ReadAmong(effects[1..], n - 1)
  }

  /** The effects of an attempt that succeed. */
  function Succeeded(a: Attempt): nat
    requires a.failed ==> a.kinds != []
  {
    if a.failed then |a.kinds| - 1 else |a.kinds|
  }

  /** An attempt binds exactly what it reads, and nothing is ever unbound. */
  lemma {:induction false} BindsWhatItReads(effects: seq<Effect>, store: Store, cfg: Config, e: string)
    ensures var a := RunEffects(effects, store, cfg);
            Bound(e) in a.store <==> Bound(e) in store || e in ReadAmong(effects, Succeeded(a))
  {
    if effects != [] && !Raises(effects[0], store, cfg) {
      hide Raises;
      BindsWhatItReads(effects[1..], After(effects[0], store), cfg, e);
    }
  }

  lemma {:induction false} ReadIsWritten(effects: seq<Effect>, e: string)
    ensures e in ReadAmong(effects, |effects|) <==> Bound(e) in Written(effects)
  {
    if effects != [] {
      ReadIsWritten(effects[1..], e);
    }
  }
}
