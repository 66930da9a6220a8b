/** How the emitter spells its names (`_field_ident`, `_emit_division`, `_emit_operand`,
    `_emit_condition`, `_emit_alt_condition`, `_render_std` in `impl/lnpl/backend.py`), and when two
    names are spelled alike. */
module SsaNames {
  import opened Wrappers
  import opened Text
  import opened ConditionSyntax
  import opened GuardEmit

  /** `name.replace(".", "__")`. */
  function FieldIdent(name: string): string {
    if name == [] then []
    else if name[0] == '.' then "__" + FieldIdent(name[1..])
    else [name[0]] + FieldIdent(name[1..])
  }

  function IdxParts(idx: Idx): seq<string> {
    match idx
    case Plain(_) => []
    case Alternative(_, n) => [Decimal(n)]
  }

  /** A name the emitter makes up, as its tag, its number and its further parts. */
  datatype Key = Key(tag: string, number: string, rest: seq<string>)

  function KeyOf(x: Name): Key
    requires !x.Field?
  {
    match x
    case Skip => Key("skip", "", [])
    case C0 => Key("c", "0", [])
    case C1 => Key("c", "1", [])
    case TrueI1 => Key("true", "", ["i1"])
    case LitConst(v) => Key("c", if v < 0 then "" else Decimal(v), ["i64"])
    case Tmp(idx, slot) => Key("v", Decimal(idx.i), IdxParts(idx) + [slot])
    case IsZero(idx, slot) => Key("z", Decimal(idx.i), IdxParts(idx) + [slot])
    case SafeRight(idx, slot) => Key("sr", Decimal(idx.i), IdxParts(idx) + [slot])
    case Cond(idx) => Key("cond", Decimal(idx.i), IdxParts(idx))
    case UntilCond(idx) => Key("ucond", Decimal(idx.i), IdxParts(idx))
    case TermCond(idx, n) => Key("cond", Decimal(idx.i), IdxParts(idx) + [Decimal(n)])
    case AndFold(idx, n) => Key("and", Decimal(idx.i), IdxParts(idx) + [Decimal(n)])
    case OrFold(i, n) => Key("or", Decimal(i), [Decimal(n)])
    case SkipFlag(i) => Key("skip", Decimal(i), [])
    case StepPtr(i) => Key("p", Decimal(i), [])
    case StepIndex(i) => Key("i", Decimal(i), [])
    case StepResult(i) => Key("r", Decimal(i), [])
    case KindPtr(i, n) => Key("k", Decimal(i), [Decimal(n)])
  }

  /** The spelling of a name, without its leading `%`. */
  function Spell(x: Name): string {
    match x
    case Field(ref) => FieldIdent(ref)
    case _ => Join([KeyOf(x).tag + KeyOf(x).number] + KeyOf(x).rest, "_")
  }

  lemma SpelledOne(x: Name, head: string)
    requires !x.Field? && KeyOf(x).tag + KeyOf(x).number == head && KeyOf(x).rest == []
    ensures Spell(x) == head
  {
    hide KeyOf;
    assert [head] + [] == [head];
  }

  lemma SpelledTwo(x: Name, head: string, a: string)
    requires !x.Field? && KeyOf(x).tag + KeyOf(x).number == head && KeyOf(x).rest == [a]
    ensures Spell(x) == head + "_" + a
  {
    hide KeyOf;
    assert [head] + [a] == [head, a] && [head, a][1..] == [a];
    assert Join([a], "_") == a;
  }

  lemma SpelledThree(x: Name, head: string, a: string, b: string)
    requires !x.Field? && KeyOf(x).tag + KeyOf(x).number == head && KeyOf(x).rest == [a, b]
    ensures Spell(x) == head + "_" + a + "_" + b
  {
    hide KeyOf;
    assert [head] + [a, b] == [head, a, b] && [head, a, b][1..] == [a, b] && [a, b][1..] == [b];
    assert Join([a, b], "_") == a + "_" + b;
    assert head + "_" + (a + "_" + b) == head + "_" + a + "_" + b;
  }

  /** The spellings of an op's own names. */
  lemma OpSpellings(i: nat, n: nat)
    ensures Spell(StepPtr(i)) == "p" + Decimal(i) && Spell(StepIndex(i)) == "i" + Decimal(i)
    ensures Spell(StepResult(i)) == "r" + Decimal(i) && Spell(SkipFlag(i)) == "skip" + Decimal(i)
    ensures Spell(KindPtr(i, n)) == "k" + Decimal(i) + "_" + Decimal(n)
  {
    hide Spell, Decimal;
    var d := Decimal(i);
    SpelledOne(StepPtr(i), "p" + d);
    SpelledOne(StepIndex(i), "i" + d);
    SpelledOne(StepResult(i), "r" + d);
    SpelledOne(SkipFlag(i), "skip" + d);
    SpelledTwo(KindPtr(i, n), "k" + d, Decimal(n));
  }

  /** The spellings of the parameter and of the constants. */
  lemma ConstantSpellings(n: nat)
    ensures Spell(Skip) == "skip" && Spell(C0) == "c0" && Spell(C1) == "c1" && Spell(TrueI1) == "true_i1"
    ensures Spell(LitConst(n)) == "c" + Decimal(n) + "_i64"
  {
    hide Spell, Decimal;
    SpelledOne(Skip, "skip");
    SpelledOne(C0, "c0");
    SpelledOne(C1, "c1");
    SpelledTwo(TrueI1, "true", "i1");
    SpelledTwo(LitConst(n), "c" + Decimal(n), "i64");
  }

  /** The spellings of an operand's names, of a guard's own condition and of an alternative. */
  lemma OperandSpellings(i: nat, a: nat, slot: string)
    ensures Spell(Tmp(Plain(i), slot)) == "v" + Decimal(i) + "_" + slot
    ensures Spell(IsZero(Plain(i), slot)) == "z" + Decimal(i) + "_" + slot
    ensures Spell(SafeRight(Plain(i), slot)) == "sr" + Decimal(i) + "_" + slot
    ensures Spell(Tmp(Alternative(i, a), slot)) == "v" + Decimal(i) + "_" + Decimal(a) + "_" + slot
  {
    hide Spell, Decimal;
    var d := Decimal(i);
    SpelledTwo(Tmp(Plain(i), slot), "v" + d, slot);
    SpelledTwo(IsZero(Plain(i), slot), "z" + d, slot);
    SpelledTwo(SafeRight(Plain(i), slot), "sr" + d, slot);
    SpelledThree(Tmp(Alternative(i, a), slot), "v" + d, Decimal(a), slot);
  }

  /** The spellings of the truth of a guard, of its terms and of the folds over them. */
  lemma TruthSpellings(i: nat, n: nat)
    ensures Spell(Cond(Plain(i))) == "cond" + Decimal(i) && Spell(UntilCond(Plain(i))) == "ucond" + Decimal(i)
    ensures Spell(Cond(Alternative(i, n))) == "cond" + Decimal(i) + "_" + Decimal(n)
    ensures Spell(TermCond(Plain(i), n)) == "cond" + Decimal(i) + "_" + Decimal(n)
    ensures Spell(AndFold(Plain(i), n)) == "and" + Decimal(i) + "_" + Decimal(n)
    ensures Spell(OrFold(i, n)) == "or" + Decimal(i) + "_" + Decimal(n)
  {
    hide Spell, Decimal;
    var d, e := Decimal(i), Decimal(n);
    SpelledOne(Cond(Plain(i)), "cond" + d);
    SpelledOne(UntilCond(Plain(i)), "ucond" + d);
    SpelledTwo(Cond(Alternative(i, n)), "cond" + d, e);
    SpelledTwo(TermCond(Plain(i), n), "cond" + d, e);
    SpelledTwo(AndFold(Plain(i), n), "and" + d, e);
    SpelledTwo(OrFold(i, n), "or" + d, e);
  }

  // ---- Parts ---------------------------------------------------------------------------

  predicate Solid(part: string) {
    '_' !in part
  }

  predicate AllSolid(parts: seq<string>) {
    forall k :: 0 <= k < |parts| ==> Solid(parts[k])
  }

  function FirstBar(s: string): (k: nat)
    ensures k <= |s| && (forall j :: 0 <= j < k ==> s[j] != '_') && (k < |s| ==> s[k] == '_')
  {
    if s == [] || s[0] == '_' then 0 else 1 + FirstBar(s[1..])
  }

  lemma FirstBarIs(a: string, b: string)
    requires Solid(a) && (b == [] || b[0] == '_')
    ensures FirstBar(a + b) == |a|
  {
    var s := a + b;
    assert forall j :: 0 <= j < |a| ==> s[j] == a[j];
    if b != [] {
      assert s[|a|] == '_';
    }
  }

  /** What follows the first part. */
  function Tail(parts: seq<string>): string
    requires parts != []
  {
    if |parts| == 1 then "" else "_" + Join(parts[1..], "_")
  }

  lemma JoinIs(parts: seq<string>)
    requires parts != []
    ensures Join(parts, "_") == parts[0] + Tail(parts)
  {
  }

  lemma FirstPart(a: seq<string>)
    requires a != [] && AllSolid(a)
    ensures var s := Join(a, "_"); a[0] == s[..FirstBar(s)] && Tail(a) == s[FirstBar(s)..]
  {
    JoinIs(a);
    FirstBarIs(a[0], Tail(a));
    hide Join, Tail;
    var s := a[0] + Tail(a);
    assert s[..|a[0]|] == a[0] && s[|a[0]|..] == Tail(a);
  }

  lemma {:induction false} JoinInjective(a: seq<string>, b: seq<string>)
    requires a != [] && b != [] && AllSolid(a) && AllSolid(b) && Join(a, "_") == Join(b, "_")
    ensures a == b
  {
    hide Join, Solid;
    FirstPart(a);
    FirstPart(b);
    if |a| > 1 && |b| > 1 {
      assert Tail(a)[1..] == Join(a[1..], "_") && Tail(b)[1..] == Join(b[1..], "_");
      JoinInjective(a[1..], b[1..]);
      assert a == [a[0]] + a[1..] && b == [b[0]] + b[1..];
    }
  }

  predicate Letters(s: string) {
    forall k :: 0 <= k < |s| ==> 'a' <= s[k] <= 'z'
  }

  function LetterRun(s: string): (k: nat)
    ensures k <= |s| && (forall j :: 0 <= j < k ==> 'a' <= s[j] <= 'z') && (k < |s| ==> !('a' <= s[k] <= 'z'))
  {
    if s == [] || !('a' <= s[0] <= 'z') then 0 else 1 + LetterRun(s[1..])
  }

  lemma LetterRunIs(t: string, n: string)
    requires Letters(t) && AllDigits(n)
    ensures LetterRun(t + n) == |t|
  {
    var s := t + n;
    assert forall j :: 0 <= j < |t| ==> s[j] == t[j];
    if n != [] {
      assert s[|t|] == n[0];
    }
  }

  lemma TagAndNumber(t: string, n: string, u: string, m: string)
    requires Letters(t) && Letters(u) && AllDigits(n) && AllDigits(m) && t + n == u + m
    ensures t == u && n == m
  {
    LetterRunIs(t, n);
    LetterRunIs(u, m);
    assert t == (t + n)[..|t|] && n == (t + n)[|t|..];
    assert u == (u + m)[..|u|] && m == (u + m)[|u|..];
  }

  // ---- Names the emitter makes up ------------------------------------------------------

  /** Operand slots have no underscore, constants no sign. */
  predicate Wellformed(x: Name) {
    match x
    case LitConst(v) => v >= 0
    case Tmp(_, slot) => Solid(slot)
    case IsZero(_, slot) => Solid(slot)
    case SafeRight(_, slot) => Solid(slot)
    case _ => true
  }

  lemma DigitsSolid(n: nat)
    ensures Solid(Decimal(n))
  {
  }

  lemma KeyParts(x: Name)
    requires !x.Field? && Wellformed(x)
    ensures var k := KeyOf(x); Letters(k.tag) && AllDigits(k.number) && AllSolid([k.tag + k.number] + k.rest)
  {
    var k := KeyOf(x);
    forall j | 0 <= j < |k.tag + k.number| ensures (k.tag + k.number)[j] != '_' {
      if j >= |k.tag| {
        assert IsDigit(k.number[j - |k.tag|]);
      }
    }
  }

  lemma SpelledAlike(x: Name, y: Name)
    requires !x.Field? && !y.Field? && Wellformed(x) && Wellformed(y) && Spell(x) == Spell(y)
    ensures KeyOf(x) == KeyOf(y)
  {
    KeyParts(x);
    KeyParts(y);
    hide KeyOf, AllSolid, Letters;
    var k, m := KeyOf(x), KeyOf(y);
    JoinInjective([k.tag + k.number] + k.rest, [m.tag + m.number] + m.rest);
    var a, b := [k.tag + k.number] + k.rest, [m.tag + m.number] + m.rest;
    assert a[0] == b[0] && a[1..] == k.rest && b[1..] == m.rest;
    TagAndNumber(k.tag, k.number, m.tag, m.number);
  }

  /** The index a name carries, for the names of a guard. */
  function IdxOf(x: Name): Option<Idx> {
    match x
    case Tmp(idx, _) => Some(idx)
    case IsZero(idx, _) => Some(idx)
    case SafeRight(idx, _) => Some(idx)
    case Cond(idx) => Some(idx)
    case UntilCond(idx) => Some(idx)
    case TermCond(idx, _) => Some(idx)
    case AndFold(idx, _) => Some(idx)
    case _ => None
  }

  /** The steps in `alternatives` number their guard's names per alternative, the others do not. */
  predicate Indexed(x: Name, alternatives: set<nat>) {
    var idx := IdxOf(x);
    idx.Some? ==> (idx.value.Alternative? <==> idx.value.i in alternatives)
  }

  lemma IdxPartsInjective(a: Idx, b: Idx, x: string, y: string)
    requires Decimal(a.i) == Decimal(b.i) && IdxParts(a) + [x] == IdxParts(b) + [y]
    ensures a == b && x == y
  {
    DecimalInjective(a.i, b.i);
    assert (IdxParts(a) + [x])[|IdxParts(a)|] == x && (IdxParts(b) + [y])[|IdxParts(b)|] == y;
    if a.Alternative? && b.Alternative? {
      assert (IdxParts(a) + [x])[0] == Decimal(a.n) && (IdxParts(b) + [y])[0] == Decimal(b.n);
      DecimalInjective(a.n, b.n);
    }
  }

  lemma SameIdx(a: Idx, b: Idx)
    requires Decimal(a.i) == Decimal(b.i) && IdxParts(a) == IdxParts(b)
    ensures a == b
  {
    IdxPartsInjective(a, b, "", "");
  }

  lemma OneNumber(i: nat, j: nat)
    ensures Decimal(i) == Decimal(j) ==> i == j
  {
    if Decimal(i) == Decimal(j) {
      DecimalInjective(i, j);
    }
  }

  /** Two made-up names of one module are spelled alike only if they are the same name. */
  lemma SpellingInjective(x: Name, y: Name, alternatives: set<nat>)
    requires !x.Field? && !y.Field? && Wellformed(x) && Wellformed(y) && Spell(x) == Spell(y)
    requires Indexed(x, alternatives) && Indexed(y, alternatives)
    ensures x == y
  {
    SpelledAlike(x, y);
    hide Spell, Wellformed;
    if IdxOf(x).Some? && IdxOf(y).Some? {
      GuardNamesDiffer(x, y, alternatives);
    } else {
      TagsDiffer(x, y);
    }
  }

  lemma GuardNamesDiffer(x: Name, y: Name, alternatives: set<nat>)
    requires IdxOf(x).Some? && IdxOf(y).Some? && Indexed(x, alternatives) && Indexed(y, alternatives)
    requires KeyOf(x) == KeyOf(y)
    ensures x == y
  {
    hide Decimal;
    var a, b := IdxOf(x).value, IdxOf(y).value;
    OneNumber(a.i, b.i);
    if (x.Cond? && y.Cond?) || (x.UntilCond? && y.UntilCond?) {
      SameIdx(a, b);
    } else if !x.Cond? && !y.Cond? {
      var s, t := KeyOf(x).rest[|KeyOf(x).rest| - 1], KeyOf(y).rest[|KeyOf(y).rest| - 1];
      IdxPartsInjective(a, b, s, t);
      if x.TermCond? || x.AndFold? {
        OneNumber(x.n, y.n);
      }
    }
  }

  lemma TagsDiffer(x: Name, y: Name)
    requires !x.Field? && !y.Field? && (IdxOf(x).None? || IdxOf(y).None?) && KeyOf(x) == KeyOf(y)
    requires (x.LitConst? ==> x.value >= 0) && (y.LitConst? ==> y.value >= 0)
    ensures x == y
  {
    hide Decimal;
    match x
    case LitConst(v) => if y.LitConst? { OneNumber(v, y.value); }
    case OrFold(i, n) => if y.OrFold? { OneNumber(i, y.i); OneNumber(n, y.n); }
    case SkipFlag(i) => if y.SkipFlag? { OneNumber(i, y.i); }
    case StepPtr(i) => if y.StepPtr? { OneNumber(i, y.i); }
    case StepIndex(i) => if y.StepIndex? { OneNumber(i, y.i); }
    case StepResult(i) => if y.StepResult? { OneNumber(i, y.i); }
    case KindPtr(i, n) => if y.KindPtr? { OneNumber(i, y.i); OneNumber(n, y.n); }
    case _ =>
  }

  // ---- Condition fields ----------------------------------------------------------------

  predicate Qualified(ref: string) {
    DotAt(ref) < |ref|
  }

  lemma {:induction false} IdentOfSolid(name: string, rest: string)
    requires '.' !in name
    ensures FieldIdent(name + rest) == name + FieldIdent(rest)
  {
    if name == [] {
      assert name + rest == rest;
    } else {
      assert (name + rest)[1..] == name[1..] + rest;
      IdentOfSolid(name[1..], rest);
    }
  }

  lemma CamelIsSolid(u: CharClass, name: string)
    requires u.Sane() && IsCamelName(u, name)
    ensures name != [] && Solid(name) && '.' !in name
  {
    forall k | 0 <= k < |name| ensures name[k] != '_' && name[k] != '.' {
      assert u.alnum(name[k]);
    }
  }

  /** The parts of a field's identifier: an empty one where the dot was. */
  function FieldParts(ref: string): seq<string> {
    var k := DotAt(ref);
    if k < |ref| then [ref[..k], "", ref[k + 1..]] else [ref]
  }

  lemma DottedIdent(a: string, b: string)
    requires '.' !in a && '.' !in b
    ensures FieldIdent(a + "." + b) == a + ("__" + b)
  {
    assert a + "." + b == a + ("." + b) && ("." + b)[1..] == b && b + [] == b;
    IdentOfSolid(a, "." + b);
    IdentOfSolid(b, []);
    assert FieldIdent([]) == [] && b + FieldIdent([]) == b;
  }

  lemma DottedJoin(a: string, b: string)
    ensures Join([a, "", b], "_") == a + ("__" + b)
  {
    assert [a, "", b][1..] == ["", b] && ["", b][1..] == [b];
    assert Join(["", b], "_") == "" + "_" + b;
    assert "_" + ("" + "_" + b) == "__" + b;
    Assoc(a, "_", "" + "_" + b);
  }

  lemma FieldSpelling(u: CharClass, ref: string)
    requires u.Sane() && IsReference(u, ref)
    ensures AllSolid(FieldParts(ref)) && Join(FieldParts(ref), "_") == FieldIdent(ref) && FieldParts(ref)[0] != ""
    ensures Qualified(ref) ==> ref == FieldParts(ref)[0] + "." + FieldParts(ref)[2] && "" in FieldParts(ref)
  {
    var k := DotAt(ref);
    CamelIsSolid(u, ref[..k]);
    if k < |ref| {
      var a, b := ref[..k], ref[k + 1..];
      CamelIsSolid(u, b);
      hide CharClass.Sane, IsReference, IsCamelName, FieldIdent, Join;
      assert ref == a + "." + b;
      DottedIdent(a, b);
      DottedJoin(a, b);
      assert FieldParts(ref)[1] == "";
    } else {
      hide CharClass.Sane, IsReference, IsCamelName;
      assert ref[..k] == ref && ref + [] == ref;
      IdentOfSolid(ref, []);
    }
  }

  /** The identifier of a condition field determines the field. */
  lemma FieldIdentInjective(u: CharClass, a: string, b: string)
    requires u.Sane() && IsReference(u, a) && IsReference(u, b) && FieldIdent(a) == FieldIdent(b)
    ensures a == b
  {
    FieldSpelling(u, a);
    FieldSpelling(u, b);
    hide FieldIdent, AllSolid, Join;
    JoinInjective(FieldParts(a), FieldParts(b));
    assert |FieldParts(a)| == |FieldParts(b)|;
  }

  /** A field and a made-up name share their parts when they are spelled alike. */
  lemma FieldLike(u: CharClass, ref: string, x: Name)
    requires u.Sane() && IsReference(u, ref) && !x.Field? && Wellformed(x) && Spell(x) == FieldIdent(ref)
    ensures FieldParts(ref) == [KeyOf(x).tag + KeyOf(x).number] + KeyOf(x).rest
  {
    FieldSpelling(u, ref);
    KeyParts(x);
    hide FieldIdent, KeyOf, AllSolid, Join;
    JoinInjective(FieldParts(ref), [KeyOf(x).tag + KeyOf(x).number] + KeyOf(x).rest);
  }

  /** The parts of a made-up name are not empty, if its slot is not. */
  predicate SlotGiven(x: Name) {
    match x
    case Tmp(_, slot) => slot != ""
    case IsZero(_, slot) => slot != ""
    case SafeRight(_, slot) => slot != ""
    case _ => true
  }

  /** A qualified reference is never spelled like a name the emitter makes up. */
  lemma QualifiedNeverCollides(u: CharClass, ref: string, x: Name)
    requires u.Sane() && IsReference(u, ref) && Qualified(ref) && !x.Field? && Wellformed(x) && SlotGiven(x)
    ensures Spell(x) != FieldIdent(ref)
  {
    assert FieldParts(ref)[1] == "";
    MadeParts(x);
    hide KeyOf, FieldParts, Spell, FieldIdent;
    if Spell(x) == FieldIdent(ref) {
      FieldLike(u, ref, x);
    }
  }

  lemma MadeParts(x: Name)
    requires !x.Field? && SlotGiven(x)
    ensures forall k :: 1 <= k < |[KeyOf(x).tag + KeyOf(x).number] + KeyOf(x).rest| ==>
              ([KeyOf(x).tag + KeyOf(x).number] + KeyOf(x).rest)[k] != ""
  {
  }

  lemma LonePart(part: string)
    ensures Join([part], "_") == part
  {
  }
}
