/** Parsing the normalised text of a condition or of an assignment's right-hand side returns
    the tree it was printed from, and every parsed tree can be printed this way. What each piece
    prints is one token, no token contains a blank, and so splitting the joined tokens gives the
    pieces back to the grammar. */
module ConditionRoundTrip {
  import opened Wrappers
  import opened Text
  import opened Conditions
  import opened ConditionSyntax

  ghost predicate WellFormedOperand(u: CharClass, v: Value) {
    match v
    case Ref(name) => IsReference(u, name)
    case Lit(n, _) => 0 <= n <= INT64_MAX
    case Arith(_, _, _) => false
  }

  ghost predicate WellFormedValue(u: CharClass, v: Value) {
    if v.Arith? then WellFormedOperand(u, v.left) && WellFormedOperand(u, v.right)
    else WellFormedOperand(u, v)
  }

  ghost predicate WellFormedTerm(u: CharClass, c: Condition) {
    match c
    case Presence(field, _) => false
    case NumericPredicate(field, _) => IsReference(u, field)
    case Comparison(l, _, r) => WellFormedValue(u, l) && WellFormedValue(u, r)
    case And(_) => false
  }

  ghost predicate WellFormed(u: CharClass, c: Condition) {
    match c
    case Presence(field, _) => IsReference(u, field)
    case And(terms) => |terms| >= 2 && forall i :: 0 <= i < |terms| ==> WellFormedTerm(u, terms[i])
    case _ => WellFormedTerm(u, c)
  }

  ghost predicate WellFormedRhs(u: CharClass, rhs: AssignRhs) {
    match rhs
    case Plain(v) => WellFormedValue(u, v)
    case Aggregate(func, ref) => IsAggregateFunction(func) && IsReference(u, ref)
    case FormatCall(template, args) =>
      && NoneOf(template, u.space) && '"' !in template
      && forall i :: 0 <= i < |args| ==> IsReference(u, args[i])
  }

  // ---- Tokens --------------------------------------------------------------------------

  /** A token that splitting on white space leaves whole. */
  ghost predicate Solid(u: CharClass, tok: string) {
    tok != [] && NoneOf(tok, u.space)
  }

  ghost predicate AllSolid(u: CharClass, toks: seq<string>) {
    forall i :: 0 <= i < |toks| ==> Solid(u, toks[i])
  }

  /** A token that can only be an operand. */
  ghost predicate OperandToken(u: CharClass, tok: string) {
    Solid(u, tok) && ComparatorOf(tok).None? && tok != "and"
  }

  function ValueTokens(v: Value): seq<string> {
    if v.Arith? then [ValueText(v.left), ArithText(v.op), ValueText(v.right)] else [ValueText(v)]
  }

  function ConditionTokens(c: Condition): seq<string> {
    match c
    case Presence(field, k) => [field, PresenceText(k)]
    case NumericPredicate(field, k) => [field, NumericText(k)]
    case Comparison(l, op, r) => ValueTokens(l) + [ComparatorText(op)] + ValueTokens(r)
    case And(terms) => TermTokens(terms)
  }

  function TermTokens(terms: seq<Condition>): seq<string> {
    if terms == [] then []
    else if |terms| == 1 then ConditionTokens(terms[0])
    else ConditionTokens(terms[0]) + ["and"] + TermTokens(terms[1..])
  }

  lemma {:induction false} DecimalIsInt(u: CharClass, n: nat)
    requires u.Sane()
    ensures IsDigits(u, Decimal(n)) && ParseInt(u, Decimal(n)) == Some(n)
  {
    if n < 10 {
      assert Decimal(n)[..0] == [];
    } else {
      DecimalIsInt(u, n / 10);
      assert Decimal(n)[..|Decimal(n)| - 1] == Decimal(n / 10);
    }
  }

  lemma ReferenceToken(u: CharClass, name: string)
    requires u.Sane() && IsReference(u, name)
    ensures name != [] && u.lower(name[0])
    ensures forall i :: 0 <= i < |name| ==> u.alnum(name[i]) || name[i] == '.'
    ensures OperandToken(u, name)
  {
    var k := DotAt(name);
    forall i | 0 <= i < |name| ensures u.alnum(name[i]) || name[i] == '.' {
      if i < k {
        assert name[i] == name[..k][i];
      } else if i > k {
        assert name[i] == name[k + 1..][i - k - 1];
      }
    }
    assert name[0] == name[..k][0];
    assert name[0] != '<' && name[0] != '>' && name[0] != '=' && name[0] != '!';
  }

  lemma NameIsNoDuration(u: CharClass, name: string, units: seq<Unit>)
    requires name != [] && !u.digit(name[0])
    ensures DurationMillis(u, name, units) == Success(None)
  {
    if units != [] {
      if |name| > |units[0].suffix| {
        assert name[..|name| - |units[0].suffix|][0] == name[0];
      }
      NameIsNoDuration(u, name, units[1..]);
    }
  }

  lemma DurationToken(u: CharClass, d: string, unit: Unit)
    requires u.Sane() && d != [] && AllDigits(d) && unit in UnitScan
    ensures !IsDigits(u, d + unit.suffix) && OperandToken(u, d + unit.suffix)
  {
    var tok := d + unit.suffix;
    assert tok[|tok| - 1] == unit.suffix[|unit.suffix| - 1];
    assert u.lower(tok[|tok| - 1]);
    assert IsDigit(tok[0]) by { assert tok[0] == d[0]; }
    forall i | 0 <= i < |tok| ensures u.alnum(tok[i]) {
      if i < |d| { assert tok[i] == d[i]; } else { assert tok[i] == unit.suffix[i - |d|]; }
    }
  }

  /** The printed duration is a count of some unit, and the scan order reads that unit back. */
  lemma DurationParses(u: CharClass, k: nat, unit: Unit)
    requires u.Sane() && unit in UnitScan
    requires k * unit.millis <= INT64_MAX
    ensures DurationMillis(u, Decimal(k) + unit.suffix, UnitScan) == Success(Some(k * unit.millis))
  {
    var d := Decimal(k);
    var tok := d + unit.suffix;
    DecimalIsInt(u, k);
    OwnUnit(u, d, unit.suffix);
    assert tok[..|tok| - |unit.suffix|] == d;
    hide HasUnit, IsDigits, CharClass.Sane, Decimal, ParseInt, DurationMillis;
    NoOtherUnit(u, d, unit);
    ScanFinds(u, tok, unit, k, UnitScan);
  }

  lemma NoOtherUnit(u: CharClass, d: string, unit: Unit)
    requires u.Sane() && d != [] && AllDigits(d) && unit in UnitScan
    ensures forall v :: v in UnitScan && v.suffix == unit.suffix ==> v == unit
    ensures forall v :: v in UnitScan && v.suffix != unit.suffix ==> !HasUnit(u, d + unit.suffix, v.suffix)
  {
    forall v: Unit | v in UnitScan && v.suffix != unit.suffix ensures !HasUnit(u, d + unit.suffix, v.suffix) {
      OtherUnit(u, d, unit, v);
    }
  }

  lemma OwnUnit(u: CharClass, d: string, suffix: string)
    requires IsDigits(u, d)
    ensures HasUnit(u, d + suffix, suffix)
  {
    var tok := d + suffix;
    assert tok[..|tok| - |suffix|] == d && tok[|tok| - |suffix|..] == suffix;
  }

  lemma OtherUnit(u: CharClass, d: string, unit: Unit, other: Unit)
    requires u.Sane() && d != [] && AllDigits(d)
    requires unit in UnitScan && other in UnitScan && unit.suffix != other.suffix
    ensures !HasUnit(u, d + unit.suffix, other.suffix)
  {
    var tok := d + unit.suffix;
    if other.suffix == "ms" {
      assert tok[|tok| - 2] == d[|d| - 1];
      assert tok[|tok| - 2..][0] != 'm';
    } else if unit.suffix == "ms" {
      assert tok[..|tok| - 1][|tok| - 2] == 'm' && u.lower('m');
    } else {
      assert tok[|tok| - 1..][0] == unit.suffix[0];
    }
  }

  lemma {:induction false} ScanFinds(u: CharClass, tok: string, unit: Unit, k: nat, units: seq<Unit>)
    requires unit in units && HasUnit(u, tok, unit.suffix)
    requires forall v :: v in units && v.suffix == unit.suffix ==> v == unit
    requires forall v :: v in units && v.suffix != unit.suffix ==> !HasUnit(u, tok, v.suffix)
    requires ParseInt(u, tok[..|tok| - |unit.suffix|]) == Some(k) && k * unit.millis <= INT64_MAX
    ensures DurationMillis(u, tok, units) == Success(Some(k * unit.millis))
  {
    if units[0] != unit {
      assert units[0] in units;
      ScanFinds(u, tok, unit, k, units[1..]);
    }
  }

  lemma {:induction false} CoarsestUnit(n: nat, units: seq<Unit>) returns (k: nat, unit: Unit)
    requires forall i :: 0 <= i < |units| ==> units[i] in UnitScan
    ensures unit in UnitScan && n == k * unit.millis
    ensures DurationText(n, units) == Decimal(k) + unit.suffix
  {
    if units == [] {
      k, unit := n, UnitScan[0];
    } else if n != 0 && n % units[0].millis == 0 {
      k, unit := n / units[0].millis, units[0];
    } else {
      k, unit := CoarsestUnit(n, units[1..]);
    }
  }

  lemma {:induction false} OperandRoundTrip(u: CharClass, v: Value)
    requires u.Sane() && WellFormedOperand(u, v)
    ensures ParseOperand(u, ValueText(v)) == Success(v)
    ensures OperandToken(u, ValueText(v))
  {
    match v
    case Ref(name) =>
      ReferenceToken(u, name);
      NameIsNoDuration(u, name, UnitScan);
    case Lit(n, isDuration) =>
      if isDuration {
        DurationRoundTrip(u, n);
      } else {
        DecimalToken(u, n);
      }
  }

  lemma DurationRoundTrip(u: CharClass, n: int)
    requires u.Sane() && 0 <= n <= INT64_MAX
    ensures ParseOperand(u, DurationText(n, UnitRender)) == Success(Lit(n, true))
    ensures OperandToken(u, DurationText(n, UnitRender))
  {
    hide CharClass.Sane, OperandToken, HasUnit, IsDigits, DurationText, DurationMillis, ParseInt, IsReference;
    assert forall i :: 0 <= i < |UnitRender| ==> UnitRender[i] in UnitScan;
    var k, unit := CoarsestUnit(n, UnitRender);
    DurationParses(u, k, unit);
    DurationToken(u, Decimal(k), unit);
  }

  lemma DecimalToken(u: CharClass, n: int)
    requires u.Sane() && 0 <= n <= INT64_MAX
    ensures ParseOperand(u, IntText(n)) == Success(Lit(n, false))
    ensures OperandToken(u, IntText(n))
  {
    DecimalIsInt(u, n);
    var tok := Decimal(n);
    assert forall i :: 0 <= i < |tok| ==> IsDigit(tok[i]);
    assert tok[0] != '<' && tok[0] != '>' && tok[0] != '=' && tok[0] != '!' && tok[0] != 'a';
  }

  lemma ValueRoundTrip(u: CharClass, v: Value)
    requires u.Sane() && WellFormedValue(u, v)
    ensures ParseValue(u, ValueTokens(v)) == Success(v)
    ensures forall i :: 0 <= i < |ValueTokens(v)| ==> OperandToken(u, ValueTokens(v)[i])
    ensures Join(ValueTokens(v), " ") == ValueText(v)
  {
    if v.Arith? {
      OperandRoundTrip(u, v.left);
      OperandRoundTrip(u, v.right);
      ArithToken(u, v.op);
      JoinThree(ValueText(v.left), ArithText(v.op), ValueText(v.right));
    } else {
      OperandRoundTrip(u, v);
    }
  }

  lemma ArithToken(u: CharClass, op: ArithOp)
    requires u.Sane()
    ensures OperandToken(u, ArithText(op)) && ArithOf(ArithText(op)) == Some(op)
  {
    assert ArithText(op)[0] in "<>=!+-*/.\"";
  }

  lemma ComparatorToken(u: CharClass, op: Comparator)
    requires u.Sane()
    ensures Solid(u, ComparatorText(op)) && ComparatorOf(ComparatorText(op)) == Some(op)
    ensures ComparatorText(op) != "and"
  {
    assert forall i :: 0 <= i < |ComparatorText(op)| ==> ComparatorText(op)[i] in "<>=!+-*/.\"";
  }

  lemma JoinThree(a: string, b: string, c: string)
    ensures Join([a, b, c], " ") == a + " " + b + " " + c
  {
    assert [a, b, c][1..] == [b, c];
    JoinTwo(b, c);
    assert a + " " + (b + " " + c) == a + " " + b + " " + c;
  }

  lemma {:induction false} ComparatorAtPrefix(a: seq<string>, b: seq<string>)
    requires forall i :: 0 <= i < |a| ==> ComparatorOf(a[i]).None?
    ensures ComparatorAt(a + b) == |a| + ComparatorAt(b)
  {
    if a == [] {
      assert a + b == b;
    } else {
      assert (a + b)[1..] == a[1..] + b;
      ComparatorAtPrefix(a[1..], b);
    }
  }

  lemma ComparisonParses(u: CharClass, lt: seq<string>, mid: string, rt: seq<string>, l: Value, r: Value,
                         allowPresence: bool)
    requires lt != [] && rt != [] && ComparatorOf(mid).Some?
    requires forall i :: 0 <= i < |lt| ==> ComparatorOf(lt[i]).None?
    requires forall i :: 0 <= i < |rt| ==> ComparatorOf(rt[i]).None?
    requires ParseValue(u, lt) == Success(l) && ParseValue(u, rt) == Success(r)
    ensures ParseTerm(u, lt + [mid] + rt, allowPresence) == Success(Comparison(l, ComparatorOf(mid).value, r))
  {
    hide ParseValue, ComparatorOf, NumericOf, PresenceOf, IsReference;
    var toks := lt + [mid] + rt;
    assert toks == lt + ([mid] + rt);
    ComparatorAtPrefix(lt, [mid] + rt);
    ComparatorAtPrefix(rt, []);
    assert rt + [] == rt;
    assert toks[..|lt|] == lt && toks[|lt| + 1..] == rt;
  }

  lemma ComparisonRoundTrip(u: CharClass, l: Value, op: Comparator, r: Value, allowPresence: bool)
    requires u.Sane() && WellFormedValue(u, l) && WellFormedValue(u, r)
    ensures ParseTerm(u, ConditionTokens(Comparison(l, op, r)), allowPresence)
         == Success(Comparison(l, op, r))
  {
    hide CharClass.Sane, WellFormedValue, ParseValue, ParseTerm, ComparatorOf, ComparatorText, ValueText;
    ValueRoundTrip(u, l);
    ValueRoundTrip(u, r);
    ComparatorToken(u, op);
    ComparisonParses(u, ValueTokens(l), ComparatorText(op), ValueTokens(r), l, r, allowPresence);
  }

  lemma ComparisonTokens(u: CharClass, l: Value, op: Comparator, r: Value)
    requires u.Sane() && WellFormedValue(u, l) && WellFormedValue(u, r)
    ensures var toks := ConditionTokens(Comparison(l, op, r));
            && toks != [] && AllSolid(u, toks) && "and" !in toks
            && Join(toks, " ") == ConditionText(Comparison(l, op, r))
  {
    hide CharClass.Sane, WellFormedValue, ValueTokens, ComparatorOf, ComparatorText, ValueText;
    ValueRoundTrip(u, l);
    ValueRoundTrip(u, r);
    ComparatorToken(u, op);
    var lt, mid, rt := ValueTokens(l), [ComparatorText(op)], ValueTokens(r);
    JoinConcat(lt + mid, rt, " ");
    JoinConcat(lt, mid, " ");
  }

  lemma PredicateTokens(u: CharClass, field: string, word: string)
    requires u.Sane() && IsReference(u, field) && IsGrammarWord(word) && word != "and"
    ensures AllSolid(u, [field, word]) && "and" !in [field, word]
    ensures Join([field, word], " ") == field + " " + word
  {
    ReferenceToken(u, field);
    WordIsSolid(u, word);
    JoinTwo(field, word);
  }

  ghost predicate TermReads(u: CharClass, c: Condition, allowPresence: bool) {
    var toks := ConditionTokens(c);
    && toks != [] && AllSolid(u, toks) && "and" !in toks
    && ParseTerm(u, toks, allowPresence) == Success(c)
    && Join(toks, " ") == ConditionText(c)
  }

  lemma PredicateRoundTrip(u: CharClass, c: Condition, allowPresence: bool)
    requires u.Sane() && ((c.Presence? && allowPresence) || c.NumericPredicate?) && IsReference(u, c.field)
    ensures TermReads(u, c, allowPresence)
  {
    hide CharClass.Sane, IsReference, AllSolid, ComparatorAt, ParseValue;
    PredicateTokens(u, c.field, if c.Presence? then PresenceText(c.presence) else NumericText(c.numeric));
  }

  lemma TermRoundTrip(u: CharClass, c: Condition, allowPresence: bool)
    requires u.Sane() && (WellFormedTerm(u, c) || (allowPresence && c.Presence? && WellFormed(u, c)))
    ensures TermReads(u, c, allowPresence)
  {
    if c.Comparison? {
      hide CharClass.Sane, AllSolid, WellFormedValue, ParseTerm, ConditionTokens, ConditionText;
      ComparisonRoundTrip(u, c.left, c.op, c.right, allowPresence);
      ComparisonTokens(u, c.left, c.op, c.right);
    } else {
      hide CharClass.Sane, TermReads, IsReference;
      PredicateRoundTrip(u, c, allowPresence);
    }
  }

  lemma WordIsSolid(u: CharClass, w: string)
    requires u.Sane() && IsGrammarWord(w)
    ensures Solid(u, w)
  {
    assert forall i :: 0 <= i < |w| ==> 'a' <= w[i] <= 'z' || w[i] == '-';
  }

  lemma JoinTwo(a: string, b: string)
    ensures Join([a, b], " ") == a + " " + b
  {
    assert [a, b][1..] == [b];
  }

  lemma {:induction false} TermsText(u: CharClass, terms: seq<Condition>)
    requires u.Sane() && terms != []
    requires forall i :: 0 <= i < |terms| ==> WellFormedTerm(u, terms[i])
    ensures TermTokens(terms) != [] && AllSolid(u, TermTokens(terms))
    ensures Join(TermTokens(terms), " ") == Join(TermTexts(terms), " and ")
  {
    var first := ConditionTokens(terms[0]);
    TermRoundTrip(u, terms[0], false);
    if |terms| > 1 {
      var rest := TermTokens(terms[1..]);
      TermsText(u, terms[1..]);
      WordIsSolid(u, "and");
      JoinAnd(first, rest);
      JoinHead(TermTexts(terms), " and ");
      assert TermTexts(terms)[1..] == TermTexts(terms[1..]);
      SolidAround(u, first, rest);
    }
  }

  lemma SolidAround(u: CharClass, a: seq<string>, b: seq<string>)
    requires AllSolid(u, a) && AllSolid(u, b) && Solid(u, "and")
    ensures AllSolid(u, a + ["and"] + b)
  {
  }

  lemma JoinHead(parts: seq<string>, sep: string)
    requires |parts| > 1
    ensures Join(parts, sep) == parts[0] + sep + Join(parts[1..], sep)
  {
  }

  lemma JoinAnd(a: seq<string>, b: seq<string>)
    requires a != [] && b != []
    ensures Join(a + ["and"] + b, " ") == Join(a, " ") + " and " + Join(b, " ")
  {
    JoinConcat(a + ["and"], b, " ");
    JoinConcat(a, ["and"], " ");
    var x, y := Join(a, " "), Join(b, " ");
    assert " " + "and" + " " == " and ";
    assert x + " " + "and" + " " + y == x + (" " + "and" + " ") + y;
  }

  predicate GroupsParse(u: CharClass, groups: seq<seq<string>>, terms: seq<Condition>) {
    |groups| == |terms| && [] !in groups && ParseTerms(u, groups) == Success(terms)
  }

  lemma GroupsParseCons(u: CharClass, first: seq<string>, rest: seq<seq<string>>, c: Condition, cs: seq<Condition>)
    requires first != [] && ParseTerm(u, first, false) == Success(c) && GroupsParse(u, rest, cs)
    ensures GroupsParse(u, [first] + rest, [c] + cs)
  {
    hide ParseTerm;
    assert ([first] + rest)[1..] == rest;
  }

  lemma NoGroupsParse(u: CharClass)
    ensures GroupsParse(u, [], [])
  {
  }

  lemma {:induction false} TermsParse(u: CharClass, terms: seq<Condition>)
    requires u.Sane() && terms != []
    requires forall i :: 0 <= i < |terms| ==> WellFormedTerm(u, terms[i])
    ensures GroupsParse(u, Groups(TermTokens(terms)), terms)
  {
    hide WellFormedTerm, ParseTerm, GroupsParse, ConditionTokens, AndAt, Groups, CharClass.Sane;
    var first := ConditionTokens(terms[0]);
    TermRoundTrip(u, terms[0], false);
    if |terms| == 1 {
      NoGroupsParse(u);
      OneGroup(first);
      GroupsParseCons(u, first, [], terms[0], []);
      assert [terms[0]] + [] == terms && [first] + [] == [first];
    } else {
      TermsParse(u, terms[1..]);
      AndAtSplit(first, TermTokens(terms[1..]));
      GroupsParseCons(u, first, Groups(TermTokens(terms[1..])), terms[0], terms[1..]);
      assert terms == [terms[0]] + terms[1..];
    }
  }

  // ---- Main results --------------------------------------------------------------------

  /** Parsing a printed condition returns that condition: any number of terms, any 64-bit
      literal, any duration. */
  lemma ConditionRoundTrip(u: CharClass, c: Condition)
    requires u.Sane() && WellFormed(u, c)
    ensures ParseCondition(u, ConditionText(c)) == Success(Some(c))
  {
    var toks := ConditionTokens(c);
    if c.And? {
      TermsText(u, c.terms);
      TermsParse(u, c.terms);
      assert GroupsParse(u, Groups(toks), c.terms);
    } else {
      TermRoundTrip(u, c, true);
      AndAtNone(toks);
    }
    WordsOfJoin(toks, u.space);
  }

  lemma OperandParsesWellFormed(u: CharClass, tok: string)
    requires ParseOperand(u, tok).Success?
    ensures WellFormedOperand(u, ParseOperand(u, tok).value)
  {
    if !IsDigits(u, tok) && DurationMillis(u, tok, UnitScan).value.Some? {
      DurationInRange(u, tok, UnitScan);
    }
  }

  lemma DurationInRange(u: CharClass, tok: string, units: seq<Unit>)
    requires DurationMillis(u, tok, units).Success? && DurationMillis(u, tok, units).value.Some?
    ensures 0 <= DurationMillis(u, tok, units).value.value <= INT64_MAX
  {
  }

  lemma ValueParsesWellFormed(u: CharClass, toks: seq<string>)
    requires ParseValue(u, toks).Success?
    ensures WellFormedValue(u, ParseValue(u, toks).value)
  {
    OperandParsesWellFormed(u, toks[0]);
    if |toks| == 3 {
      OperandParsesWellFormed(u, toks[2]);
    }
  }

  lemma TermParsesWellFormed(u: CharClass, toks: seq<string>, allowPresence: bool)
    requires ParseTerm(u, toks, allowPresence).Success?
    ensures var c := ParseTerm(u, toks, allowPresence).value;
            WellFormedTerm(u, c) || (allowPresence && c.Presence? && WellFormed(u, c))
  {
    var c := ParseTerm(u, toks, allowPresence).value;
    if c.Comparison? {
      var at := ComparatorAt(toks);
      ValueParsesWellFormed(u, toks[..at]);
      ValueParsesWellFormed(u, toks[at + 1..]);
    }
  }

  lemma {:induction false} TermsParseWellFormed(u: CharClass, groups: seq<seq<string>>)
    requires ParseTerms(u, groups).Success?
    ensures var ts := ParseTerms(u, groups).value;
            |ts| == |groups| && forall i :: 0 <= i < |ts| ==> WellFormedTerm(u, ts[i])
  {
    if groups != [] {
      TermParsesWellFormed(u, groups[0], false);
      TermsParseWellFormed(u, groups[1..]);
    }
  }

  /** What the parser returns can be printed. */
  lemma ParsesWellFormed(u: CharClass, text: string)
    requires ParseCondition(u, text).Success? && ParseCondition(u, text).value.Some?
    ensures WellFormed(u, ParseCondition(u, text).value.value)
  {
    var groups := Groups(Words(text, u.space));
    if |groups| == 1 {
      TermParsesWellFormed(u, groups[0], true);
    } else {
      TermsParseWellFormed(u, groups);
    }
  }

  /** Whatever text the parser accepts, its tree has one normalised spelling: printing it and
      parsing again gives the same tree, so printing after parsing is idempotent. */
  lemma ParseThenPrintIsStable(u: CharClass, text: string)
    requires u.Sane()
    requires ParseCondition(u, text).Success? && ParseCondition(u, text).value.Some?
    ensures var c := ParseCondition(u, text).value.value;
            ParseCondition(u, ConditionText(c)) == Success(Some(c))
  {
    hide ParseCondition, WellFormed, ConditionText;
    ParsesWellFormed(u, text);
    ConditionRoundTrip(u, ParseCondition(u, text).value.value);
  }

  // ---- Assignments ---------------------------------------------------------------------

  /** The name a right-hand side starts with, if it starts with one. */
  function LeadingName(v: Value): Option<string> {
    match v
    case Ref(name) => Some(name)
    case Arith(Ref(name), _, _) => Some(name)
    case _ => None
  }

  /** The words that send a right-hand side to the aggregate or the format reader. */
  predicate IsDispatchWord(name: string) {
    IsAggregateFunction(name) || name == "format"
  }

  lemma DispatchWords()
    ensures forall name :: IsDispatchWord(name) <==> name in ["sum", "count", "avg", "min", "max", "format"]
  {
  }

  /** What an aggregate and a format call look like. */
  lemma RhsTexts(template: string, ref: string, arg: string)
    ensures RhsText(Aggregate("sum", ref)) == "sum " + ref
    ensures RhsText(FormatCall(template, [])) == "format \"" + template + "\""
    ensures RhsText(FormatCall(template, [arg])) == "format \"" + template + "\" with " + arg
  {
    assert "sum" + " " == "sum ";
    assert ("format \"" + template + "\"") + "" == "format \"" + template + "\"";
    assert Join([arg], " ") == arg;
    assert ("format \"" + template + "\"") + (" with " + arg) == "format \"" + template + "\" with " + arg;
  }

  lemma LetterWordIsSolid(u: CharClass, w: string)
    requires u.Sane() && w != [] && forall i :: 0 <= i < |w| ==> 'a' <= w[i] <= 'z'
    ensures Solid(u, w)
  {
  }

  lemma QuotedIsSolid(u: CharClass, template: string)
    requires u.Sane() && NoneOf(template, u.space) && '"' !in template
    ensures Solid(u, "\"" + template + "\"")
    ensures ParseTemplate("\"" + template + "\"") == Success(template)
  {
    var quoted := "\"" + template + "\"";
    assert quoted[1..|quoted| - 1] == template;
    assert forall i :: 0 <= i < |quoted| ==>
      quoted[i] == '"' || (1 <= i < |quoted| - 1 && quoted[i] == template[i - 1]);
  }

  function FormatTokens(template: string, args: seq<string>): seq<string> {
    ["format", "\"" + template + "\""] + if args == [] then [] else ["with"] + args
  }

  lemma FormatJoin(quoted: string, args: seq<string>)
    ensures Join(["format", quoted], " ") == "format " + quoted
    ensures args != [] ==>
      Join(["format", quoted] + (["with"] + args), " ") == "format " + quoted + (" with " + Join(args, " "))
  {
    JoinTwo("format", quoted);
    assert "format" + " " == "format ";
    if args != [] {
      var tail := ["with"] + args;
      assert tail[1..] == args;
      JoinConcat(["format", quoted], tail, " ");
      assert " " + ("with" + " " + Join(args, " ")) == " with " + Join(args, " ");
    }
  }

  lemma FormatWords(u: CharClass, template: string, args: seq<string>)
    requires u.Sane() && WellFormedRhs(u, FormatCall(template, args))
    ensures Words(RhsText(FormatCall(template, args)), u.space) == FormatTokens(template, args)
  {
    var toks := FormatTokens(template, args);
    FormatTokensSolid(u, template, args);
    FormatText(template, args);
    hide FormatTokens, RhsText, WellFormedRhs, Join;
    WordsOfJoin(toks, u.space);
  }

  lemma FormatText(template: string, args: seq<string>)
    ensures Join(FormatTokens(template, args), " ") == RhsText(FormatCall(template, args))
  {
    var quoted := "\"" + template + "\"";
    FormatJoin(quoted, args);
    hide Join;
    assert "format " + "\"" == "format \"";
    assert "format " + quoted == ("format \"" + template) + "\"";
    if args == [] {
      assert ["format", quoted] + [] == ["format", quoted];
      assert ("format \"" + template + "\"") + "" == "format \"" + template + "\"";
    }
  }

  lemma FormatTokensSolid(u: CharClass, template: string, args: seq<string>)
    requires u.Sane() && WellFormedRhs(u, FormatCall(template, args))
    ensures AllSolid(u, FormatTokens(template, args))
  {
    LetterWordIsSolid(u, "format");
    LetterWordIsSolid(u, "with");
    QuotedIsSolid(u, template);
    forall i | 0 <= i < |args| ensures Solid(u, args[i]) {
      ReferenceToken(u, args[i]);
    }
  }

  lemma FormatParses(u: CharClass, template: string, args: seq<string>)
    requires u.Sane() && WellFormedRhs(u, FormatCall(template, args))
    ensures ParseRhsTokens(u, FormatTokens(template, args)) == Success(FormatCall(template, args))
  {
    var toks := FormatTokens(template, args);
    QuotedIsSolid(u, template);
    assert toks[2..] == if args == [] then [] else ["with"] + args;
    if args != [] {
      assert toks[2..][1..] == args;
    }
  }

  lemma PlainWords(u: CharClass, v: Value)
    requires u.Sane() && WellFormedValue(u, v)
    ensures Words(ValueText(v), u.space) == ValueTokens(v)
  {
    ValueRoundTrip(u, v);
    WordsOfJoin(ValueTokens(v), u.space);
  }

  lemma FirstToken(u: CharClass, v: Value)
    requires u.Sane() && WellFormedValue(u, v)
    ensures LeadingName(v) == None ==> !IsDispatchWord(ValueTokens(v)[0])
    ensures LeadingName(v).Some? ==> ValueTokens(v)[0] == LeadingName(v).value
  {
    var first := if v.Arith? then v.left else v;
    OperandRoundTrip(u, first);
    if first.Lit? && IsDispatchWord(ValueText(first)) {
      LitStartsWithDigit(first.value, first.isDuration);
      assert false;
    }
  }

  lemma LitStartsWithDigit(n: int, isDuration: bool)
    requires 0 <= n
    ensures ValueText(Lit(n, isDuration)) != [] && IsDigit(ValueText(Lit(n, isDuration))[0])
  {
    if isDuration {
      var k, unit := CoarsestUnit(n, UnitRender);
    }
  }

  /** A right-hand side survives printing and parsing exactly when it is an aggregate, a format
      call, or a value whose leading name is not one of the words that start those two. */
  lemma RhsRoundTripExactly(u: CharClass, rhs: AssignRhs)
    requires u.Sane() && WellFormedRhs(u, rhs)
    ensures ParseRhs(u, RhsText(rhs)) == Success(rhs)
       <==> !(rhs.Plain? && LeadingName(rhs.value).Some?
              && LeadingName(rhs.value).value in ["sum", "count", "avg", "min", "max", "format"])
  {
    DispatchWords();
    match rhs
    case Plain(v) =>
      PlainWords(u, v);
      ValueRoundTrip(u, v);
      FirstToken(u, v);
    case Aggregate(func, ref) =>
      LetterWordIsSolid(u, func);
      ReferenceToken(u, ref);
      JoinTwo(func, ref);
      WordsOfJoin([func, ref], u.space);
    case FormatCall(template, args) =>
      FormatWords(u, template, args);
      FormatParses(u, template, args);
  }

  /** `count + 1`, the field of that name and one: printed, it is read as a malformed aggregate. */
  lemma CountIsReadAsAggregate(u: CharClass)
    requires u.Sane()
    ensures var rhs := AssignRhs.Plain(Arith(Ref("count"), Add, Lit(1, false)));
            WellFormedRhs(u, rhs) && ParseRhs(u, RhsText(rhs)) != Success(rhs)
  {
    var rhs := AssignRhs.Plain(Arith(Ref("count"), Add, Lit(1, false)));
    hide ParseRhs, RhsText, CharClass.Sane;
    assert IsReference(u, "count") by { CountIsName(u); }
    RhsRoundTripExactly(u, rhs);
  }

  lemma CountIsName(u: CharClass)
    requires u.Sane()
    ensures IsReference(u, "count")
  {
    assert DotAt("count") == |"count"|;
    assert "count"[..5] == "count";
  }
}
