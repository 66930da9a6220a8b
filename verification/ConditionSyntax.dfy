/** The one parser of condition text and the one normalising printer, and the proof that they
    undo each other (`impl/lnpl/condition.py`). */
module ConditionSyntax {
  import opened Wrappers
  import opened Text
  import opened Conditions

  /** Python's character classification, kept abstract so that every statement below holds of
      the full Unicode tables and not only of ASCII. `decimal` is what `int()` reads; a
      character can satisfy `str.isdigit` without having a decimal value. */
  datatype CharClass = CharClass(
    space: char -> bool,
    lower: char -> bool,
    alnum: char -> bool,
    digit: char -> bool,
    decimal: char -> Option<nat>)
  {
    /** What the tables guarantee about the characters the grammar spells out. */
    ghost predicate Sane() {
      && space(' ')
      && (forall c :: alnum(c) ==> !space(c))
      && (forall c :: lower(c) && alnum(c) ==> !digit(c))
      && (forall c :: IsDigit(c) ==> alnum(c) && digit(c) && decimal(c) == Some(DigitValue(c)))
      && (forall c :: 'a' <= c <= 'z' ==> lower(c) && alnum(c))
      && (forall c :: c in "<>=!+-*/.\"_" ==> !alnum(c) && !space(c) && !digit(c))
    }
  }

  const Ascii := CharClass(
    c => c == ' ' || '\t' <= c <= '\r',
    c => 'a' <= c <= 'z',
    c => 'a' <= c <= 'z' || 'A' <= c <= 'Z' || IsDigit(c),
    c => IsDigit(c),
    c => if IsDigit(c) then Some(DigitValue(c)) else None)

  lemma AsciiIsSane()
    ensures Ascii.Sane()
  {
    assert '\t' as int == 9 && '\r' as int == 13 && ' ' as int == 32 && '!' as int == 33;
  }

  // `ConditionError`, by the check that raises it, and the bare `ValueError` that escapes
  // `int()` when a token is all digits but not all decimals.
  datatype SyntaxError =
    | EmptyTerm
    | TooShort
    | PresenceInsideAnd
    | BadReference
    | NoComparator
    | ManyComparators
    | MissingOperand
    | BadArithmetic
    | BadOperandForm
    | PastInt64
    | NotAnInteger
    | BadOperand
    | BadAggregate
    | BadTemplate
    | BadWithClause
    | MissingArgument

  // ---- Vocabulary ----------------------------------------------------------------------

  function ArithText(op: ArithOp): string {
    match op
    case Add => "+"
    case Sub => "-"
    case Mul => "*"
    case Div => "/"
  }

  function ComparatorText(op: Comparator): string {
    match op
    case Lt => "<"
    case Le => "<="
    case Gt => ">"
    case Ge => ">="
    case Eq => "=="
    case Ne => "!="
  }

  function PresenceText(k: PresenceKind): string {
    if k.Exists? then "exists" else "missing"
  }

  function NumericText(k: NumericKind): string {
    if k.IsNumeric? then "is-numeric" else "is-not-numeric"
  }

  function ArithOf(tok: string): (o: Option<ArithOp>)
    ensures o.Some? ==> ArithText(o.value) == tok
  {
    if tok == "+" then Some(Add)
    else if tok == "-" then Some(Sub)
    else if tok == "*" then Some(Mul)
    else if tok == "/" then Some(Div)
    else None
  }

  function ComparatorOf(tok: string): (o: Option<Comparator>)
    ensures o.Some? ==> ComparatorText(o.value) == tok
  {
    if tok == "<" then Some(Lt)
    else if tok == "<=" then Some(Le)
    else if tok == ">" then Some(Gt)
    else if tok == ">=" then Some(Ge)
    else if tok == "==" then Some(Eq)
    else if tok == "!=" then Some(Ne)
    else None
  }

  function PresenceOf(tok: string): (o: Option<PresenceKind>)
    ensures o.Some? ==> PresenceText(o.value) == tok
  {
    if tok == "exists" then Some(Exists) else if tok == "missing" then Some(Missing) else None
  }

  function NumericOf(tok: string): (o: Option<NumericKind>)
    ensures o.Some? ==> NumericText(o.value) == tok
  {
    if tok == "is-numeric" then Some(IsNumeric)
    else if tok == "is-not-numeric" then Some(IsNotNumeric)
    else None
  }

  predicate IsAggregateFunction(tok: string) {
    tok == "sum" || tok == "count" || tok == "avg" || tok == "min" || tok == "max"
  }

  predicate IsGrammarWord(tok: string) {
    || tok == "and" || tok == "to" || tok == "exists" || tok == "missing"
    || tok == "is-numeric" || tok == "is-not-numeric"
  }

  predicate IsCamelName(u: CharClass, s: string) {
    s != [] && u.lower(s[0]) && forall i :: 0 <= i < |s| ==> u.alnum(s[i])
  }

  /** Position of the first `.`, or the length. */
  function DotAt(s: string): (k: nat)
    ensures k <= |s| && '.' !in s[..k] && (k < |s| ==> s[k] == '.')
  {
    if s == [] || s[0] == '.' then 0 else 1 + DotAt(s[1..])
  }

  /** One camelCase name, or two separated by a dot, and not a word of the grammar. */
  predicate IsReference(u: CharClass, s: string) {
    && !IsGrammarWord(s)
    && var k := DotAt(s);
       IsCamelName(u, s[..k]) && (k < |s| ==> IsCamelName(u, s[k + 1..]))
  }

  // ---- Numbers and durations -----------------------------------------------------------

  /** `tok.isdigit()`. */
  predicate IsDigits(u: CharClass, tok: string) {
    tok != [] && forall i :: 0 <= i < |tok| ==> u.digit(tok[i])
  }

  /** `int(tok)` of a token of digits. */
  function ParseInt(u: CharClass, tok: string): Option<nat> {
    if tok == [] then Some(0)
    else
      var init := ParseInt(u, tok[..|tok| - 1]);
      var last := u.decimal(tok[|tok| - 1]);
      if init.Some? && last.Some? then Some(10 * init.value + last.value) else None
  }

  datatype Unit = Unit(suffix: string, millis: nat)

  // Longest suffix first, so that `ms` is tried before `s`.
  const UnitScan: seq<Unit> :=
    [Unit("ms", 1), Unit("s", 1000), Unit("m", 60000), Unit("h", 3600000), Unit("d", 86400000)]

  // Largest unit first, so that the first exact division is the coarsest one.
  const UnitRender: seq<Unit> :=
    [Unit("d", 86400000), Unit("h", 3600000), Unit("m", 60000), Unit("s", 1000), Unit("ms", 1)]

  predicate HasUnit(u: CharClass, tok: string, suffix: string) {
    && |tok| >= |suffix|
    && tok[|tok| - |suffix|..] == suffix
    && IsDigits(u, tok[..|tok| - |suffix|])
  }

  /** `duration_ms_or_none`: no unit fits, or the milliseconds, or the error it raises. */
  function DurationMillis(u: CharClass, tok: string, units: seq<Unit>): Result<Option<nat>, SyntaxError> {
    if units == [] then Success(None)
    else if HasUnit(u, tok, units[0].suffix) then
      match ParseInt(u, tok[..|tok| - |units[0].suffix|])
      case None => Failure(NotAnInteger)
      case Some(n) =>
        if n * units[0].millis > INT64_MAX then Failure(PastInt64)
        else Success(Some(n * units[0].millis))
    else DurationMillis(u, tok, units[1..])
  }

  function IntText(n: int): string {
    if n < 0 then "-" + Decimal(-n) else Decimal(n)
  }

  function DurationText(n: int, units: seq<Unit>): string
    requires forall i :: 0 <= i < |units| ==> units[i].millis > 0
  {
    if units == [] then IntText(n) + "ms"
    else if n != 0 && n % units[0].millis == 0 then IntText(n / units[0].millis) + units[0].suffix
    else DurationText(n, units[1..])
  }

  // ---- The printer ---------------------------------------------------------------------

  function ValueText(v: Value): string {
    match v
    case Ref(name) => name
    case Lit(n, isDuration) => if isDuration then DurationText(n, UnitRender) else IntText(n)
    case Arith(l, op, r) => ValueText(l) + " " + ArithText(op) + " " + ValueText(r)
  }

  function RhsText(rhs: AssignRhs): string {
    match rhs
    case Plain(v) => ValueText(v)
    case Aggregate(func, ref) => func + " " + ref
    case FormatCall(template, args) =>
      "format \"" + template + "\"" + if args == [] then "" else " with " + Join(args, " ")
  }

  function ConditionText(c: Condition): string {
    match c
    case Presence(field, k) => field + " " + PresenceText(k)
    case NumericPredicate(field, k) => field + " " + NumericText(k)
    case Comparison(l, op, r) => ValueText(l) + " " + ComparatorText(op) + " " + ValueText(r)
    case And(terms) => Join(TermTexts(terms), " and ")
  }

  function TermTexts(terms: seq<Condition>): (ts: seq<string>)
    ensures |ts| == |terms|
  {
    if terms == [] then [] else [ConditionText(terms[0])] + TermTexts(terms[1..])
  }

  // ---- The parser ----------------------------------------------------------------------

  function ParseOperand(u: CharClass, tok: string): Result<Value, SyntaxError> {
    if IsDigits(u, tok) then
      match ParseInt(u, tok)
      case None => Failure(NotAnInteger)
      case Some(n) => if n > INT64_MAX then Failure(PastInt64) else Success(Lit(n, false))
    else
      var duration :- DurationMillis(u, tok, UnitScan);
      if duration.Some? then Success(Lit(duration.value, true))
      else if IsReference(u, tok) then Success(Ref(tok))
      else Failure(BadOperand)
  }

  function ParseValue(u: CharClass, toks: seq<string>): Result<Value, SyntaxError> {
    if toks == [] then Failure(MissingOperand)
    else if |toks| == 1 then ParseOperand(u, toks[0])
    else if |toks| == 3 then
      match ArithOf(toks[1])
      case None => Failure(BadArithmetic)
      case Some(op) =>
        var l :- ParseOperand(u, toks[0]);
        var r :- ParseOperand(u, toks[2]);
        Success(Arith(l, op, r))
    else Failure(BadOperandForm)
  }

  /** Position of the first comparator token, or the number of tokens. */
  function ComparatorAt(toks: seq<string>): (k: nat)
    ensures k <= |toks| && (k < |toks| ==> ComparatorOf(toks[k]).Some?)
  {
    if toks == [] || ComparatorOf(toks[0]).Some? then 0 else 1 + ComparatorAt(toks[1..])
  }

  function ParseTerm(u: CharClass, toks: seq<string>, allowPresence: bool): Result<Condition, SyntaxError> {
    if |toks| < 2 then Failure(TooShort)
    else if |toks| == 2 && PresenceOf(toks[1]).Some? then
      if !allowPresence then Failure(PresenceInsideAnd)
      else if !IsReference(u, toks[0]) then Failure(BadReference)
      else Success(Presence(toks[0], PresenceOf(toks[1]).value))
    else if |toks| == 2 && NumericOf(toks[1]).Some? then
      if !IsReference(u, toks[0]) then Failure(BadReference)
      else Success(NumericPredicate(toks[0], NumericOf(toks[1]).value))
    else
      var at := ComparatorAt(toks);
      if at == |toks| then Failure(NoComparator)
      else if ComparatorAt(toks[at + 1..]) < |toks| - at - 1 then Failure(ManyComparators)
      else
        var l :- ParseValue(u, toks[..at]);
        var r :- ParseValue(u, toks[at + 1..]);
        Success(Comparison(l, ComparatorOf(toks[at]).value, r))
  }

  /** Position of the first `and`, or the number of tokens. */
  function AndAt(toks: seq<string>): (k: nat)
    ensures k <= |toks| && "and" !in toks[..k] && (k < |toks| ==> toks[k] == "and")
  {
    if toks == [] || toks[0] == "and" then 0 else 1 + AndAt(toks[1..])
  }

  /** The token lists between the `and`s, empty ones included. */
  function Groups(toks: seq<string>): (gs: seq<seq<string>>)
    ensures gs != []
    decreases |toks|
  {
    var k := AndAt(toks);
    if k == |toks| then [toks] else [toks[..k]] + Groups(toks[k + 1..])
  }

  function ParseTerms(u: CharClass, groups: seq<seq<string>>): Result<seq<Condition>, SyntaxError> {
    if groups == [] then Success([])
    else
      var t :- ParseTerm(u, groups[0], false);
      var ts :- ParseTerms(u, groups[1..]);
      Success([t] + ts)
  }

  function ParseTokens(u: CharClass, toks: seq<string>): Result<Condition, SyntaxError> {
    var groups := Groups(toks);
    if [] in groups then Failure(EmptyTerm)
    else if |groups| == 1 then ParseTerm(u, groups[0], true)
    else
      var terms :- ParseTerms(u, groups);
      Success(And(terms))
  }

  /** `parse_condition`: blank text is no condition at all. */
  function ParseCondition(u: CharClass, text: string): Result<Option<Condition>, SyntaxError> {
    var toks := Words(text, u.space);
    if toks == [] then Success(None)
    else
      var c :- ParseTokens(u, toks);
      Success(Some(c))
  }

  function ParseTemplate(tok: string): Result<string, SyntaxError> {
    if |tok| < 2 || tok[0] != '"' || tok[|tok| - 1] != '"' then Failure(BadTemplate)
    else if '"' in tok[1..|tok| - 1] then Failure(BadTemplate)
    else Success(tok[1..|tok| - 1])
  }

  function ParseWith(u: CharClass, toks: seq<string>): Result<seq<string>, SyntaxError> {
    if toks == [] then Success([])
    else if toks[0] != "with" then Failure(BadWithClause)
    else if |toks| == 1 then Failure(MissingArgument)
    else if exists i :: 1 <= i < |toks| && !IsReference(u, toks[i]) then Failure(BadReference)
    else Success(toks[1..])
  }

  /** `parse_value_or_aggregate`: the first token decides which right-hand side it is. */
  function ParseRhsTokens(u: CharClass, toks: seq<string>): Result<AssignRhs, SyntaxError> {
    if toks != [] && IsAggregateFunction(toks[0]) then
      if |toks| != 2 then Failure(BadAggregate)
      else if !IsReference(u, toks[1]) then Failure(BadReference)
      else Success(Aggregate(toks[0], toks[1]))
    else if toks != [] && toks[0] == "format" then
      if |toks| < 2 then Failure(BadTemplate)
      else
        var template :- ParseTemplate(toks[1]);
        var args :- ParseWith(u, toks[2..]);
        Success(FormatCall(template, args))
    else
      var v :- ParseValue(u, toks);
      Success(Plain(v))
  }

  function ParseRhs(u: CharClass, text: string): Result<AssignRhs, SyntaxError> {
    ParseRhsTokens(u, Words(text, u.space))
  }

  /** `_split_on_and`'s accumulation of groups, before its check for an empty one. */
  method SplitOnAnd(toks: seq<string>) returns (groups: seq<seq<string>>)
    ensures groups == Groups(toks)
  {
    hide Groups, AndAt;
    groups := [];
    var cur: seq<string> := [];
    assert [] + toks[0..] == toks;
    for i := 0 to |toks|
      invariant "and" !in cur
      invariant groups + Groups(cur + toks[i..]) == Groups(toks)
    {
      assert cur + toks[i..] == (cur + [toks[i]]) + toks[i + 1..];
      if toks[i] == "and" {
        AndAtSplit(cur, toks[i + 1..]);
        assert cur + toks[i..] == cur + ["and"] + toks[i + 1..];
        groups := groups + [cur];
        cur := [];
        assert [] + toks[i + 1..] == toks[i + 1..];
      } else {
        cur := cur + [toks[i]];
      }
    }
    assert cur + toks[|toks|..] == cur;
    OneGroup(cur);
    groups := groups + [cur];
  }

  lemma OneGroup(toks: seq<string>)
    requires "and" !in toks
    ensures Groups(toks) == [toks]
  {
    AndAtNone(toks);
  }

  lemma {:induction false} AndAtNone(toks: seq<string>)
    requires "and" !in toks
    ensures AndAt(toks) == |toks|
  {
    if toks != [] {
      AndAtNone(toks[1..]);
    }
  }

  lemma {:induction false} AndAtSplit(a: seq<string>, b: seq<string>)
    requires "and" !in a
    ensures AndAt(a + ["and"] + b) == |a|
    ensures Groups(a + ["and"] + b) == [a] + Groups(b)
  {
    var s := a + ["and"] + b;
    AndAtPrefix(a, b);
    assert s[..|a|] == a && s[|a| + 1..] == b;
  }

  lemma {:induction false} AndAtPrefix(a: seq<string>, b: seq<string>)
    requires "and" !in a
    ensures AndAt(a + ["and"] + b) == |a|
  {
    if a != [] {
      assert (a + ["and"] + b)[1..] == a[1..] + ["and"] + b;
      AndAtPrefix(a[1..], b);
    }
  }
}
