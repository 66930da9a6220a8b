/** `_render_std` in `impl/lnpl/backend.py`: the op stream lowered to a module of string globals
    and one straight-line function. */
module Render {
  import opened Wrappers
  import opened Text
  import opened Conditions
  import opened ConditionSyntax
  import opened Evaluation
  import opened Machine
  import opened GuardEmit
  import opened Workflow
  import opened Ops

  type Body = seq<Instr<Name>>

  /** `_parsed`: the condition, or `None` when it is blank or malformed. */
  function Parsed(u: CharClass, text: string): Option<Condition> {
    match ParseCondition(u, text)
    case Success(c) => c
    case Failure(_) => None
  }

  function ParsedAll(u: CharClass, texts: seq<string>): (cs: seq<Option<Condition>>)
    ensures |cs| == |texts| && forall k :: 0 <= k < |texts| ==> cs[k] == Parsed(u, texts[k])
  {
    if texts == [] then [] else [Parsed(u, texts[0])] + ParsedAll(u, texts[1..])
  }

  // ---- String globals ------------------------------------------------------------------

  function AddText(texts: seq<string>, t: string): seq<string> {
    if t in texts then texts else texts + [t]
  }

  function AddTexts(texts: seq<string>, more: seq<string>): seq<string>
    decreases more
  {
    if more == [] then texts else AddTexts(AddText(texts, more[0]), more[1..])
  }

  function OpTexts(op: Op): seq<string> {
    [op.name] + Kinds(op.effects)
  }

  /** Each step's name, then its effect kinds, interned in order. */
  function Globals(texts: seq<string>, ops: seq<Op>): seq<string>
    decreases ops
  {
    if ops == [] then texts else Globals(AddTexts(texts, OpTexts(ops[0])), ops[1..])
  }

  function Position(texts: seq<string>, t: string): (k: nat)
    ensures k <= |texts| && (t in texts <==> k < |texts|) && (k < |texts| ==> texts[k] == t)
  {
    if texts == [] || texts[0] == t then 0 else 1 + Position(texts[1..], t)
  }

  method Intern(texts: seq<string>, more: seq<string>) returns (out: seq<string>)
    ensures out == AddTexts(texts, more)
  {
    out := texts;
    assert more[0..] == more;
    for k := 0 to |more|
      invariant AddTexts(out, more[k..]) == AddTexts(texts, more)
    {
      assert more[k..][1..] == more[k + 1..];
      if more[k] !in out {
        out := out + [more[k]];
      }
    }
    assert more[|more|..] == [];
  }

  method InternAll(ops: seq<Op>) returns (globals: seq<string>)
    ensures globals == Globals([], ops)
  {
    globals := [];
    assert ops[0..] == ops;
    for k := 0 to |ops|
      invariant Globals(globals, ops[k..]) == Globals([], ops)
    {
      assert ops[k..][1..] == ops[k + 1..];
      globals := Intern(globals, OpTexts(ops[k]));
    }
    assert ops[|ops|..] == [];
  }

  // ---- Constants -----------------------------------------------------------------------

  function TextLiterals(u: CharClass, texts: seq<string>): set<int> {
    if texts == [] then {}
    else
      var c := Parsed(u, texts[0]);
      (if c.Some? then Literals(c.value) else {}) + TextLiterals(u, texts[1..])
  }

  /** The texts a guarded op's constants are collected from: its condition and its alternatives. */
  function OpConditions(op: Op): seq<string> {
    if op.guard.None? then [] else [op.guard.value.condition] + op.guard.value.alternatives
  }

  function AllLiterals(u: CharClass, ops: seq<Op>): set<int> {
    if ops == [] then {} else TextLiterals(u, OpConditions(ops[0])) + AllLiterals(u, ops[1..])
  }

  /** `until (A and B)` needs the constant true. */
  predicate NegatesConjunction(u: CharClass, op: Op) {
    && op.guard.Some? && op.guard.value.mode.Until?
    && var c := Parsed(u, op.guard.value.condition);
       c.Some? && c.value.And?
  }

  predicate NeedsTrue(u: CharClass, ops: seq<Op>) {
    exists k :: 0 <= k < |ops| && NegatesConjunction(u, ops[k])
  }

  predicate Ascending(values: seq<int>) {
    forall j, k :: 0 <= j < k < |values| ==> values[j] < values[k]
  }

  function ConstCode(values: seq<int>): (code: Code)
    ensures |code| == |values|
  {
    if values == [] then [] else [Do(Const64(LitConst(values[0]), values[0]))] + ConstCode(values[1..])
  }

  function PreludeCode(values: seq<int>, needsTrue: bool): Code {
    [Do(Const32(C0, 0)), Do(Const32(C1, 1))] + ConstCode(values)
    + if needsTrue then [Do(ConstTrue(TrueI1))] else []
  }

  lemma NonEmptyHasMin(s: set<int>) returns (m: int)
    requires s != {}
    ensures m in s && forall x :: x in s ==> m <= x
    decreases |s|
  {
    if forall x :: x !in s {
      assert false;
    }
    var pick :| pick in s;
    m := pick;
    var others := s - {pick};
    assert forall x :: x in s ==> x == pick || x in others;
    if others != {} {
      var k := NonEmptyHasMin(others);
      if k < m {
        m := k;
      }
    }
  }

  /** `sorted(values)`. */
  method SortedInts(values: set<int>) returns (out: seq<int>)
    ensures Ascending(out) && forall v :: v in out <==> v in values
  {
    out := [];
    var left := values;
    while left != {}
      invariant Ascending(out) && left <= values
      invariant forall v :: v in values <==> v in out || v in left
      invariant forall j, v :: 0 <= j < |out| && v in left ==> out[j] < v
      decreases |left|
    {
      ghost var least := NonEmptyHasMin(left);
      assert least in left && forall x :: x in left ==> least <= x;
      var m :| m in left && forall x :: x in left ==> m <= x;
      out := out + [m];
      left := left - {m};
    }
  }

  // ---- One op --------------------------------------------------------------------------

  /** The calls that trace the first `n` effects. */
  function EffectCalls(op: Op, globals: seq<string>, n: nat): Body
    requires n <= |op.effects|
  {
    if n == 0 then []
    else
      EffectCalls(op, globals, n - 1)
      + [AddressOf(KindPtr(op.index, n - 1), Position(globals, op.effects[n - 1].Kind())),
         CallEffect(StepPtr(op.index), KindPtr(op.index, n - 1))]
  }

  function OpBody(op: Op, globals: seq<string>): Body {
    [CallStep(StepResult(op.index), StepPtr(op.index), StepIndex(op.index))]
    + EffectCalls(op, globals, |op.effects|)
  }

  function DoAll(body: Body): Code {
    if body == [] then [] else [Do(body[0])] + DoAll(body[1..])
  }

  /** The code that evaluates a guard. */
  function GuardCode(u: CharClass, g: Guard, i: nat): Code {
    if g.mode.When? && g.alternatives != [] then AltCode(ParsedAll(u, [g.condition] + g.alternatives), i)
    else
      var c := Parsed(u, g.condition);
      if c.Some? then ConditionCode(c.value, Idx.Plain(i), g.mode.Until?) else []
  }

  /** The name its truth is left in, or `None` when it has no evaluator. */
  function GuardName(u: CharClass, g: Guard, i: nat): Option<Name> {
    if g.mode.When? && g.alternatives != [] then AltName(ParsedAll(u, [g.condition] + g.alternatives), i)
    else
      var c := Parsed(u, g.condition);
      if c.Some? then ConditionName(c.value, Idx.Plain(i), g.mode.Until?) else None
  }

  /** The body under its guard. Without an evaluator a `when` falls back to the skip flag and an
      `until` round runs unconditionally. */
  function GuardedCode(mode: GuardMode, name: Option<Name>, i: nat, body: Body): Code {
    if name.Some? then [If(name.value, body)]
    else if mode.When? then [Do(EqualI32(SkipFlag(i), Skip, C0)), If(SkipFlag(i), body)]
    else DoAll(body)
  }

  function OpHead(op: Op, globals: seq<string>): Code {
    [Do(AddressOf(StepPtr(op.index), Position(globals, op.name))), Do(Const32(StepIndex(op.index), op.index))]
  }

  function OpTail(u: CharClass, op: Op, globals: seq<string>): Code {
    if op.guard.None? then DoAll(OpBody(op, globals))
    else
      var g := op.guard.value;
      GuardCode(u, g, op.index) + GuardedCode(g.mode, GuardName(u, g, op.index), op.index, OpBody(op, globals))
  }

  function OpCode(u: CharClass, op: Op, globals: seq<string>): Code {
    OpHead(op, globals) + OpTail(u, op, globals)
  }

  function OpsCode(u: CharClass, ops: seq<Op>, globals: seq<string>, k: nat): Code
    requires k <= |ops|
  {
    if k == 0 then [] else OpsCode(u, ops, globals, k - 1) + OpCode(u, ops[k - 1], globals)
  }

  method EmitBody(op: Op, globals: seq<string>) returns (body: Body)
    ensures body == OpBody(op, globals)
  {
    body := [CallStep(StepResult(op.index), StepPtr(op.index), StepIndex(op.index))];
    ghost var call := body;
    for n := 0 to |op.effects|
      invariant body == call + EffectCalls(op, globals, n)
    {
      var pair := [AddressOf(KindPtr(op.index, n), Position(globals, op.effects[n].Kind())),
                   CallEffect(StepPtr(op.index), KindPtr(op.index, n))];
      Assoc(call, EffectCalls(op, globals, n), pair);
      body := body + pair;
    }
  }

  method EmitAll(body: Body, lines: Lines)
    modifies lines
    ensures lines.items == old(lines.items) + DoAll(body)
  {
    ghost var before := lines.items;
    assert body[0..] == body;
    for k := 0 to |body|
      invariant lines.items + DoAll(body[k..]) == before + DoAll(body)
    {
      assert body[k..][1..] == body[k + 1..];
      Assoc(lines.items, [Do(body[k])], DoAll(body[k + 1..]));
      lines.Append(Do(body[k]));
    }
    assert body[|body|..] == [] && lines.items + [] == lines.items;
  }

  method EmitGuard(u: CharClass, g: Guard, i: nat, lines: Lines) returns (name: Option<Name>)
    modifies lines
    ensures name == GuardName(u, g, i)
    ensures lines.items == old(lines.items) + GuardCode(u, g, i)
  {
    hide ConditionCode, ConditionName, AltCode, AltName, ParseCondition;
    if g.mode.When? && g.alternatives != [] {
      name := EmitAltCondition(ParsedAll(u, [g.condition] + g.alternatives), i, lines);
    } else {
      var c := Parsed(u, g.condition);
      if c.Some? {
        name := EmitCondition(c.value, Idx.Plain(i), lines, g.mode.Until?);
      } else {
        name := None;
        assert lines.items + [] == lines.items;
      }
    }
  }

  method EmitGuarded(mode: GuardMode, name: Option<Name>, i: nat, body: Body, lines: Lines)
    modifies lines
    ensures lines.items == old(lines.items) + GuardedCode(mode, name, i, body)
  {
    if name.Some? {
      lines.Append(If(name.value, body));
    } else if mode.When? {
      Assoc(lines.items, [Do(EqualI32(SkipFlag(i), Skip, C0))], [If(SkipFlag(i), body)]);
      lines.Append(Do(EqualI32(SkipFlag(i), Skip, C0)));
      lines.Append(If(SkipFlag(i), body));
    } else {
      EmitAll(body, lines);
    }
  }

  method EmitOp(u: CharClass, op: Op, globals: seq<string>, lines: Lines)
    modifies lines
    ensures lines.items == old(lines.items) + OpCode(u, op, globals)
  {
    hide OpBody, GuardCode, GuardName, GuardedCode, DoAll;
    ghost var before, head := lines.items, OpHead(op, globals);
    lines.Append(Do(AddressOf(StepPtr(op.index), Position(globals, op.name))));
    lines.Append(Do(Const32(StepIndex(op.index), op.index)));
    assert lines.items == before + head;
    var body := EmitBody(op, globals);
    if op.guard.None? {
      EmitAll(body, lines);
      Assoc(before, head, DoAll(body));
    } else {
      var g := op.guard.value;
      var name := EmitGuard(u, g, op.index, lines);
      EmitGuarded(g.mode, name, op.index, body, lines);
      Assoc(before, head, GuardCode(u, g, op.index));
      Assoc(before, head + GuardCode(u, g, op.index), GuardedCode(g.mode, name, op.index, body));
      Assoc(head, GuardCode(u, g, op.index), GuardedCode(g.mode, name, op.index, body));
    }
  }

  // ---- The module ----------------------------------------------------------------------

  // `failed` is the value the function returns: 1 for a run that ends `failed`.
  datatype StdModule = StdModule(globals: seq<string>, code: Code, failed: bool)

  /** The module of a stream, its constants in the order `values`. */
  function ModuleOf(u: CharClass, stream: Stream, values: seq<int>): StdModule {
    var globals := Globals([], stream.ops);
    StdModule(globals,
              PreludeCode(values, NeedsTrue(u, stream.ops)) + OpsCode(u, stream.ops, globals, |stream.ops|),
              stream.failed)
  }

  method EmitPrelude(values: seq<int>, needsTrue: bool, lines: Lines)
    modifies lines
    ensures lines.items == old(lines.items) + PreludeCode(values, needsTrue)
  {
    ghost var before := lines.items;
    lines.Append(Do(Const32(C0, 0)));
    lines.Append(Do(Const32(C1, 1)));
    ghost var head := [Do(Const32(C0, 0)), Do(Const32(C1, 1))];
    assert lines.items == before + head;
    assert values[0..] == values;
    for k := 0 to |values|
      invariant lines.items + ConstCode(values[k..]) == (before + head) + ConstCode(values)
    {
      assert values[k..][1..] == values[k + 1..];
      Assoc(lines.items, [Do(Const64(LitConst(values[k]), values[k]))], ConstCode(values[k + 1..]));
      lines.Append(Do(Const64(LitConst(values[k]), values[k])));
    }
    assert values[|values|..] == [] && lines.items + [] == lines.items;
    Assoc(before, head, ConstCode(values));
    if needsTrue {
      Assoc(before, head + ConstCode(values), [Do(ConstTrue(TrueI1))]);
      lines.Append(Do(ConstTrue(TrueI1)));
    } else {
      assert (head + ConstCode(values)) + [] == head + ConstCode(values);
    }
  }

  method CollectLiterals(u: CharClass, ops: seq<Op>) returns (values: set<int>)
    ensures values == AllLiterals(u, ops)
  {
    hide ParseCondition, Literals;
    values := {};
    assert ops[0..] == ops;
    for k := 0 to |ops|
      invariant values + AllLiterals(u, ops[k..]) == AllLiterals(u, ops)
    {
      assert ops[k..][1..] == ops[k + 1..];
      values := values + TextLiterals(u, OpConditions(ops[k]));
    }
    assert ops[|ops|..] == [];
  }

  method RenderStd(u: CharClass, stream: Stream) returns (m: StdModule, values: seq<int>)
    ensures m == ModuleOf(u, stream, values)
    ensures Ascending(values) && forall v :: v in values <==> v in AllLiterals(u, stream.ops)
  {
    hide OpCode, PreludeCode, AllLiterals, Globals, NegatesConjunction;
    var globals := InternAll(stream.ops);
    var literals := CollectLiterals(u, stream.ops);
    values := SortedInts(literals);
    var lines := new Lines();
    var needsTrue := exists k :: 0 <= k < |stream.ops| && NegatesConjunction(u, stream.ops[k]);
    EmitPrelude(values, needsTrue, lines);
    ghost var prelude := PreludeCode(values, needsTrue);
    assert [] + prelude == prelude && prelude + [] == prelude;
    for k := 0 to |stream.ops|
      invariant lines.items == prelude + OpsCode(u, stream.ops, globals, k)
    {
      EmitOp(u, stream.ops[k], globals, lines);
      Assoc(prelude, OpsCode(u, stream.ops, globals, k), OpCode(u, stream.ops[k], globals));
    }
    m := StdModule(globals, lines.items, stream.failed);
  }
}
