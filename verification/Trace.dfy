/** The trace a compiled run prints, and how it is read back (`run_binary`, `ran_step_indices` in
    `impl/lnpl/backend.py`; `observe_mode_a` and `observe_mode_b` in `impl/lnpl/differential.py`). */
module Trace {
  import opened Wrappers
  import opened Text
  import opened Machine
  import opened Workflow
  import opened Flattening
  import opened Attempts
  import opened Blocks
  import opened Interp

  // ---- Standard output -----------------------------------------------------------------

  function Stdout(lines: seq<string>): string {
    if lines == [] then "" else lines[0] + "\n" + Stdout(lines[1..])
  }

  /** `stdout.splitlines()`, for any set `brk` of line-boundary characters; `\r\n` is one boundary. */
  function SplitLines(s: string, brk: char -> bool): seq<string>
    decreases |s|
  {
    if s == [] then []
    else
      var k := RunLength(s, brk);
      if k == |s| then [s]
      else
        var next := if s[k] == '\r' && k + 1 < |s| && s[k + 1] == '\n' then k + 2 else k + 1;
        [s[..k]] + SplitLines(s[next..], brk)
  }

  lemma SplitFirst(line: string, rest: string, brk: char -> bool)
    requires brk('\n') && NoneOf(line, brk)
    ensures SplitLines(line + "\n" + rest, brk) == [line] + SplitLines(rest, brk)
  {
    var s, k := line + "\n" + rest, |line|;
    assert s == line + ("\n" + rest);
    RunLengthOf(line, "\n" + rest, brk);
    hide RunLength;
    assert s[k] == '\n' && s[..k] == line && s[k + 1..] == rest;
  }

  /** Printed lines without a line boundary of their own are read back one by one. */
  lemma {:induction false} LinesReadBack(lines: seq<string>, brk: char -> bool)
    requires brk('\n') && forall k :: 0 <= k < |lines| ==> NoneOf(lines[k], brk)
    ensures SplitLines(Stdout(lines), brk) == lines
  {
    if lines != [] {
      SplitFirst(lines[0], Stdout(lines[1..]), brk);
      LinesReadBack(lines[1..], brk);
    }
  }

  // ---- Words of a line -----------------------------------------------------------------

  /** Position of the first space, or the length. */
  function SpaceAt(s: string): (k: nat)
    ensures k <= |s| && (forall j :: 0 <= j < k ==> s[j] != ' ') && (k < |s| ==> s[k] == ' ')
  {
    if s == [] || s[0] == ' ' then 0 else 1 + SpaceAt(s[1..])
  }

  /** `s.split(" ", n)`. */
  function Parts(s: string, n: nat): (parts: seq<string>)
    ensures 1 <= |parts| <= n + 1
    decreases n
  {
    var k := SpaceAt(s);
    if n == 0 || k == |s| then [s] else [s[..k]] + Parts(s[k + 1..], n - 1)
  }

  /** Position of the last space, or -1. */
  function LastSpace(s: string): (k: int)
    ensures -1 <= k < |s|
  {
    if s == [] then -1 else if s[|s| - 1] == ' ' then |s| - 1 else LastSpace(s[..|s| - 1])
  }

  lemma {:induction false} SpaceAtIs(a: string, b: string)
    requires ' ' !in a && (b == [] || b[0] == ' ')
    ensures SpaceAt(a + b) == |a|
  {
    if a == [] {
      assert a + b == b;
    } else {
      assert (a + b)[1..] == a[1..] + b;
      SpaceAtIs(a[1..], b);
    }
  }

  lemma PartsPeel(a: string, b: string, n: nat)
    requires ' ' !in a && n > 0
    ensures Parts(a + " " + b, n) == [a] + Parts(b, n - 1)
  {
    var s := a + " " + b;
    assert s == a + (" " + b);
    SpaceAtIs(a, " " + b);
    assert s[..|a|] == a && s[|a| + 1..] == b;
  }

  lemma {:induction false} LastSpaceIs(a: string, b: string)
    requires ' ' !in b
    ensures LastSpace(a + " " + b) == |a|
  {
    var s := a + " " + b;
    if b == [] {
      assert s[|s| - 1] == ' ';
    } else {
      assert s[..|s| - 1] == a + " " + b[..|b| - 1];
      LastSpaceIs(a, b[..|b| - 1]);
    }
  }

  // ---- Reading a trace -----------------------------------------------------------------

  type Effects = map<string, seq<string>>

  datatype Observation = Observation(order: seq<string>, effects: Effects, status: Option<string>)

  function EffectsOf(effects: Effects, name: string): seq<string> {
    if name in effects then effects[name] else []
  }

  function ReadLine(o: Observation, line: string): Observation {
    var parts := Parts(line, 2);
    if parts[0] == "step" && |parts| == 3 then
      o.(order := o.order + [parts[2]], effects := o.effects[parts[2] := EffectsOf(o.effects, parts[2])])
    else if parts[0] == "effect" && |parts| == 3 && |line| >= 7 then
      var body := line[7..];
      var k := LastSpace(body);
      if k < 0 then o
      else o.(effects := o.effects[body[..k] := EffectsOf(o.effects, body[..k]) + [body[k + 1..]]])
    else if parts[0] == "status" && |parts| >= 2 then o.(status := Some(parts[1]))
    else o
  }

  function ReadLines(o: Observation, lines: seq<string>): Observation {
    if lines == [] then o else ReadLine(ReadLines(o, lines[..|lines| - 1]), lines[|lines| - 1])
  }

  const NOTHING := Observation([], map[], None)

  lemma ReadSnoc(o: Observation, lines: seq<string>, line: string)
    ensures ReadLines(o, lines + [line]) == ReadLine(ReadLines(o, lines), line)
  {
    assert (lines + [line])[..|lines|] == lines;
  }

  lemma {:induction false} ReadConcat(o: Observation, a: seq<string>, b: seq<string>)
    ensures ReadLines(o, a + b) == ReadLines(ReadLines(o, a), b)
  {
    hide ReadLine;
    if b == [] {
      assert a + b == a;
    } else {
      var init, last := b[..|b| - 1], b[|b| - 1];
      assert a + b == (a + init) + [last];
      ReadSnoc(o, a + init, last);
      ReadConcat(o, a, init);
    }
  }

  /** The parser of `observe_mode_b`. An `effect` line of three words has a space in its body. */
  method ObserveLines(lines: seq<string>) returns (order: seq<string>, effects: Effects, status: Option<string>)
    ensures Observation(order, effects, status) == ReadLines(NOTHING, lines)
  {
    hide Parts, LastSpace;
    order, effects, status := [], map[], None;
    for k := 0 to |lines|
      invariant Observation(order, effects, status) == ReadLines(NOTHING, lines[..k])
    {
      assert lines[..k + 1] == lines[..k] + [lines[k]];
      ReadSnoc(NOTHING, lines[..k], lines[k]);
      var line := lines[k];
      var parts := Parts(line, 2);
      if parts[0] == "step" && |parts| == 3 {
        order := order + [parts[2]];
        if parts[2] !in effects {
          effects := effects[parts[2] := []];
        }
      } else if parts[0] == "effect" && |parts| == 3 && |line| >= 7 {
        var body := line[7..];
        var cut := LastSpace(body);
        if cut >= 0 {
          var name, kind := body[..cut], body[cut + 1..];
          effects := effects[name := (if name in effects then effects[name] else []) + [kind]];
        }
      } else if parts[0] == "status" && |parts| >= 2 {
        status := Some(parts[1]);
      }
    }
    assert lines[..|lines|] == lines;
  }

  /** The indices of the step lines. */
  function RanOf(lines: seq<string>): set<string> {
    if lines == [] then {}
    else
      var parts := Parts(lines[|lines| - 1], 2);
      RanOf(lines[..|lines| - 1]) + if parts[0] == "step" && |parts| == 3 then {parts[1]} else {}
  }

  method RanStepIndices(lines: seq<string>) returns (indices: set<string>)
    ensures indices == RanOf(lines)
  {
    indices := {};
    for k := 0 to |lines|
      invariant indices == RanOf(lines[..k])
    {
      assert lines[..k + 1][..k] == lines[..k] && lines[..k + 1][k] == lines[k];
      var parts := Parts(lines[k], 2);
      if parts[0] == "step" && |parts| == 3 {
        indices := indices + {parts[1]};
      }
    }
    assert lines[..|lines|] == lines;
  }

  // ---- One line ------------------------------------------------------------------------

  lemma {:induction false} DecimalHasNoSpace(n: nat)
    ensures ' ' !in Decimal(n)
  {
    var s := Decimal(n);
    forall k | 0 <= k < |s| ensures s[k] != ' ' {
      assert IsDigit(s[k]);
    }
  }

  lemma StepParts(index: nat, name: string)
    ensures Parts(StepLine(index, name), 2) == ["step", Decimal(index), name]
  {
    var digits := Decimal(index);
    DecimalHasNoSpace(index);
    assert StepLine(index, name) == "step" + " " + (digits + " " + name);
    PartsPeel("step", digits + " " + name, 2);
    PartsPeel(digits, name, 1);
  }

  lemma EffectParts(name: string, kind: string)
    requires ' ' !in kind
    ensures var line := EffectLine(name, kind);
            && Parts(line, 2)[0] == "effect" && |Parts(line, 2)| == 3
            && |line| >= 7 && line[7..] == name + " " + kind
            && LastSpace(line[7..]) == |name|
            && line[7..][..|name|] == name && line[7..][|name| + 1..] == kind
  {
    var line, body := EffectLine(name, kind), name + " " + kind;
    assert line == "effect" + " " + body;
    PartsPeel("effect", body, 2);
    assert body[|name|] == ' ';
    assert |Parts(body, 1)| == 2;
    LastSpaceIs(name, kind);
  }

  lemma StatusParts(word: string)
    requires ' ' !in word
    ensures Parts("status " + word, 2) == ["status", word]
  {
    assert "status" + " " == "status ";
    PartsPeel("status", word, 2);
    NoSpaceParts(word);
  }

  lemma NoSpaceParts(word: string)
    requires ' ' !in word
    ensures Parts(word, 1) == [word]
  {
    assert word + [] == word;
    SpaceAtIs(word, []);
  }

  lemma ReadStep(o: Observation, index: nat, name: string)
    ensures ReadLine(o, StepLine(index, name))
         == o.(order := o.order + [name], effects := o.effects[name := EffectsOf(o.effects, name)])
  {
    StepParts(index, name);
  }

  lemma ReadEffect(o: Observation, name: string, kind: string)
    requires ' ' !in kind
    ensures ReadLine(o, EffectLine(name, kind))
         == o.(effects := o.effects[name := EffectsOf(o.effects, name) + [kind]])
  {
    EffectParts(name, kind);
  }

  lemma ReadStatus(o: Observation, word: string)
    requires ' ' !in word
    ensures ReadLine(o, "status " + word) == o.(status := Some(word))
  {
    StatusParts(word);
  }

  // ---- What mode A accumulates ---------------------------------------------------------

  function AddSpan(o: Observation, span: Span): Observation {
    o.(order := o.order + [span.name], effects := o.effects[span.name := EffectsOf(o.effects, span.name) + span.kinds])
  }

  function AddSpans(o: Observation, spans: seq<Span>): Observation
    decreases spans
  {
    if spans == [] then o else AddSpans(AddSpan(o, spans[0]), spans[1..])
  }

  /** The effect kinds of the spans of one name, in order. */
  function KindsUnder(spans: seq<Span>, name: string): seq<string> {
    if spans == [] then []
    else (if spans[0].name == name then spans[0].kinds else []) + KindsUnder(spans[1..], name)
  }

  function SpanNames(spans: seq<Span>): (names: seq<string>)
    ensures |names| == |spans| && forall k :: 0 <= k < |spans| ==> names[k] == spans[k].name
  {
    if spans == [] then [] else [spans[0].name] + SpanNames(spans[1..])
  }

  lemma {:induction false} OrderAdds(o: Observation, spans: seq<Span>)
    ensures AddSpans(o, spans).order == o.order + SpanNames(spans)
    ensures AddSpans(o, spans).status == o.status
    decreases spans
  {
    if spans != [] {
      var rest := spans[1..];
      OrderAdds(AddSpan(o, spans[0]), rest);
      Assoc(o.order, [spans[0].name], SpanNames(rest));
    }
  }

  lemma {:induction false} EffectsAdd(o: Observation, spans: seq<Span>, name: string)
    ensures var p := AddSpans(o, spans);
            && (name in p.effects <==> name in o.effects || exists k :: 0 <= k < |spans| && spans[k].name == name)
            && EffectsOf(p.effects, name) == EffectsOf(o.effects, name) + KindsUnder(spans, name)
    decreases spans
  {
    if spans != [] {
      var q, rest := AddSpan(o, spans[0]), spans[1..];
      EffectsAdd(q, rest, name);
      hide AddSpans;
      assert AddSpans(o, spans) == AddSpans(q, rest) by { AddsFirst(o, spans); }
      assert forall k :: 0 < k < |spans| ==> spans[k] == rest[k - 1];
      assert forall k :: 0 <= k < |rest| ==> rest[k] == spans[k + 1];
      Assoc(EffectsOf(o.effects, name), if spans[0].name == name then spans[0].kinds else [], KindsUnder(rest, name));
    }
  }

  lemma AddsFirst(o: Observation, spans: seq<Span>)
    requires spans != []
    ensures AddSpans(o, spans) == AddSpans(AddSpan(o, spans[0]), spans[1..])
  {
  }

  /** What is accumulated over a run's spans: their names in order, and under each name the effects of all
      its spans. */
  lemma SpansAdd(spans: seq<Span>)
    ensures var p := AddSpans(NOTHING, spans);
            && p.status == None && p.order == SpanNames(spans)
            && (forall name :: name in p.effects <==> exists k :: 0 <= k < |spans| && spans[k].name == name)
            && (forall name :: name in p.effects ==> p.effects[name] == KindsUnder(spans, name))
  {
    hide AddSpans, KindsUnder, SpanNames;
    OrderAdds(NOTHING, spans);
    assert NOTHING.order + SpanNames(spans) == SpanNames(spans);
    forall name
      ensures name in AddSpans(NOTHING, spans).effects <==> exists k :: 0 <= k < |spans| && spans[k].name == name
      ensures EffectsOf(AddSpans(NOTHING, spans).effects, name) == KindsUnder(spans, name)
    {
      EffectsAdd(NOTHING, spans, name);
      assert [] + KindsUnder(spans, name) == KindsUnder(spans, name);
    }
  }

  /** `observe_mode_a`'s fold: the names in order, and under each the effects of all its spans. */
  method FoldSpans(spans: seq<Span>) returns (order: seq<string>, effects: Effects)
    ensures |order| == |spans| && forall k :: 0 <= k < |spans| ==> order[k] == spans[k].name
    ensures forall name :: name in effects <==> exists k :: 0 <= k < |spans| && spans[k].name == name
    ensures forall name :: name in effects ==> effects[name] == KindsUnder(spans, name)
    ensures Observation(order, effects, None) == AddSpans(NOTHING, spans)
  {
    SpansAdd(spans);
    hide KindsUnder;
    order, effects := [], map[];
    assert spans[0..] == spans;
    for k := 0 to |spans|
      invariant AddSpans(Observation(order, effects, None), spans[k..]) == AddSpans(NOTHING, spans)
    {
      assert spans[k..][1..] == spans[k + 1..];
      var name := spans[k].name;
      order := order + [name];
      effects := effects[name := (if name in effects then effects[name] else []) + spans[k].kinds];
    }
  }

  // ---- A run's lines -------------------------------------------------------------------

  // A step that ran: its plan index and its span.
  datatype Shown = Shown(index: nat, span: Span)

  function EffectLines(name: string, kinds: seq<string>): seq<string> {
    if kinds == [] then [] else EffectLines(name, kinds[..|kinds| - 1]) + [EffectLine(name, kinds[|kinds| - 1])]
  }

  function ShownLines(shown: Shown): seq<string> {
    [StepLine(shown.index, shown.span.name)] + EffectLines(shown.span.name, shown.span.kinds)
  }

  function AllLines(run: seq<Shown>): seq<string> {
    if run == [] then [] else AllLines(run[..|run| - 1]) + ShownLines(run[|run| - 1])
  }

  function SpansOf(run: seq<Shown>): seq<Span> {
    if run == [] then [] else SpansOf(run[..|run| - 1]) + [run[|run| - 1].span]
  }

  function IndicesOf(run: seq<Shown>): set<string> {
    if run == [] then {} else IndicesOf(run[..|run| - 1]) + {Decimal(run[|run| - 1].index)}
  }

  predicate SpaceFree(kinds: seq<string>) {
    forall k :: 0 <= k < |kinds| ==> ' ' !in kinds[k]
  }

  predicate AllSpaceFree(run: seq<Shown>) {
    forall k :: 0 <= k < |run| ==> SpaceFree(run[k].span.kinds)
  }

  lemma ReadNextEffect(o: Observation, name: string, init: seq<string>, last: string)
    requires ' ' !in last && name in o.effects
    requires ReadLines(o, EffectLines(name, init)) == o.(effects := o.effects[name := o.effects[name] + init])
    ensures ReadLines(o, EffectLines(name, init + [last]))
         == o.(effects := o.effects[name := o.effects[name] + (init + [last])])
  {
    hide ReadLine, ReadLines, EffectLine;
    assert (init + [last])[..|init|] == init;
    ReadSnoc(o, EffectLines(name, init), EffectLine(name, last));
    ReadEffect(ReadLines(o, EffectLines(name, init)), name, last);
    OverwriteEffects(o.effects, name, init, last);
  }

  lemma {:induction false} ReadEffects(o: Observation, name: string, kinds: seq<string>)
    requires SpaceFree(kinds) && name in o.effects
    ensures ReadLines(o, EffectLines(name, kinds)) == o.(effects := o.effects[name := o.effects[name] + kinds])
  {
    if kinds == [] {
      assert o.effects[name] + [] == o.effects[name];
    } else {
      var init, last := kinds[..|kinds| - 1], kinds[|kinds| - 1];
      assert kinds == init + [last];
      ReadEffects(o, name, init);
      ReadNextEffect(o, name, init, last);
    }
  }

  lemma OverwriteEffects(effects: Effects, name: string, init: seq<string>, last: string)
    requires name in effects
    ensures effects[name := effects[name] + init][name := (effects[name] + init) + [last]]
         == effects[name := effects[name] + (init + [last])]
  {
    Assoc(effects[name], init, [last]);
  }

  lemma ReadShown(o: Observation, shown: Shown)
    requires SpaceFree(shown.span.kinds)
    ensures ReadLines(o, ShownLines(shown)) == AddSpan(o, shown.span)
  {
    hide ReadLine, EffectLines;
    var name := shown.span.name;
    var step := [StepLine(shown.index, name)];
    ReadConcat(o, step, EffectLines(name, shown.span.kinds));
    assert [] + step == step;
    ReadSnoc(o, [], step[0]);
    ReadStep(o, shown.index, name);
    ReadEffects(ReadLines(o, step), name, shown.span.kinds);
  }

  lemma {:induction false} AddSpansSnoc(o: Observation, spans: seq<Span>, span: Span)
    ensures AddSpans(o, spans + [span]) == AddSpan(AddSpans(o, spans), span)
    decreases spans
  {
    hide AddSpan;
    if spans == [] {
      assert spans + [span] == [span] && [span][1..] == [];
    } else {
      assert (spans + [span])[1..] == spans[1..] + [span];
      AddSpansSnoc(AddSpan(o, spans[0]), spans[1..], span);
    }
  }

  /** Parsing a printed run gives the steps in order and exactly the effects mode A accumulates
      under each name, names that repeat or hold spaces included. */
  lemma {:induction false} RunReadsBack(run: seq<Shown>)
    requires AllSpaceFree(run)
    ensures ReadLines(NOTHING, AllLines(run)) == AddSpans(NOTHING, SpansOf(run))
  {
    if run != [] {
      hide SpaceFree, ReadLines, ShownLines, AddSpan;
      var init, last := run[..|run| - 1], run[|run| - 1];
      RunReadsBack(init);
      ReadConcat(NOTHING, AllLines(init), ShownLines(last));
      ReadShown(ReadLines(NOTHING, AllLines(init)), last);
      AddSpansSnoc(NOTHING, SpansOf(init), last.span);
    } else {
      assert ReadLines(NOTHING, []) == NOTHING;
    }
  }

  lemma {:induction false} RanConcat(a: seq<string>, b: seq<string>)
    ensures RanOf(a + b) == RanOf(a) + RanOf(b)
  {
    hide Parts;
    if b == [] {
      assert a + b == a;
    } else {
      assert (a + b)[..|a + b| - 1] == a + b[..|b| - 1];
      RanConcat(a, b[..|b| - 1]);
    }
  }

  lemma {:induction false} EffectsPrintNoIndex(name: string, kinds: seq<string>)
    requires SpaceFree(kinds)
    ensures RanOf(EffectLines(name, kinds)) == {}
  {
    if kinds != [] {
      var init, last := kinds[..|kinds| - 1], kinds[|kinds| - 1];
      EffectsPrintNoIndex(name, init);
      EffectParts(name, last);
      hide Parts;
      RanConcat(EffectLines(name, init), [EffectLine(name, last)]);
      RanOne(EffectLine(name, last));
    }
  }

  lemma RanOne(line: string)
    ensures RanOf([line]) == if Parts(line, 2)[0] == "step" && |Parts(line, 2)| == 3 then {Parts(line, 2)[1]} else {}
  {
    hide Parts;
    assert [line][..0] == [];
  }

  /** The indices read from a printed run are those of the steps that ran. */
  lemma {:induction false} IndicesReadBack(run: seq<Shown>)
    requires AllSpaceFree(run)
    ensures RanOf(AllLines(run)) == IndicesOf(run)
  {
    if run != [] {
      var init, last := run[..|run| - 1], run[|run| - 1];
      var step := [StepLine(last.index, last.span.name)];
      IndicesReadBack(init);
      StepParts(last.index, last.span.name);
      EffectsPrintNoIndex(last.span.name, last.span.kinds);
      hide Parts, SpaceFree, RanOf;
      RanConcat(AllLines(init), ShownLines(last));
      RanConcat(step, EffectLines(last.span.name, last.span.kinds));
      RanOne(step[0]);
    }
  }
}
