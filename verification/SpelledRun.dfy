/** The emitted text run as it is spelled: instructions over strings, parameters bound by position
    (`_render_std`, `runtime_c`, `run_binary` in `impl/lnpl/backend.py`). Where no two names are
    spelled alike it runs as the names do. */
module SpelledRun {
  import opened Wrappers
  import opened Text
  import ConditionSyntax
  import Ops
  import opened Conditions
  import opened Evaluation
  import opened Machine
  import opened GuardEmit
  import opened Render
  import opened RenderCorrect
  import opened SsaNames
  import opened SsaForm

  type SpelledCode = seq<Line<string>>

  // ---- Spelling out --------------------------------------------------------------------

  function SpellInstr(i: Instr<Name>): Instr<string> {
    match i
    case Const64(d, n) => Const64(Spell(d), n)
    case Const32(d, n) => Const32(Spell(d), n)
    case ConstTrue(d) => ConstTrue(Spell(d))
    case AddressOf(d, sym) => AddressOf(Spell(d), sym)
    case Binary(d, op, l, r) => Binary(Spell(d), op, Spell(l), Spell(r))
    case CompareI(d, pred, l, r) => CompareI(Spell(d), pred, Spell(l), Spell(r))
    case EqualI32(d, l, r) => EqualI32(Spell(d), Spell(l), Spell(r))
    case Select(d, c, l, r) => Select(Spell(d), Spell(c), Spell(l), Spell(r))
    case Logic(d, op, l, r) => Logic(Spell(d), op, Spell(l), Spell(r))
    case CallStep(d, p, i) => CallStep(Spell(d), Spell(p), Spell(i))
    case CallEffect(p, k) => CallEffect(Spell(p), Spell(k))
  }

  function SpellBody(body: Render.Body): (out: seq<Instr<string>>)
    ensures |out| == |body|
  {
    if body == [] then [] else [SpellInstr(body[0])] + SpellBody(body[1..])
  }

  function SpellLine(line: Line<Name>): Line<string> {
    match line
    case Do(i) => Do(SpellInstr(i))
    case If(c, body) => If(Spell(c), SpellBody(body))
  }

  function SpellCode(code: Code): (out: SpelledCode)
    ensures |out| == |code|
  {
    if code == [] then [] else [SpellLine(code[0])] + SpellCode(code[1..])
  }

  // ---- Parameters ----------------------------------------------------------------------

  /** The values of the fields, in the order the function takes them; a missing one is 0. */
  function Args(fields: seq<string>, words: Scope): (args: seq<int>)
    ensures |args| == |fields|
    ensures forall k :: 0 <= k < |fields| && fields[k] in words ==> args[k] == words[fields[k]]
  {
    if fields == [] then []
    else [if fields[0] in words then words[fields[0]] else 0] + Args(fields[1..], words)
  }

  /** The parameters of `lnpl_run`, bound by position. */
  function BoundParams(fields: seq<string>, args: seq<int>, skip: int): map<string, Val>
    requires |args| == |fields|
  {
    if fields == [] then map["skip" := I32(skip)]
    else
      var last := |fields| - 1;
      BoundParams(fields[..last], args[..last], skip)[FieldIdent(fields[last]) := I64(args[last])]
  }

  /** The fields, each once and in order. */
  ghost predicate Lists(fields: seq<string>, all: set<string>) {
    && (forall j, k :: 0 <= j < k < |fields| ==> Before(fields[j], fields[k]))
    && forall r :: r in fields <==> r in all
  }

  lemma ListedOnce(fields: seq<string>, all: set<string>)
    requires Lists(fields, all)
    ensures forall j, k :: 0 <= j < |fields| && 0 <= k < |fields| && j != k ==> fields[j] != fields[k]
  {
    forall j, k | 0 <= j < k < |fields| ensures fields[j] != fields[k] {
      BeforeIsTotal(fields[j], fields[k]);
    }
  }

  method CollectFields(u: ConditionSyntax.CharClass, ops: seq<Ops.Op>) returns (all: set<string>)
    ensures all == FieldNames(u, ops)
  {
    hide TextRefs;
    all := {};
    assert ops[0..] == ops;
    for k := 0 to |ops|
      invariant all + FieldNames(u, ops[k..]) == FieldNames(u, ops)
    {
      assert ops[k..][1..] == ops[k + 1..];
      all := all + TextRefs(u, OpConditions(ops[k]));
    }
    assert ops[|ops|..] == [];
  }

  lemma {:induction false} FirstOf(s: set<string>) returns (m: string)
    requires s != {}
    ensures m in s && forall x :: x in s ==> x == m || Before(m, x)
    decreases |s|
  {
    var pick :| pick in s;
    m := pick;
    var others := s - {pick};
    assert forall x :: x in s ==> x == pick || x in others;
    if others != {} {
      var k := FirstOf(others);
      BeforeIsTotal(pick, k);
      if Before(k, pick) {
        m := k;
      } else {
        forall x | x in others && x != k ensures Before(pick, x) {
          BeforeTransitive(pick, k, x);
        }
      }
    }
  }

  /** `sorted(fields)`. */
  method SortedFields(all: set<string>) returns (fields: seq<string>)
    ensures Lists(fields, all)
  {
    fields := [];
    var left := all;
    while left != {}
      invariant left <= all && forall j, k :: 0 <= j < k < |fields| ==> Before(fields[j], fields[k])
      invariant forall r :: r in all <==> r in fields || r in left
      invariant forall j, r :: 0 <= j < |fields| && r in left ==> Before(fields[j], r)
      decreases |left|
    {
      ghost var least := FirstOf(left);
      var m :| m in left && forall r :: r in left ==> r == m || Before(m, r);
      fields := fields + [m];
      left := left - {m};
    }
  }

  lemma {:induction false} BoundByPosition(fields: seq<string>, args: seq<int>, skip: int, k: nat)
    requires |args| == |fields| && k < |fields|
    requires forall j :: 0 <= j < |fields| && j != k ==> FieldIdent(fields[j]) != FieldIdent(fields[k])
    ensures var env := BoundParams(fields, args, skip);
            FieldIdent(fields[k]) in env && env[FieldIdent(fields[k])] == I64(args[k])
  {
    if k < |fields| - 1 {
      BoundByPosition(fields[..|fields| - 1], args[..|fields| - 1], skip, k);
    }
  }

  lemma {:induction false} SkipStaysBound(fields: seq<string>, args: seq<int>, skip: int)
    requires |args| == |fields| && forall j :: 0 <= j < |fields| ==> FieldIdent(fields[j]) != "skip"
    ensures var env := BoundParams(fields, args, skip); "skip" in env && env["skip"] == I32(skip)
  {
    if fields != [] {
      SkipStaysBound(fields[..|fields| - 1], args[..|fields| - 1], skip);
    }
  }

  // ---- Simulation ----------------------------------------------------------------------

  /** While the names run, the text runs with the same output and the same values under their
      spellings. */
  ghost predicate Related(names: set<Name>, m: Machine<Name>, t: Machine<string>) {
    m.Running? ==>
      && t.Running? && t.out == m.out
      && forall x :: x in names && x in m.env ==> Spell(x) in t.env && t.env[Spell(x)] == m.env[x]
  }

  lemma BindRelated(names: set<Name>, m: Machine<Name>, t: Machine<string>, d: Name, v: Val)
    requires Apart(names) && Related(names, m, t) && m.Running? && d in names
    ensures Related(names, Bind(m, d, v), Bind(t, Spell(d), v))
  {
    hide Spell;
  }

  lemma ArithmeticRelated(names: set<Name>, m: Machine<Name>, t: Machine<string>, d: Name, op: ArithOp, a: int, b: int)
    requires Apart(names) && Related(names, m, t) && m.Running? && d in names
    ensures Related(names, Arithmetic(m, d, op, a, b), Arithmetic(t, Spell(d), op, a, b))
  {
    hide Spell, Wrap, Quotient, Apart, Related;
    BindRelated(names, m, t, d, I64(Wrap(a + b)));
    BindRelated(names, m, t, d, I64(Wrap(a - b)));
    BindRelated(names, m, t, d, I64(Wrap(a * b)));
    if b != 0 {
      BindRelated(names, m, t, d, I64(Wrap(Quotient(a, b))));
    }
    HaltRelated(names);
  }

  lemma HaltRelated(names: set<Name>)
    ensures forall t :: Related(names, DividedByZero, t) && Related(names, QuotientOverflow, t)
  {
  }

  lemma InstrRelated(i: Instr<Name>, names: set<Name>, globals: seq<string>, m: Machine<Name>, t: Machine<string>)
    requires Apart(names) && UsesOf(i) <= names && DefsOf(i) <= names && Related(names, m, t)
    ensures Related(names, ExecInstr(i, globals, m), ExecInstr(SpellInstr(i), globals, t))
  {
    hide Spell, Arithmetic, Apart, CText, StepLine, EffectLine, Compare;
    if m.Running? && ExecInstr(i, globals, m).Running? {
      match i
      case Const64(d, n) => BindRelated(names, m, t, d, I64(n));
      case Const32(d, n) => BindRelated(names, m, t, d, I32(n));
      case ConstTrue(d) => BindRelated(names, m, t, d, Bit(true));
      case AddressOf(d, sym) => BindRelated(names, m, t, d, Ptr(sym));
      case Binary(d, op, l, r) => ArithmeticRelated(names, m, t, d, op, m.env[l].n, m.env[r].n);
      case CompareI(d, pred, l, r) => BindRelated(names, m, t, d, Bit(Compare(pred, m.env[l].n, m.env[r].n)));
      case EqualI32(d, l, r) => BindRelated(names, m, t, d, Bit(m.env[l].m == m.env[r].m));
      case Select(d, c, l, r) => BindRelated(names, m, t, d, if m.env[c].b then m.env[l] else m.env[r]);
      case Logic(d, op, l, r) => BindRelated(names, m, t, d, Bit(LogicResult(op, m.env[l].b, m.env[r].b)));
      case CallStep(d, p, n) => BindRelated(names, m, t, d, I32(0));
      case CallEffect(p, k) =>
    }
  }

  lemma {:induction false} BodyRelated(body: Render.Body, visible: set<Name>, taken: set<Name>, names: set<Name>,
                                       globals: seq<string>, m: Machine<Name>, t: Machine<string>)
    requires Apart(names) && BodyOk(body, visible, taken) && visible <= names && BodyDefs(body) <= names
             && Related(names, m, t)
    ensures Related(names, ExecInstrs(body, globals, m), ExecInstrs(SpellBody(body), globals, t))
    decreases body
  {
    if body != [] {
      hide Spell, ExecInstr, SpellInstr, Apart, Related, UsesOf, DefsOf;
      InstrRelated(body[0], names, globals, m, t);
      assert SpellBody(body)[1..] == SpellBody(body[1..]);
      BodyRelated(body[1..], visible + DefsOf(body[0]), taken + DefsOf(body[0]), names, globals,
                  ExecInstr(body[0], globals, m), ExecInstr(SpellInstr(body[0]), globals, t));
    }
  }

  lemma LineRelated(line: Line<Name>, visible: set<Name>, taken: set<Name>, names: set<Name>,
                    globals: seq<string>, m: Machine<Name>, t: Machine<string>)
    requires Apart(names) && LineOk(line, visible, taken) && visible <= names && LineDefs(line) <= names
             && Related(names, m, t)
    ensures Related(names, ExecLine(line, globals, m), ExecLine(SpellLine(line), globals, t))
  {
    hide Spell, ExecInstr, SpellInstr, Apart, UsesOf, DefsOf, ExecInstrs, SpellBody, BodyOk, BodyDefs;
    match line
    case Do(i) => InstrRelated(i, names, globals, m, t);
    case If(c, body) => BodyRelated(body, visible, taken, names, globals, m, t);
  }

  lemma {:induction false} CodeRelated(code: Code, visible: set<Name>, taken: set<Name>, names: set<Name>,
                                       globals: seq<string>, m: Machine<Name>, t: Machine<string>)
    requires Apart(names) && Ssa(code, visible, taken) && visible <= names && Defs(code) <= names
             && Related(names, m, t)
    ensures Related(names, Exec(code, globals, m), Exec(SpellCode(code), globals, t))
    decreases code
  {
    if code != [] {
      hide Spell, ExecLine, SpellLine, Apart, Related, LineOk;
      LineRelated(code[0], visible, taken, names, globals, m, t);
      assert SpellCode(code)[1..] == SpellCode(code[1..]);
      ShownIsDefined(code[0]);
      CodeRelated(code[1..], visible + LineShows(code[0]), taken + LineDefs(code[0]), names, globals,
                  ExecLine(code[0], globals, m), ExecLine(SpellLine(code[0]), globals, t));
    }
  }

  lemma ShownIsDefined(line: Line<Name>)
    ensures LineShows(line) <= LineDefs(line)
  {
  }

  /** The parameters bound by position are the parameters by name. */
  lemma ParamsRelated(fields: seq<string>, all: set<string>, words: Scope, skip: int, names: set<Name>)
    requires Apart(names) && Lists(fields, all)
    requires Skip in names && (forall r :: r in all <==> Field(r) in names)
    ensures Related(names, Running(ParamEnv(words, skip), []),
                    Running(BoundParams(fields, Args(fields, words), skip), []))
  {
    var env, args := BoundParams(fields, Args(fields, words), skip), Args(fields, words);
    ListedOnce(fields, all);
    assert Spell(Skip) == "skip" by { SkipSpelled(); }
    forall k | 0 <= k < |fields| ensures FieldIdent(fields[k]) != "skip" {
      assert Spell(Field(fields[k])) == FieldIdent(fields[k]) && fields[k] in all;
    }
    SkipStaysBound(fields, args, skip);
    forall x | x in names && x in ParamEnv(words, skip) ensures Spell(x) in env
        && env[Spell(x)] == ParamEnv(words, skip)[x] {
      if x.Field? {
        var k :| 0 <= k < |fields| && fields[k] == x.ref;
        forall j | 0 <= j < |fields| && j != k ensures FieldIdent(fields[j]) != FieldIdent(fields[k]) {
          assert Spell(Field(fields[j])) == FieldIdent(fields[j]) && Spell(Field(fields[k])) == FieldIdent(fields[k]);
          assert fields[j] in all && fields[k] in all;
        }
        BoundByPosition(fields, args, skip, k);
      }
    }
  }

  /** The emitted text runs as its names do, when no two of them are spelled alike. */
  lemma TextRuns(u: ConditionSyntax.CharClass, stream: Ops.Stream, values: seq<int>, fields: seq<string>,
                 all: set<string>,
                 words: Scope, skip: int)
    requires Renders(u, all, stream, values) && Lists(fields, all)
    requires Apart(AllNames(u, all, stream, values))
    ensures var m := ModuleOf(u, stream, values);
            var end := Exec(m.code, m.globals, Running(ParamEnv(words, skip), []));
            var text := Exec(SpellCode(m.code), m.globals, Running(BoundParams(fields, Args(fields, words), skip), []));
            end.Running? ==> text.Running? && text.out == end.out
  {
    hide Ssa, Defs, ModuleOf, Exec, SpellCode, BoundParams, ParamEnv, Apart, Renders;
    var m, names := ModuleOf(u, stream, values), AllNames(u, all, stream, values);
    ModuleIsSsa(u, all, stream, values);
    forall r ensures r in all <==> Field(r) in names {
      InNames(u, all, stream, values, Field(r));
      if Field(r) in MadeUp(u, stream, values) {
        MadeUpName(u, all, stream, values, Field(r));
      }
    }
    ParamsRelated(fields, all, words, skip, names);
    CodeRelated(m.code, Params(all), Params(all), names, m.globals, Running(ParamEnv(words, skip), []),
                Running(BoundParams(fields, Args(fields, words), skip), []));
  }
}
