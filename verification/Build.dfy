/** Whether the emitted text builds (`build`, `runtime_c` and `_field_ident` in
    `impl/lnpl/backend.py`): mlir-opt reads the function, in which every name must be new where it is
    defined, and the C compiler reads the shim, whose `main` declares a variable for every condition
    field beside its own names. */
module Build {
  import opened Wrappers
  import opened Text
  import ConditionSyntax
  import opened Machine
  import opened GuardEmit
  import opened Workflow
  import Ops
  import opened Render
  import opened SsaNames
  import opened SsaForm
  import opened SpelledRun

  // ---- mlir-opt ------------------------------------------------------------------------

  function TextDefs(i: Instr<string>): set<string> {
    if i.CallEffect? then {} else {i.d}
  }

  function TextUses(i: Instr<string>): set<string> {
    match i
    case Binary(_, _, l, r) => {l, r}
    case CompareI(_, _, l, r) => {l, r}
    case EqualI32(_, l, r) => {l, r}
    case Select(_, c, l, r) => {c, l, r}
    case Logic(_, _, l, r) => {l, r}
    case CallStep(_, p, i) => {p, i}
    case CallEffect(p, k) => {p, k}
    case _ => {}
  }

  predicate InstrReads(i: Instr<string>, visible: set<string>) {
    TextUses(i) <= visible && TextDefs(i) !! visible
  }

  predicate BodyReads(body: seq<Instr<string>>, visible: set<string>) {
    body == [] || (InstrReads(body[0], visible) && BodyReads(body[1..], visible + TextDefs(body[0])))
  }

  /** Every name is visible where it is used and new where it is defined; what an `scf.if` defines is
      forgotten after it. */
  predicate CodeReads(code: SpelledCode, visible: set<string>) {
    code == [] || (
      match code[0]
      case Do(i) => InstrReads(i, visible) && CodeReads(code[1..], visible + TextDefs(i))
      case If(c, body) => c in visible && BodyReads(body, visible) && CodeReads(code[1..], visible))
  }

  predicate Distinct(names: seq<string>) {
    forall j, k :: 0 <= j < k < |names| ==> names[j] != names[k]
  }

  function Idents(fields: seq<string>): (out: seq<string>)
    ensures |out| == |fields| && forall k :: 0 <= k < |fields| ==> out[k] == FieldIdent(fields[k])
  {
    if fields == [] then [] else [FieldIdent(fields[0])] + Idents(fields[1..])
  }

  function Parameters(fields: seq<string>): seq<string> {
    ["skip"] + Idents(fields)
  }

  predicate IsIdentChar(c: char) {
    'a' <= c <= 'z' || 'A' <= c <= 'Z' || IsDigit(c) || c == '_'
  }

  /** An identifier of ASCII letters, digits and underscores. */
  predicate IsIdent(s: string) {
    s != [] && !IsDigit(s[0]) && forall k :: 0 <= k < |s| ==> IsIdentChar(s[k])
  }

  predicate AllIdents(names: seq<string>) {
    forall k :: 0 <= k < |names| ==> IsIdent(names[k])
  }

  /** The characters of an identifier by their ASCII codes. */
  lemma IdentCharsAre(c: char)
    ensures IsIdentChar(c)
       <==> var n := c as int; 0x61 <= n <= 0x7a || 0x41 <= n <= 0x5a || 0x30 <= n <= 0x39 || n == 0x5f
  {
    assert 'a' as int == 0x61 && 'z' as int == 0x7a && 'A' as int == 0x41 && 'Z' as int == 0x5a;
    assert '0' as int == 0x30 && '9' as int == 0x39 && '_' as int == 0x5f;
    assert c as int == 0x5f ==> c == 0x5f as char;
  }

  /** The function as mlir-opt reads it. */
  predicate FunctionReads(code: SpelledCode, fields: seq<string>) {
    && Distinct(Parameters(fields)) && AllIdents(Idents(fields))
    && CodeReads(code, set k | 0 <= k < |Parameters(fields)| :: Parameters(fields)[k])
  }

  // ---- The C compiler ------------------------------------------------------------------

  /** The keywords of C17. */
  predicate IsKeyword(s: string) {
    s in ["auto", "break", "case", "char", "const", "continue", "default", "do", "double", "else", "enum", "extern",
          "float", "for", "goto", "if", "inline", "int", "long", "register", "restrict", "return", "short", "signed",
          "sizeof", "static", "struct", "switch", "typedef", "union", "unsigned", "void", "volatile", "while"]
  }

  /** What `main` declares, in order. */
  function Locals(fields: seq<string>): seq<string> {
    ["argc", "argv", "skip"] + Idents(fields) + ["rc"]
  }

  /** A variable of this name can be declared in `main`: it is no keyword, none of the words that the
      compiler's dialect and the headers take (`words`), and hides no function that `main` calls. */
  predicate Declarable(name: string, words: set<string>) {
    IsIdent(name) && !IsKeyword(name) && name !in words && name != "printf" && name != "strtoll"
  }

  predicate ShimCompiles(fields: seq<string>, words: set<string>) {
    && Distinct(Locals(fields))
    && forall k :: 0 <= k < |Idents(fields)| ==> Declarable(Idents(fields)[k], words)
  }

  predicate Builds(code: SpelledCode, fields: seq<string>, words: set<string>) {
    FunctionReads(code, fields) && ShimCompiles(fields, words)
  }

  lemma FiveApart(a: string, b: string, c: string, d: string, e: string)
    requires a != b && a != c && a != e && b != c && b != e && c != e
    ensures Distinct([a, b, c, d, e]) <==> d !in [a, b, c, e]
  {
    var names := [a, b, c, d, e];
    assert names[0] == a && names[1] == b && names[2] == c && names[3] == d && names[4] == e;
    if d !in [a, b, c, e] {
      assert [a, b, c, e][0] == a && [a, b, c, e][1] == b && [a, b, c, e][2] == c && [a, b, c, e][3] == e;
    }
  }

  lemma MainsNames()
    ensures "argc" != "argv" && "argc" != "skip" && "argc" != "rc" && "argv" != "skip" && "argv" != "rc"
            && "skip" != "rc"
  {
    assert "argc"[3] != "argv"[3] && "argc"[0] != "skip"[0] && "argv"[0] != "skip"[0] && |"rc"| != |"argc"|;
    assert |"rc"| != |"argv"| && |"rc"| != |"skip"|;
  }

  lemma LocalsApart(name: string)
    requires FieldIdent(name) == name
    ensures Distinct(Locals([name])) <==> name !in ["argc", "argv", "skip", "rc"]
  {
    hide Distinct, FieldIdent;
    assert Idents([name]) == [name];
    assert Locals([name]) == ["argc", "argv", "skip", name, "rc"];
    MainsNames();
    FiveApart("argc", "argv", "skip", name, "rc");
  }

  lemma WordsTaken(name: string, words: set<string>)
    requires IsIdent(name) && FieldIdent(name) == name
    ensures ShimCompiles([name], words)
       <==> Distinct(Locals([name])) && !IsKeyword(name) && name !in words && name != "printf" && name != "strtoll"
  {
    hide IsKeyword, Distinct, Locals, IsIdent;
    assert Idents([name]) == [name];
  }

  lemma KeywordsAre(name: string)
    ensures IsKeyword(name)
       <==> name in ["auto", "break", "case", "char", "const", "continue", "default", "do", "double", "else", "enum",
                     "extern", "float", "for", "goto", "if", "inline", "int", "long", "register", "restrict", "return",
                     "short", "signed", "sizeof", "static", "struct", "switch", "typedef", "union", "unsigned", "void",
                     "volatile", "while"]
  {
  }

  /** A condition field without a dot can be declared exactly if it is none of the 34 words that C17 keeps
      for itself, no variable of `main`, no function it calls and nothing that `words` holds. */
  lemma RefusedNames(name: string, words: set<string>)
    requires IsIdent(name)
    ensures ShimCompiles([name], words)
       <==> && name !in words && name !in ["argc", "argv", "skip", "rc"] && name != "printf" && name != "strtoll"
            && name !in ["auto", "break", "case", "char", "const", "continue", "default", "do", "double", "else",
                         "enum", "extern", "float", "for", "goto", "if", "inline", "int", "long", "register",
                         "restrict", "return", "short", "signed", "sizeof", "static", "struct", "switch", "typedef",
                         "union", "unsigned", "void", "volatile", "while"]
  {
    NoDotIdent(name);
    hide *;
    LocalsApart(name);
    WordsTaken(name, words);
    KeywordsAre(name);
  }

  lemma {:induction false} NoDotIdent(name: string)
    requires forall k :: 0 <= k < |name| ==> IsIdentChar(name[k])
    ensures FieldIdent(name) == name
  {
    if name != [] {
      NoDotIdent(name[1..]);
    }
  }

  // ---- What a document can be checked for ----------------------------------------------

  predicate PlainChars(r: string) {
    forall k :: 0 <= k < |r| ==> IsIdentChar(r[k]) || r[k] == '.'
  }

  /** A reference that the shim can take: ASCII, no word of C and no name of `main`. */
  predicate Takable(r: string, words: set<string>) {
    && PlainChars(r) && !IsKeyword(FieldIdent(r)) && FieldIdent(r) !in words
    && r != "argc" && r != "argv" && r != "rc" && r != "printf" && r != "strtoll"
  }

  /** Every reference can be taken, and none is spelled like a name the function makes up. */
  ghost predicate Buildable(u: ConditionSyntax.CharClass, all: set<string>, stream: Ops.Stream, values: seq<int>,
                            words: set<string>) {
    (forall r :: r in all ==> Takable(r, words)) && !Collides(u, all, stream, values)
  }

  // ---- Identifiers ---------------------------------------------------------------------

  lemma {:induction false} IdentChars(r: string)
    ensures (forall k :: 0 <= k < |FieldIdent(r)| ==> IsIdentChar(FieldIdent(r)[k])) <==> PlainChars(r)
  {
    hide IsIdentChar;
    if r != [] {
      IdentChars(r[1..]);
      var first := if r[0] == '.' then "__" else [r[0]];
      assert FieldIdent(r) == first + FieldIdent(r[1..]);
      assert IsIdentChar('_') by { UnderscoreIsPlain(); }
      assert PlainChars(r) <==> (IsIdentChar(r[0]) || r[0] == '.') && PlainChars(r[1..]) by {
        assert forall k :: 0 < k < |r| ==> r[k] == r[1..][k - 1];
        assert forall k :: 0 <= k < |r| - 1 ==> r[1..][k] == r[k + 1];
      }
      assert (forall k :: 0 <= k < |first| ==> IsIdentChar(first[k])) <==> IsIdentChar(r[0]) || r[0] == '.' by {
        assert first[0] == if r[0] == '.' then '_' else r[0];
      }
      CharsOfBoth(first, FieldIdent(r[1..]));
    }
  }

  lemma UnderscoreIsPlain()
    ensures IsIdentChar('_')
  {
  }

  lemma CharsOfBoth(a: string, b: string)
    ensures (forall k :: 0 <= k < |a + b| ==> IsIdentChar((a + b)[k]))
       <==> (forall k :: 0 <= k < |a| ==> IsIdentChar(a[k])) && (forall k :: 0 <= k < |b| ==> IsIdentChar(b[k]))
  {
    hide IsIdentChar;
    var s := a + b;
    assert forall k :: 0 <= k < |a| ==> s[k] == a[k];
    assert forall k :: 0 <= k < |b| ==> s[|a| + k] == b[k];
  }

  lemma StartsWithLetter(u: ConditionSyntax.CharClass, r: string)
    requires u.Sane() && ConditionSyntax.IsReference(u, r)
    ensures FieldIdent(r) != [] && !IsDigit(FieldIdent(r)[0])
  {
    var k := ConditionSyntax.DotAt(r);
    assert r[..k] != [] && r[0] == r[..k][0];
    assert u.alnum(r[..k][0]);
  }

  lemma IdentIs(u: ConditionSyntax.CharClass, r: string)
    requires u.Sane() && ConditionSyntax.IsReference(u, r)
    ensures IsIdent(FieldIdent(r)) <==> PlainChars(r)
  {
    hide PlainChars;
    StartsWithLetter(u, r);
    IdentChars(r);
  }

  /** A word without underscores is the identifier of itself alone. */
  lemma IdentOfWord(u: ConditionSyntax.CharClass, r: string, word: string)
    requires u.Sane() && ConditionSyntax.IsReference(u, r) && Solid(word) && '.' !in word
    ensures FieldIdent(r) == word <==> r == word
  {
    if Qualified(r) {
      hide ConditionSyntax.CharClass.Sane, ConditionSyntax.IsReference, FieldIdent;
      FieldSpelling(u, r);
      DottedJoin(FieldParts(r)[0], FieldParts(r)[2]);
      assert FieldParts(r) == [FieldParts(r)[0], "", FieldParts(r)[2]];
      assert FieldIdent(r)[|FieldParts(r)[0]|] == '_';
      assert r[|FieldParts(r)[0]|] == '.';
    } else {
      BareIsItself(u, r);
    }
  }

  // ---- The function --------------------------------------------------------------------

  function Spelled(names: set<Name>): set<string> {
    set x | x in names :: Spell(x)
  }

  lemma SpelledInstr(i: Instr<Name>)
    ensures TextDefs(SpellInstr(i)) == Spelled(DefsOf(i)) && TextUses(SpellInstr(i)) == Spelled(UsesOf(i))
  {
    hide Spell;
  }

  lemma SpelledBoth(a: set<Name>, b: set<Name>)
    ensures Spelled(a + b) == Spelled(a) + Spelled(b)
  {
    hide Spell;
  }

  lemma InstrReadsWell(i: Instr<Name>, visible: set<Name>, taken: set<Name>, names: set<Name>)
    requires Apart(names) && InstrOk(i, visible, taken) && visible <= taken && taken <= names && DefsOf(i) <= names
    ensures InstrReads(SpellInstr(i), Spelled(visible))
  {
    hide Spell, UsesOf, DefsOf, SpellInstr;
    SpelledInstr(i);
    forall s | s in Spelled(DefsOf(i)) ensures s !in Spelled(visible) {
      var x :| x in DefsOf(i) && Spell(x) == s;
      forall y | y in visible ensures Spell(y) != s {
        assert x in names && y in names && x != y;
      }
    }
  }

  lemma {:induction false} BodyReadsWell(body: Render.Body, visible: set<Name>, taken: set<Name>, names: set<Name>)
    requires Apart(names) && BodyOk(body, visible, taken) && visible <= taken && taken <= names
             && BodyDefs(body) <= names
    ensures BodyReads(SpellBody(body), Spelled(visible))
    decreases body
  {
    if body != [] {
      hide Spell, UsesOf, DefsOf, SpellInstr, Apart, TextDefs, Spelled;
      InstrReadsWell(body[0], visible, taken, names);
      SpelledInstr(body[0]);
      SpelledBoth(visible, DefsOf(body[0]));
      assert SpellBody(body)[1..] == SpellBody(body[1..]);
      BodyReadsWell(body[1..], visible + DefsOf(body[0]), taken + DefsOf(body[0]), names);
    }
  }

  /** A function whose names are apart reads well. */
  lemma {:induction false} CodeReadsWell(code: Code, visible: set<Name>, taken: set<Name>, names: set<Name>)
    requires Apart(names) && Ssa(code, visible, taken) && visible <= taken && taken <= names && Defs(code) <= names
    ensures CodeReads(SpellCode(code), Spelled(visible))
    decreases code
  {
    if code != [] {
      hide Spell, UsesOf, DefsOf, SpellInstr, Apart, TextDefs, Spelled, BodyDefs, BodyOk, BodyReads, SpellBody, InstrOk,
           InstrReads;
      assert SpellCode(code)[1..] == SpellCode(code[1..]);
      match code[0]
      case Do(i) =>
        InstrReadsWell(i, visible, taken, names);
        SpelledInstr(i);
        SpelledBoth(visible, DefsOf(i));
        CodeReadsWell(code[1..], visible + DefsOf(i), taken + DefsOf(i), names);
      case If(c, body) =>
        SeenSpelled(c, visible);
        BodyReadsWell(body, visible, taken, names);
        CodeReadsWell(code[1..], visible, taken + BodyDefs(body), names) by { assert visible + {} == visible; }
    }
  }

  lemma SeenSpelled(c: Name, visible: set<Name>)
    requires c in visible
    ensures Spell(c) in Spelled(visible)
  {
    hide Spell;
  }

  lemma {:induction false} BodyTakes(body: Render.Body, visible: set<string>, x: Name)
    requires x in BodyDefs(body) && Spell(x) in visible
    ensures !BodyReads(SpellBody(body), visible)
    decreases body
  {
    hide Spell, UsesOf, SpellInstr, DefsOf;
    SpelledInstr(body[0]);
    assert SpellBody(body)[1..] == SpellBody(body[1..]);
    if x in DefsOf(body[0]) {
      SeenSpelled(x, DefsOf(body[0]));
    } else {
      BodyTakes(body[1..], visible + TextDefs(SpellInstr(body[0])), x);
    }
  }

  /** One that defines what is already visible does not. */
  lemma {:induction false} CodeTakes(code: Code, visible: set<string>, x: Name)
    requires x in Defs(code) && Spell(x) in visible
    ensures !CodeReads(SpellCode(code), visible)
    decreases code
  {
    hide Spell, UsesOf, SpellInstr, DefsOf, BodyDefs, BodyReads, SpellBody;
    assert SpellCode(code)[1..] == SpellCode(code[1..]);
    match code[0]
    case Do(i) =>
      SpelledInstr(i);
      if x in DefsOf(i) {
        SeenSpelled(x, DefsOf(i));
      } else {
        CodeTakes(code[1..], visible + TextDefs(SpellInstr(i)), x);
      }
    case If(c, body) =>
      if x in BodyDefs(body) {
        BodyTakes(body, visible, x);
      } else {
        CodeTakes(code[1..], visible, x);
      }
  }

  // ---- Main result ---------------------------------------------------------------------

  lemma ParametersSpelled(fields: seq<string>, all: set<string>)
    requires Lists(fields, all)
    ensures (set k | 0 <= k < |Parameters(fields)| :: Parameters(fields)[k]) == Spelled(Params(all))
  {
    hide Spell, Idents;
    SkipSpelled();
    var listed := set k | 0 <= k < |Parameters(fields)| :: Parameters(fields)[k];
    forall r | r in all ensures Spell(Field(r)) == FieldIdent(r) {
      FieldSpelled(r);
    }
    forall s | s in listed ensures s in Spelled(Params(all)) {
      var k :| 0 <= k < |Parameters(fields)| && Parameters(fields)[k] == s;
      if k == 0 {
        SeenSpelled(Skip, Params(all));
      } else {
        assert fields[k - 1] in all;
        SeenSpelled(Field(fields[k - 1]), Params(all));
      }
    }
    forall s | s in Spelled(Params(all)) ensures s in listed {
      var x :| x in Params(all) && Spell(x) == s;
      if x == Skip {
        assert Parameters(fields)[0] == s;
      } else {
        var k :| 0 <= k < |fields| && fields[k] == x.ref;
        assert Parameters(fields)[k + 1] == s;
      }
    }
  }

  lemma FieldSpelled(r: string)
    ensures Spell(Field(r)) == FieldIdent(r)
  {
  }

  lemma FieldsDistinct(u: ConditionSyntax.CharClass, fields: seq<string>, all: set<string>)
    requires u.Sane() && Lists(fields, all) && forall r :: r in all ==> ConditionSyntax.IsReference(u, r)
    ensures Distinct(Idents(fields))
  {
    hide ConditionSyntax.CharClass.Sane, ConditionSyntax.IsReference, FieldIdent;
    ListedOnce(fields, all);
    forall j, k | 0 <= j < k < |fields| ensures Idents(fields)[j] != Idents(fields)[k] {
      assert fields[j] in all && fields[k] in all && fields[j] != fields[k];
      if FieldIdent(fields[j]) == FieldIdent(fields[k]) {
        FieldIdentInjective(u, fields[j], fields[k]);
      }
    }
  }

  /** The words that `main` and the function have taken beside the fields. */
  lemma NoShimWord(u: ConditionSyntax.CharClass, r: string)
    requires u.Sane() && ConditionSyntax.IsReference(u, r)
    ensures FieldIdent(r) == "skip" <==> r == "skip"
    ensures FieldIdent(r) == "argc" <==> r == "argc"
    ensures FieldIdent(r) == "argv" <==> r == "argv"
    ensures FieldIdent(r) == "rc" <==> r == "rc"
    ensures FieldIdent(r) == "printf" <==> r == "printf"
    ensures FieldIdent(r) == "strtoll" <==> r == "strtoll"
  {
    hide ConditionSyntax.CharClass.Sane, ConditionSyntax.IsReference, FieldIdent;
    IdentOfWord(u, r, "skip");
    IdentOfWord(u, r, "argc");
    IdentOfWord(u, r, "argv");
    IdentOfWord(u, r, "rc");
    IdentOfWord(u, r, "printf");
    IdentOfWord(u, r, "strtoll");
  }

  lemma ShimExactly(u: ConditionSyntax.CharClass, fields: seq<string>, all: set<string>, words: set<string>)
    requires u.Sane() && Lists(fields, all) && forall r :: r in all ==> ConditionSyntax.IsReference(u, r)
    ensures ShimCompiles(fields, words) <==> "skip" !in all && forall r :: r in all ==> Takable(r, words)
  {
    hide ConditionSyntax.CharClass.Sane, ConditionSyntax.IsReference, FieldIdent, IsIdent, PlainChars, IsKeyword;
    FieldsDistinct(u, fields, all);
    forall r | r in all
      ensures IsIdent(FieldIdent(r)) <==> PlainChars(r)
      ensures FieldIdent(r) == "skip" <==> r == "skip"
      ensures FieldIdent(r) == "argc" <==> r == "argc"
      ensures FieldIdent(r) == "argv" <==> r == "argv"
      ensures FieldIdent(r) == "rc" <==> r == "rc"
      ensures FieldIdent(r) == "printf" <==> r == "printf"
      ensures FieldIdent(r) == "strtoll" <==> r == "strtoll"
    {
      IdentIs(u, r);
      NoShimWord(u, r);
    }
    LocalsExactly(Idents(fields));
    assert forall k :: 0 <= k < |fields| ==> fields[k] in all;
    forall r | r in all ensures exists k :: 0 <= k < |fields| && fields[k] == r && Idents(fields)[k] == FieldIdent(r) {
      var k :| 0 <= k < |fields| && fields[k] == r;
      assert Idents(fields)[k] == FieldIdent(r);
    }
  }

  lemma LocalsExactly(idents: seq<string>)
    ensures Distinct(["argc", "argv", "skip"] + idents + ["rc"])
       <==> Distinct(idents) && forall k :: 0 <= k < |idents| ==>
              idents[k] != "argc" && idents[k] != "argv" && idents[k] != "skip" && idents[k] != "rc"
  {
    var locals := ["argc", "argv", "skip"] + idents + ["rc"];
    var n := |idents|;
    assert locals[0] == "argc" && locals[1] == "argv" && locals[2] == "skip" && locals[n + 3] == "rc";
    assert forall k :: 0 <= k < n ==> locals[k + 3] == idents[k];
    assert "argc"[3] != "argv"[3] && |"skip"| == 4 && "skip"[0] != "argc"[0] && |"rc"| == 2 && "skip"[0] != "argv"[0];
    if Distinct(idents) && forall k :: 0 <= k < n ==>
         idents[k] != "argc" && idents[k] != "argv" && idents[k] != "skip" && idents[k] != "rc" {
      forall j, k | 0 <= j < k < |locals| ensures locals[j] != locals[k] {
        if 3 <= j && k < n + 3 {
          assert idents[j - 3] != idents[k - 3];
        } else if 3 <= k < n + 3 {
          assert locals[k] == idents[k - 3];
        } else if 3 <= j {
          assert locals[j] == idents[j - 3];
        }
      }
    }
    if Distinct(locals) {
      forall j, k | 0 <= j < k < n ensures idents[j] != idents[k] {
        assert locals[j + 3] != locals[k + 3];
      }
    }
  }

  /** The text of a rendered stream builds if and only if every reference is ASCII, no word of C and no
      name of the shim, and no bare one is spelled like a name that the function makes up. */
  lemma BuildsExactly(u: ConditionSyntax.CharClass, stream: Ops.Stream, values: seq<int>, fields: seq<string>,
                      all: set<string>, words: set<string>)
    requires u.Sane() && Renders(u, all, stream, values) && Lists(fields, all)
    requires forall r :: r in all ==> ConditionSyntax.IsReference(u, r)
    ensures Builds(SpellCode(ModuleOf(u, stream, values).code), fields, words)
       <==> Buildable(u, all, stream, values, words)
  {
    hide ConditionSyntax.CharClass.Sane, ConditionSyntax.IsReference, Renders, Lists, Takable, ShimCompiles, Collides,
         FunctionReads, ModuleOf, SpellCode;
    ShimExactly(u, fields, all, words);
    if Collides(u, all, stream, values) {
      CollisionFails(u, stream, values, fields, all);
    } else if ShimCompiles(fields, words) {
      ApartReads(u, stream, values, fields, all, words);
    } else if forall r :: r in all ==> Takable(r, words) {
      SkipCollides(u, all, stream, values);
    }
  }

  lemma SkipCollides(u: ConditionSyntax.CharClass, all: set<string>, stream: Ops.Stream, values: seq<int>)
    requires u.Sane() && "skip" in all
    ensures Collides(u, all, stream, values)
  {
    SkipIsReference(u);
    SkipSpelled();
    hide ConditionSyntax.CharClass.Sane, ConditionSyntax.IsReference, ModuleOf, Defs, Spell;
    assert Skip in MadeUp(u, stream, values);
  }

  lemma CollisionFails(u: ConditionSyntax.CharClass, stream: Ops.Stream, values: seq<int>, fields: seq<string>,
                       all: set<string>)
    requires u.Sane() && Lists(fields, all) && Collides(u, all, stream, values)
    requires forall r :: r in all ==> ConditionSyntax.IsReference(u, r)
    ensures !FunctionReads(SpellCode(ModuleOf(u, stream, values).code), fields)
  {
    hide ConditionSyntax.CharClass.Sane, ConditionSyntax.IsReference, ModuleOf, Defs, Spell, FieldIdent, CodeReads,
         SpellCode, AllIdents, Qualified;
    var r, x :| r in all && !Qualified(r) && x in MadeUp(u, stream, values) && Spell(x) == r;
    BareIsItself(u, r);
    var k :| 0 <= k < |fields| && fields[k] == r;
    assert Parameters(fields)[k + 1] == r;
    if x == Skip {
      SkipSpelled();
      assert Parameters(fields)[0] == Parameters(fields)[k + 1];
    } else {
      CodeTakes(ModuleOf(u, stream, values).code,
                set j | 0 <= j < |Parameters(fields)| :: Parameters(fields)[j], x);
    }
  }

  lemma ApartReads(u: ConditionSyntax.CharClass, stream: Ops.Stream, values: seq<int>, fields: seq<string>,
                   all: set<string>, words: set<string>)
    requires u.Sane() && Renders(u, all, stream, values) && Lists(fields, all)
    requires forall r :: r in all ==> ConditionSyntax.IsReference(u, r)
    requires !Collides(u, all, stream, values) && ShimCompiles(fields, words)
    ensures FunctionReads(SpellCode(ModuleOf(u, stream, values).code), fields)
  {
    hide ConditionSyntax.CharClass.Sane, ConditionSyntax.IsReference, Renders, Collides, ModuleOf, CodeReads, SpellCode,
         Ssa, Defs, Apart, Spelled, IsIdent, IsKeyword, Lists, Params;
    var code, names := ModuleOf(u, stream, values).code, AllNames(u, all, stream, values);
    ApartExactly(u, all, stream, values);
    ModuleIsSsa(u, all, stream, values);
    CodeReadsWell(code, Params(all), Params(all), names);
    ParametersSpelled(fields, all);
    ParametersDistinct(fields, words);
  }

  lemma ParametersDistinct(fields: seq<string>, words: set<string>)
    requires ShimCompiles(fields, words)
    ensures Distinct(Parameters(fields)) && AllIdents(Idents(fields))
  {
    hide IsIdent, IsKeyword;
    LocalsExactly(Idents(fields));
    forall j, k | 0 <= j < k < |Parameters(fields)| ensures Parameters(fields)[j] != Parameters(fields)[k] {
      if j > 0 {
        assert Idents(fields)[j - 1] != Idents(fields)[k - 1];
      } else {
        assert Parameters(fields)[k] == Idents(fields)[k - 1];
      }
    }
    forall k | 0 <= k < |Idents(fields)| ensures IsIdent(Idents(fields)[k]) {
      assert Declarable(Idents(fields)[k], words);
    }
  }

  // ---- A guard the shim cannot take ----------------------------------------------------

  lemma RcIsReference(u: ConditionSyntax.CharClass)
    requires u.Sane()
    ensures ConditionSyntax.IsReference(u, "rc")
  {
    assert ConditionSyntax.DotAt("rc") == |"rc"|;
    assert "rc"[..2] == "rc";
  }

  /** The guard `rc > 3` makes `main` declare `rc` twice, whatever the function is. */
  lemma RcGuardDoesNotBuild(u: ConditionSyntax.CharClass, step: Step, code: SpelledCode, fields: seq<string>,
                            words: set<string>)
    requires u.Sane() && Lists(fields, PlanFields(u, [Flat(step, Some(WordGuard("rc")))]))
    ensures !Builds(code, fields, words)
  {
    RcIsReference(u);
    WordIsField(u, step, "rc");
    hide ConditionSyntax.CharClass.Sane, ConditionSyntax.IsReference, PlanFields, IsIdent, IsKeyword;
    var k :| 0 <= k < |fields| && fields[k] == "rc";
    NoShimWord(u, "rc");
    LocalsExactly(Idents(fields));
    assert Idents(fields)[k] == "rc";
  }
}
