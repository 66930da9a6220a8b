/** The target of mode B: straight-line SSA instructions over 32- and 64-bit integers, calls into
    the tracing shim, and one level of `scf.if`, with the machine that runs them. */
module Machine {
  import opened Conditions
  import opened Evaluation
  import opened Text

  // A pointer is the number of the string global it addresses.
  datatype Val = I64(n: int) | I32(m: int) | Bit(b: bool) | Ptr(sym: nat)

  datatype LogicOp = AndI | OrI | XorI

  datatype Instr<N> =
    | Const64(d: N, value: int)
    | Const32(d: N, word: int)
    | ConstTrue(d: N)
    | AddressOf(d: N, sym: nat)
    | Binary(d: N, op: ArithOp, l: N, r: N)
    | CompareI(d: N, pred: Comparator, l: N, r: N)
    | EqualI32(d: N, l: N, r: N)
    | Select(d: N, c: N, l: N, r: N)
    | Logic(d: N, logic: LogicOp, l: N, r: N)
    | CallStep(d: N, p: N, i: N)
    | CallEffect(p: N, k: N)

  datatype Line<N> = Do(instr: Instr<N>) | If(c: N, body: seq<Instr<N>>)

  // `Stuck` is a use of a name that is undefined or of the wrong type; the other two are the
  // inputs `arith.divsi` leaves undefined.
  datatype Machine<N> =
    | Running(env: map<N, Val>, out: seq<string>)
    | DividedByZero
    | QuotientOverflow
    | Stuck

  /** Two's-complement wrap-around to 64 bits. */
  function Wrap(n: int): (w: int)
    ensures InInt64(w)
    ensures InInt64(n) ==> w == n
  {
    (n - INT64_MIN) % 0x1_0000_0000_0000_0000 + INT64_MIN
  }

  /** What C reads of a string global: everything up to the first NUL. */
  function CText(s: string): string {
    s[..RunLength(s, c => c == '\0')]
  }

  lemma CTextWhole(s: string)
    requires '\0' !in s
    ensures CText(s) == s
  {
    assert s + [] == s;
    RunLengthOf(s, [], c => c == '\0');
  }

  // The lines the C shim prints.
  function StepLine(index: nat, name: string): string {
    "step " + Decimal(index) + " " + name
  }

  function EffectLine(name: string, kind: string): string {
    "effect " + name + " " + kind
  }

  function Bind<N(==)>(m: Machine<N>, d: N, v: Val): Machine<N>
    requires m.Running?
  {
    Running(m.env[d := v], m.out)
  }

  predicate HasI64<N(==)>(env: map<N, Val>, x: N) {
    x in env && env[x].I64?
  }

  predicate HasBit<N(==)>(env: map<N, Val>, x: N) {
    x in env && env[x].Bit?
  }

  predicate HasString<N(==)>(env: map<N, Val>, x: N, globals: seq<string>) {
    x in env && env[x].Ptr? && env[x].sym < |globals|
  }

  function Arithmetic<N(==)>(m: Machine<N>, d: N, op: ArithOp, a: int, b: int): Machine<N>
    requires m.Running?
  {
    match op
    case Add => Bind(m, d, I64(Wrap(a + b)))
    case Sub => Bind(m, d, I64(Wrap(a - b)))
    case Mul => Bind(m, d, I64(Wrap(a * b)))
    case Div =>
      if b == 0 then DividedByZero
      else if a == INT64_MIN && b == -1 then QuotientOverflow
      else Bind(m, d, I64(Wrap(Quotient(a, b))))
  }

  predicate LogicResult(op: LogicOp, a: bool, b: bool) {
    match op
    case AndI => a && b
    case OrI => a || b
    case XorI => a != b
  }

  function ExecInstr<N(==)>(i: Instr<N>, globals: seq<string>, m: Machine<N>): Machine<N> {
    if !m.Running? then m
    else
      match i
      case Const64(d, n) => Bind(m, d, I64(n))
      case Const32(d, n) => Bind(m, d, I32(n))
      case ConstTrue(d) => Bind(m, d, Bit(true))
      case AddressOf(d, sym) => Bind(m, d, Ptr(sym))
      case Binary(d, op, l, r) =>
        if HasI64(m.env, l) && HasI64(m.env, r) then Arithmetic(m, d, op, m.env[l].n, m.env[r].n) else Stuck
      case CompareI(d, pred, l, r) =>
        if HasI64(m.env, l) && HasI64(m.env, r) then Bind(m, d, Bit(Compare(pred, m.env[l].n, m.env[r].n)))
        else Stuck
      case EqualI32(d, l, r) =>
        if l in m.env && r in m.env && m.env[l].I32? && m.env[r].I32? then
          Bind(m, d, Bit(m.env[l].m == m.env[r].m))
        else Stuck
      case Select(d, c, l, r) =>
        if HasBit(m.env, c) && HasI64(m.env, l) && HasI64(m.env, r) then
          Bind(m, d, if m.env[c].b then m.env[l] else m.env[r])
        else Stuck
      case Logic(d, op, l, r) =>
        if HasBit(m.env, l) && HasBit(m.env, r) then Bind(m, d, Bit(LogicResult(op, m.env[l].b, m.env[r].b)))
        else Stuck
      case CallStep(d, p, i) =>
        if HasString(m.env, p, globals) && i in m.env && m.env[i].I32? && m.env[i].m >= 0 then
          Running(m.env[d := I32(0)], m.out + [StepLine(m.env[i].m, CText(globals[m.env[p].sym]))])
        else Stuck
      case CallEffect(p, k) =>
        if HasString(m.env, p, globals) && HasString(m.env, k, globals) then
          Running(m.env, m.out + [EffectLine(CText(globals[m.env[p].sym]), CText(globals[m.env[k].sym]))])
        else Stuck
  }

  function ExecInstrs<N(==)>(code: seq<Instr<N>>, globals: seq<string>, m: Machine<N>): Machine<N> {
    if code == [] then m else ExecInstrs(code[1..], globals, ExecInstr(code[0], globals, m))
  }

  /** A body whose condition is false runs no instruction; what it binds stays inside it. */
  function ExecLine<N(==)>(line: Line<N>, globals: seq<string>, m: Machine<N>): Machine<N> {
    if !m.Running? then m
    else
      match line
      case Do(instr) => ExecInstr(instr, globals, m)
      case If(c, body) =>
        if !HasBit(m.env, c) then Stuck
        else if m.env[c].b then
          var inner := ExecInstrs(body, globals, m);
          if inner.Running? then Running(m.env, inner.out) else inner
        else m
  }

  function Exec<N(==)>(code: seq<Line<N>>, globals: seq<string>, m: Machine<N>): Machine<N> {
    if code == [] then m else Exec(code[1..], globals, ExecLine(code[0], globals, m))
  }

  lemma {:induction false} ExecConcat<N>(a: seq<Line<N>>, b: seq<Line<N>>, globals: seq<string>, m: Machine<N>)
    ensures Exec(a + b, globals, m) == Exec(b, globals, Exec(a, globals, m))
  {
    if a == [] {
      assert a + b == b;
    } else {
      assert (a + b)[1..] == a[1..] + b;
      ExecConcat(a[1..], b, globals, ExecLine(a[0], globals, m));
    }
  }

  lemma {:induction false} ExecInstrsConcat<N>(a: seq<Instr<N>>, b: seq<Instr<N>>, globals: seq<string>, m: Machine<N>)
    ensures ExecInstrs(a + b, globals, m) == ExecInstrs(b, globals, ExecInstrs(a, globals, m))
  {
    if a == [] {
      assert a + b == b;
    } else {
      assert (a + b)[1..] == a[1..] + b;
      ExecInstrsConcat(a[1..], b, globals, ExecInstr(a[0], globals, m));
    }
  }

  lemma {:induction false} ExecHalted<N>(code: seq<Line<N>>, globals: seq<string>, m: Machine<N>)
    requires !m.Running?
    ensures Exec(code, globals, m) == m
  {
    if code != [] {
      ExecHalted(code[1..], globals, m);
    }
  }

  lemma ExecOne<N>(line: Line<N>, globals: seq<string>, m: Machine<N>)
    ensures Exec([line], globals, m) == ExecLine(line, globals, m)
  {
    assert [line][1..] == [];
  }
}
