/** What a guard means in numbers: the text of a comparison, the truth the interpreter finds for it and
    the word that compiled code leaves, each stated by the arithmetic of the integers
    (`impl/lnpl/condition.py`, `_eval_value` in `impl/lnpl/interp.py`, `_emit_operand` in
    `impl/lnpl/backend.py`). */
module GuardMeaning {
  import opened Wrappers
  import opened Text
  import opened Conditions
  import opened ConditionSyntax
  import opened ConditionRoundTrip
  import opened Evaluation
  import opened Machine
  import opened GuardEmit
  import opened GuardCorrect
  import opened Interp

  // ---- Division ------------------------------------------------------------------------

  /** `q` times `b` leaves of `a` a remainder smaller than `b` and of the sign of `a`. */
  predicate Truncates(a: int, b: int, q: int) {
    var r := a - q * b;
    (-b < r < b || b < r < -b) && (r == 0 || (r < 0 <==> a < 0))
  }

  lemma SignsOut(q: int, y: int)
    ensures q * -y == -(q * y) && -q * y == -(q * y) && -q * -y == q * y
  {
  }

  lemma Product(k: int, m: int)
    requires k >= 1 && m >= 1
    ensures k * m >= m
  {
    assert (k - 1) * m >= 0;
  }

  lemma SmallMultiple(k: int, b: int)
    requires k != 0 && b != 0
    ensures k * b >= b >= 0 || k * b >= -b >= 0 || k * b <= -b <= 0 || k * b <= b <= 0
  {
    SignsOut(k, b);
    SignsOut(k, -b);
    Product(if k < 0 then -k else k, if b < 0 then -b else b);
  }

  lemma OneQuotient(a: int, b: int, q: int, p: int)
    requires b != 0 && Truncates(a, b, q) && Truncates(a, b, p)
    ensures q == p
  {
    if q != p {
      var r, t := a - q * b, a - p * b;
      assert (p - q) * b == p * b - q * b == r - t;
      SmallMultiple(p - q, b);
    }
  }

  lemma QuotientLeaves(a: int, b: int)
    requires b != 0
    ensures Truncates(a, b, Quotient(a, b))
  {
    var x, y: int := if a < 0 then -a else a, if b < 0 then -b else b;
    assert Magnitude(a) == x && Magnitude(b) == y;
    var q := x / y;
    assert 0 <= x - q * y < y by { assert x == y * (x / y) + x % y; }
    SignsOut(q, y);
    var z := q * y;
    assert Quotient(a, b) * b == if a < 0 then -z else z;
  }

  /** Division truncates: it is the one whole number that leaves a remainder smaller than the divisor
      and of the dividend's sign. */
  lemma QuotientTruncates(a: int, b: int, q: int)
    requires b != 0
    ensures q == Quotient(a, b)
       <==> var r := a - q * b; (-b < r < b || b < r < -b) && (r == 0 || (r < 0 <==> a < 0))
  {
    hide Quotient;
    QuotientLeaves(a, b);
    if Truncates(a, b, q) {
      OneQuotient(a, b, q, Quotient(a, b));
    }
  }

  /** -7 by 2 is -3. */
  lemma SevenByTwo()
    ensures Quotient(-7, 2) == -3 && Quotient(7, -2) == -3 && Quotient(-7, -2) == 3 && Quotient(7, 2) == 3
  {
  }

  // ---- The value of an operand ---------------------------------------------------------

  /** The whole-number result of an operation. */
  predicate Results(op: ArithOp, a: int, b: int, n: int) {
    match op
    case Add => n == a + b
    case Sub => n == a - b
    case Mul => n == a * b
    case Div => b != 0 && Truncates(a, b, n)
  }

  /** The number an operand stands for; every intermediate one fits 64 bits. */
  ghost predicate Denotes(v: Value, scope: Scope, n: int) {
    match v
    case Ref(name) => name in scope && n == scope[name] && INT64_MIN <= n <= INT64_MAX
    case Lit(value, _) => n == value
    case Arith(l, op, r) =>
      && INT64_MIN <= n <= INT64_MAX
      && exists a, b :: Denotes(l, scope, a) && Denotes(r, scope, b) && Results(op, a, b, n)
  }

  lemma ArithDenotes(op: ArithOp, a: int, b: int, n: int)
    ensures EvalArith(op, a, b) == Number(n) <==> INT64_MIN <= n <= INT64_MAX && Results(op, a, b, n)
  {
    hide Quotient, Truncates;
    if op == Div && b != 0 {
      QuotientLeaves(a, b);
      if Truncates(a, b, n) {
        OneQuotient(a, b, n, Quotient(a, b));
      }
    }
  }

  lemma DenotesArith(l: Value, op: ArithOp, r: Value, scope: Scope, n: int)
    ensures Denotes(Arith(l, op, r), scope, n)
       <==> INT64_MIN <= n <= INT64_MAX
            && exists a, b :: Denotes(l, scope, a) && Denotes(r, scope, b) && Results(op, a, b, n)
  {
    hide Results;
  }

  lemma EvaluatesArith(l: Value, op: ArithOp, r: Value, scope: Scope)
    ensures var x, y, z := EvalValue(l, scope), EvalValue(r, scope), EvalValue(Arith(l, op, r), scope);
            if x.Number? && y.Number? then z == EvalArith(op, x.n, y.n) else !z.Number?
  {
    hide EvalArith;
  }

  /** Evaluation finds a number exactly where the operand stands for one, and finds that number. */
  lemma {:induction false} EvalDenotes(v: Value, scope: Scope, n: int)
    ensures EvalValue(v, scope) == Number(n) <==> Denotes(v, scope, n)
  {
    if v.Arith? {
      hide EvalArith, Results, EvalValue, Denotes;
      var x, y := EvalValue(v.left, scope), EvalValue(v.right, scope);
      EvaluatesArith(v.left, v.op, v.right, scope);
      DenotesArith(v.left, v.op, v.right, scope, n);
      forall a ensures x == Number(a) <==> Denotes(v.left, scope, a) {
        EvalDenotes(v.left, scope, a);
      }
      forall b ensures y == Number(b) <==> Denotes(v.right, scope, b) {
        EvalDenotes(v.right, scope, b);
      }
      if x.Number? && y.Number? {
        ArithDenotes(v.op, x.n, y.n, n);
        assert Denotes(v.left, scope, x.n) && Denotes(v.right, scope, y.n);
      }
    }
  }

  // ---- The word compiled code leaves ---------------------------------------------------

  /** The whole-number result compiled code goes for: division by zero gives the dividend. */
  predicate Compiles(op: ArithOp, a: int, b: int, n: int) {
    if op == Div && b == 0 then n == a else Results(op, a, b, n)
  }

  /** The word an operand leaves over words for its references, one that nobody supplies being 0: each
      operation leaves its whole-number result, but for a multiple of 2^64. */
  ghost predicate Leaves(v: Value, words: Scope, n: int) {
    match v
    case Ref(name) => n == if name in words then words[name] else 0
    case Lit(value, _) => n == value
    case Arith(l, op, r) =>
      && INT64_MIN <= n <= INT64_MAX
      && exists a, b, m :: Leaves(l, words, a) && Leaves(r, words, b) && Compiles(op, a, b, m)
                           && (m - n) % 0x1_0000_0000_0000_0000 == 0
  }

  lemma WrapDrops(n: int)
    ensures (n - Wrap(n)) % 0x1_0000_0000_0000_0000 == 0
  {
    var m, w := n - INT64_MIN, 0x1_0000_0000_0000_0000;
    assert m == w * (m / w) + m % w;
  }

  lemma QuotientByOne(a: int)
    ensures Quotient(a, 1) == a
  {
  }

  lemma ArithLeaves(op: ArithOp, a: int, b: int, n: int) returns (m: int)
    requires CompiledArith(op, a, b) == Word(n)
    ensures INT64_MIN <= n <= INT64_MAX
    ensures Compiles(op, a, b, m) && (m - n) % 0x1_0000_0000_0000_0000 == 0
  {
    hide Quotient, Wrap, Truncates;
    match op {
      case Add => m := a + b;
      case Sub => m := a - b;
      case Mul => m := a * b;
      case Div =>
        m := Quotient(a, if b == 0 then 1 else b);
        QuotientLeaves(a, if b == 0 then 1 else b);
        QuotientByOne(a);
    }
    WrapDrops(m);
  }

  lemma {:induction false} CompiledLeaves(v: Value, words: Scope)
    requires CompiledValue(v, words).Word?
    ensures Leaves(v, words, CompiledValue(v, words).n)
  {
    match v
    case Arith(l, op, r) =>
      hide CompiledArith, Compiles;
      CompiledLeaves(l, words);
      CompiledLeaves(r, words);
      var m := ArithLeaves(op, CompiledValue(l, words).n, CompiledValue(r, words).n, CompiledValue(v, words).n);
    case _ =>
  }

  lemma ComputesState(code: Code, globals: seq<string>, env: Env, out: seq<string>, c: Compiled, name: Name,
                      after: Env)
    requires Computes(code, globals, env, out, c, name, after)
    ensures var m := Exec(code, globals, Running(env, out));
            if c.Word? then m == Running(after, out) && name in after && after[name] == I64(c.n)
            else m.QuotientOverflow?
  {
    hide Exec;
  }

  /** Run on any words, the code of an operand stops at a quotient that does not fit, or leaves in its
      name the word the operand stands for. */
  lemma OperandLeaves(v: Value, idx: Idx, slot: string, words: Scope, env: Env, out: seq<string>,
                      globals: seq<string>)
    requires DeclaresValue(env, v, words)
    ensures var m, name := Exec(OperandCode(v, idx, slot), globals, Running(env, out)), OperandName(v, idx, slot);
            m.QuotientOverflow? || (m.Running? && m.out == out && name in m.env && m.env[name].I64?
                                    && Leaves(v, words, m.env[name].n))
  {
    hide *;
    var after := OperandRuns(v, idx, slot, words, env, out, globals);
    ComputesState(OperandCode(v, idx, slot), globals, env, out, CompiledValue(v, words), OperandName(v, idx, slot),
                  after);
    if CompiledValue(v, words).Word? {
      CompiledLeaves(v, words);
    }
  }

  lemma Multiples(q: int, c: int, y: int)
    requires q >= 0 && y >= c
    ensures q * y >= q * c
  {
    assert q * (y - c) >= 0;
  }

  lemma Divided(x: int, y: int)
    requires x >= 0 && y >= 1
    ensures 0 <= x / y <= x && (y >= 2 && x > 0 ==> x / y < x)
  {
    var q, r := x / y, x % y;
    assert x == q * y + r && q >= 0;
    Multiples(q, if y >= 2 then 2 else 1, y);
  }

  lemma QuotientFits(a: int, b: int)
    requires b != 0 && INT64_MIN <= a <= INT64_MAX && !(a == INT64_MIN && b == -1)
    ensures INT64_MIN <= Quotient(a, b) <= INT64_MAX
  {
    var x, y: int := if a < 0 then -a else a, if b < 0 then -b else b;
    assert Magnitude(a) == x && Magnitude(b) == y;
    Divided(x, y);
  }

  lemma DivisionValue(x: string, y: string, words: Scope)
    requires x in words && y in words && INT64_MIN <= words[x] <= INT64_MAX
             && !(words[x] == INT64_MIN && words[y] == -1)
    ensures var c, a, b := CompiledValue(Arith(Ref(x), Div, Ref(y)), words), words[x], words[y];
            c.Word? && if b == 0 then c.n == a else Truncates(a, b, c.n)
  {
    hide Quotient, Truncates, Wrap;
    var a, b := words[x], if words[y] == 0 then 1 else words[y];
    assert CompiledValue(Ref(x), words) == Word(a) && CompiledValue(Ref(y), words) == Word(words[y]);
    assert CompiledValue(Arith(Ref(x), Div, Ref(y)), words) == CompiledArith(Div, a, words[y]);
    QuotientFits(a, b);
    QuotientLeaves(a, b);
    QuotientByOne(a);
  }

  lemma TruncatesInline(a: int, b: int, q: int)
    requires Truncates(a, b, q)
    ensures var r := a - q * b; (-b < r < b || b < r < -b) && (r == 0 || (r < 0 <==> a < 0))
  {
  }

  /** A compiled division of two references leaves the truncated quotient, the dividend itself where the
      divisor is 0. */
  lemma CompiledDivisionTruncates(x: string, y: string, idx: Idx, slot: string, words: Scope, env: Env,
                                  out: seq<string>, globals: seq<string>)
    requires x in words && y in words && INT64_MIN <= words[x] <= INT64_MAX
             && !(words[x] == INT64_MIN && words[y] == -1)
    requires DeclaresValue(env, Arith(Ref(x), Div, Ref(y)), words)
    ensures var v := Arith(Ref(x), Div, Ref(y));
            var m, name := Exec(OperandCode(v, idx, slot), globals, Running(env, out)), OperandName(v, idx, slot);
            && m.Running? && name in m.env && m.env[name].I64?
            && var a, b, q := words[x], words[y], m.env[name].n;
               var r := a - q * b;
               if b == 0 then q == a else (-b < r < b || b < r < -b) && (r == 0 || (r < 0 <==> a < 0))
  {
    hide *;
    var v := Arith(Ref(x), Div, Ref(y));
    var after := OperandRuns(v, idx, slot, words, env, out, globals);
    var c := CompiledValue(v, words);
    ComputesState(OperandCode(v, idx, slot), globals, env, out, c, OperandName(v, idx, slot), after);
    DivisionValue(x, y, words);
    if words[y] != 0 {
      TruncatesInline(words[x], words[y], c.n);
    }
  }

  // ---- The text of a condition ---------------------------------------------------------

  /** A token that reads as an operand and evaluates to the number. */
  ghost predicate Says(u: CharClass, tok: string, scope: Scope, n: int) {
    OperandToken(u, tok) && ParseOperand(u, tok).Success? && EvalValue(ParseOperand(u, tok).value, scope) == Number(n)
  }

  /** A field says the value it has. */
  lemma FieldSays(u: CharClass, x: string, scope: Scope)
    requires u.Sane() && IsReference(u, x) && x in scope && INT64_MIN <= scope[x] <= INT64_MAX
    ensures Says(u, x, scope, scope[x])
  {
    OperandRoundTrip(u, Ref(x));
  }

  /** Digits say their number, and with a unit behind them that many milliseconds of it. */
  lemma NumeralSays(u: CharClass, n: nat, scope: Scope)
    requires u.Sane()
    ensures n <= INT64_MAX ==> Says(u, Decimal(n), scope, n) && Says(u, Decimal(n) + "ms", scope, n)
    ensures n * 1000 <= INT64_MAX ==> Says(u, Decimal(n) + "s", scope, n * 1000)
    ensures n * 60000 <= INT64_MAX ==> Says(u, Decimal(n) + "m", scope, n * 60000)
    ensures n * 3600000 <= INT64_MAX ==> Says(u, Decimal(n) + "h", scope, n * 3600000)
    ensures n * 86400000 <= INT64_MAX ==> Says(u, Decimal(n) + "d", scope, n * 86400000)
  {
    hide *;
    if n <= INT64_MAX {
      PlainSays(u, n, scope);
      DurationSays(u, n, "ms", 1, scope);
    }
    if n * 1000 <= INT64_MAX {
      DurationSays(u, n, "s", 1000, scope);
    }
    if n * 60000 <= INT64_MAX {
      DurationSays(u, n, "m", 60000, scope);
    }
    if n * 3600000 <= INT64_MAX {
      DurationSays(u, n, "h", 3600000, scope);
    }
    if n * 86400000 <= INT64_MAX {
      DurationSays(u, n, "d", 86400000, scope);
    }
  }

  lemma PlainSays(u: CharClass, n: nat, scope: Scope)
    requires u.Sane() && n <= INT64_MAX
    ensures Says(u, Decimal(n), scope, n)
  {
    OperandRoundTrip(u, Lit(n, false));
  }

  lemma DurationSays(u: CharClass, n: nat, suffix: string, millis: nat, scope: Scope)
    requires u.Sane() && n * millis <= INT64_MAX
    requires (suffix, millis) in {("ms", 1), ("s", 1000), ("m", 60000), ("h", 3600000), ("d", 86400000)}
    ensures Says(u, Decimal(n) + suffix, scope, n * millis)
  {
    hide CharClass.Sane, OperandToken, HasUnit, IsDigits, DurationMillis, ParseInt, IsReference, Decimal;
    var unit := Unit(suffix, millis);
    assert unit == UnitScan[0] || unit == UnitScan[1] || unit == UnitScan[2] || unit == UnitScan[3]
           || unit == UnitScan[4];
    assert unit in UnitScan;
    DurationParses(u, n, unit);
    DurationToken(u, Decimal(n), unit);
  }

  lemma OperandsSolid(u: CharClass, toks: seq<string>)
    requires forall i :: 0 <= i < |toks| ==> OperandToken(u, toks[i])
    ensures AllSolid(u, toks) && "and" !in toks && forall i :: 0 <= i < |toks| ==> ComparatorOf(toks[i]).None?
  {
    hide Solid, ComparatorOf;
  }

  lemma SolidAll(u: CharClass, toks: seq<string>)
    requires AllSolid(u, toks)
    ensures forall i :: 0 <= i < |toks| ==> toks[i] != [] && NoneOf(toks[i], u.space)
  {
  }

  lemma SolidThree(u: CharClass, lt: seq<string>, mid: string, rt: seq<string>)
    requires AllSolid(u, lt) && Solid(u, mid) && AllSolid(u, rt)
    ensures AllSolid(u, lt + [mid] + rt)
  {
    hide Solid;
  }

  lemma TokensParse(u: CharClass, toks: seq<string>)
    requires u.Sane() && AllSolid(u, toks) && "and" !in toks && toks != []
    ensures var t := ParseTerm(u, toks, true);
            t.Success? ==> ParseCondition(u, Join(toks, " ")) == Success(Some(t.value))
  {
    hide ParseTerm, Groups, Words, Join, AllSolid;
    OneGroup(toks);
    SolidAll(u, toks);
    WordsOfJoin(toks, u.space);
  }

  lemma JoinThreeParts(lt: seq<string>, mid: string, rt: seq<string>)
    requires lt != [] && rt != []
    ensures Join(lt + [mid] + rt, " ") == Join(lt, " ") + " " + mid + " " + Join(rt, " ")
  {
    hide Join;
    JoinOne(mid);
    JoinConcat(lt + [mid], rt, " ");
    JoinConcat(lt, [mid], " ");
  }

  lemma TokensRead(u: CharClass, lt: seq<string>, op: Comparator, rt: seq<string>, l: Value, r: Value)
    requires u.Sane() && lt != [] && rt != []
    requires forall i :: 0 <= i < |lt| ==> OperandToken(u, lt[i])
    requires forall i :: 0 <= i < |rt| ==> OperandToken(u, rt[i])
    requires ParseValue(u, lt) == Success(l) && ParseValue(u, rt) == Success(r)
    ensures ParseCondition(u, Join(lt, " ") + " " + ComparatorText(op) + " " + Join(rt, " "))
         == Success(Some(Comparison(l, op, r)))
  {
    hide *;
    var mid := ComparatorText(op);
    OperandsSolid(u, lt);
    OperandsSolid(u, rt);
    ComparatorToken(u, op);
    ComparisonParses(u, lt, mid, rt, l, r, true);
    SolidThree(u, lt, mid, rt);
    TokensParse(u, lt + [mid] + rt);
    JoinThreeParts(lt, mid, rt);
  }

  lemma JoinOne(a: string)
    ensures Join([a], " ") == a
  {
  }

  lemma OneTerm(c: Condition, scope: Scope)
    requires !c.And?
    ensures EvalCondition(c, scope) == EvalTerm(c, scope)
  {
    assert [c][1..] == [];
    assert EvalTerms([], scope) == Holds(true);
  }

  lemma OneOperand(u: CharClass, tok: string)
    ensures ParseValue(u, [tok]) == ParseOperand(u, tok)
  {
  }

  lemma ComparisonVerdict(u: CharClass, text: string, l: Value, op: Comparator, r: Value, scope: Scope, m: int, n: int)
    requires ParseCondition(u, text) == Success(Some(Comparison(l, op, r)))
    requires EvalValue(l, scope) == Number(m) && EvalValue(r, scope) == Number(n)
    ensures TextVerdict(u, text, scope) == Holds(Compare(op, m, n))
  {
    hide ParseCondition, EvalValue, Compare, EvalCondition;
    OneTerm(Comparison(l, op, r), scope);
  }

  lemma ComparisonMeans(u: CharClass, a: string, op: Comparator, b: string, scope: Scope, m: int, n: int)
    requires u.Sane() && Says(u, a, scope, m) && Says(u, b, scope, n)
    ensures TextVerdict(u, a + " " + ComparatorText(op) + " " + b, scope) == Holds(Compare(op, m, n))
  {
    hide CharClass.Sane, ParseCondition, ComparatorText, Compare, ParseOperand, OperandToken, Join, TextVerdict,
         EvalValue,
      ParseValue;
    var l, r := ParseOperand(u, a).value, ParseOperand(u, b).value;
    OneOperand(u, a);
    OneOperand(u, b);
    JoinOne(a);
    JoinOne(b);
    TokensRead(u, [a], op, [b], l, r);
    ComparisonVerdict(u, a + " " + ComparatorText(op) + " " + b, l, op, r, scope, m, n);
  }

  lemma Spaced(a: string, mid: string, b: string)
    ensures a + " " + mid + " " + b == a + (" " + mid + " ") + b
  {
  }

  /** The six comparators between two operands say what they say in arithmetic. */
  lemma ComparatorsMean(u: CharClass, a: string, b: string, scope: Scope, m: int, n: int)
    requires u.Sane() && Says(u, a, scope, m) && Says(u, b, scope, n)
    ensures TextVerdict(u, a + " < " + b, scope) == Holds(m < n)
    ensures TextVerdict(u, a + " <= " + b, scope) == Holds(m <= n)
    ensures TextVerdict(u, a + " > " + b, scope) == Holds(m > n)
    ensures TextVerdict(u, a + " >= " + b, scope) == Holds(m >= n)
    ensures TextVerdict(u, a + " == " + b, scope) == Holds(m == n)
    ensures TextVerdict(u, a + " != " + b, scope) == Holds(m != n)
  {
    hide CharClass.Sane, Says, TextVerdict;
    forall op: Comparator ensures TextVerdict(u, a + " " + ComparatorText(op) + " " + b, scope)
        == Holds(Compare(op, m, n)) {
      ComparisonMeans(u, a, op, b, scope, m, n);
    }
    forall op: Comparator
      ensures a + " " + ComparatorText(op) + " " + b == a + (" " + ComparatorText(op) + " ") + b
    {
      Spaced(a, ComparatorText(op), b);
    }
    assert " " + ComparatorText(Lt) + " " == " < " && " " + ComparatorText(Le) + " " == " <= ";
    assert " " + ComparatorText(Gt) + " " == " > " && " " + ComparatorText(Ge) + " " == " >= ";
    assert " " + ComparatorText(Eq) + " " == " == " && " " + ComparatorText(Ne) + " " == " != ";
  }

  lemma SaysFits(u: CharClass, tok: string, scope: Scope, n: int)
    requires Says(u, tok, scope, n)
    ensures INT64_MIN <= n <= INT64_MAX
  {
    hide ParseOperand, OperandToken, IsReference;
    OperandParsesWellFormed(u, tok);
  }

  lemma ArithmeticMeans(u: CharClass, a: string, op: ArithOp, b: string, c: string, scope: Scope, x: int, y: int,
                        z: int)
    requires u.Sane() && Says(u, a, scope, x) && Says(u, b, scope, y) && Says(u, c, scope, z)
    ensures TextVerdict(u, a + " " + ArithText(op) + " " + b + " == " + c, scope)
         == var w := EvalArith(op, x, y); if w.Number? then Holds(w.n == z) else GuardFault
  {
    hide CharClass.Sane, ParseCondition, ParseOperand, OperandToken, Join, TextVerdict, EvalValue, ParseValue,
         EvalArith,
      ArithText, ComparatorText;
    var l, m, r := ParseOperand(u, a).value, ParseOperand(u, b).value, ParseOperand(u, c).value;
    OneOperand(u, c);
    JoinOne(c);
    ThreeTokens(u, a, op, b, l, m);
    JoinThree(a, ArithText(op), b);
    TokensRead(u, [a, ArithText(op), b], Eq, [c], Arith(l, op, m), r);
    EvaluatesArith(l, op, m, scope);
    ArithVerdict(u, a + " " + ArithText(op) + " " + b + " " + ComparatorText(Eq) + " " + c, l, op, m, r, scope, x, y,
                 z);
    EqSpaced(a + " " + ArithText(op) + " " + b, c);
  }

  lemma EqSpaced(a: string, b: string)
    ensures a + " " + ComparatorText(Eq) + " " + b == a + " == " + b
  {
    assert " " + "==" + " " == " == ";
    Spaced(a, "==", b);
  }

  lemma ThreeTokens(u: CharClass, a: string, op: ArithOp, b: string, l: Value, r: Value)
    requires u.Sane() && OperandToken(u, a) && OperandToken(u, b)
    requires ParseOperand(u, a) == Success(l) && ParseOperand(u, b) == Success(r)
    ensures ParseValue(u, [a, ArithText(op), b]) == Success(Arith(l, op, r))
    ensures var toks := [a, ArithText(op), b]; forall i :: 0 <= i < |toks| ==> OperandToken(u, toks[i])
  {
    hide CharClass.Sane, ParseOperand, OperandToken, ArithText, ArithOf;
    ArithToken(u, op);
  }

  lemma ArithVerdict(u: CharClass, text: string, l: Value, op: ArithOp, m: Value, r: Value, scope: Scope, x: int,
                     y: int,
                     z: int)
    requires ParseCondition(u, text) == Success(Some(Comparison(Arith(l, op, m), Eq, r)))
    requires EvalValue(l, scope) == Number(x) && EvalValue(m, scope) == Number(y) && EvalValue(r, scope) == Number(z)
    ensures TextVerdict(u, text, scope)
         == var w := EvalArith(op, x, y); if w.Number? then Holds(w.n == z) else GuardFault
  {
    hide ParseCondition, EvalCondition, EvalArith;
    OneTerm(Comparison(Arith(l, op, m), Eq, r), scope);
    ArithNeverUnresolved(op, x, y);
    assert EvalValue(Arith(l, op, m), scope) == EvalArith(op, x, y);
  }

  lemma ArithNeverUnresolved(op: ArithOp, a: int, b: int)
    ensures !EvalArith(op, a, b).Unresolved?
  {
  }

  /** The four operations between two operands, against a third: a result past 64 bits and a division by
      zero are faults, and the quotient is the truncated one. */
  lemma OperationsMean(u: CharClass, a: string, b: string, c: string, scope: Scope, x: int, y: int, z: int)
    requires u.Sane() && Says(u, a, scope, x) && Says(u, b, scope, y) && Says(u, c, scope, z)
    ensures TextVerdict(u, a + " + " + b + " == " + c, scope)
         == if INT64_MIN <= x + y <= INT64_MAX then Holds(x + y == z) else GuardFault
    ensures TextVerdict(u, a + " - " + b + " == " + c, scope)
         == if INT64_MIN <= x - y <= INT64_MAX then Holds(x - y == z) else GuardFault
    ensures TextVerdict(u, a + " * " + b + " == " + c, scope)
         == if INT64_MIN <= x * y <= INT64_MAX then Holds(x * y == z) else GuardFault
    ensures var v := TextVerdict(u, a + " / " + b + " == " + c, scope);
            if y == 0 || (x == INT64_MIN && y == -1) then v == GuardFault
            else v == Holds(var r := x - z * y; (-y < r < y || y < r < -y) && (r == 0 || (r < 0 <==> x < 0)))
  {
    hide CharClass.Sane, Says, TextVerdict, Quotient;
    forall op: ArithOp
      ensures a + " " + ArithText(op) + " " + b + " == " + c == a + (" " + ArithText(op) + " ") + b + " == " + c
    {
      Spaced(a, ArithText(op), b);
    }
    assert " " + ArithText(Add) + " " == " + " && " " + ArithText(Sub) + " " == " - ";
    assert " " + ArithText(Mul) + " " == " * " && " " + ArithText(Div) + " " == " / ";
    ArithmeticMeans(u, a, Add, b, c, scope, x, y, z);
    ArithmeticMeans(u, a, Sub, b, c, scope, x, y, z);
    ArithmeticMeans(u, a, Mul, b, c, scope, x, y, z);
    ArithmeticMeans(u, a, Div, b, c, scope, x, y, z);
    SaysFits(u, a, scope, x);
    DivisionVerdict(x, y, z);
  }

  lemma DivisionVerdict(x: int, y: int, z: int)
    requires INT64_MIN <= x <= INT64_MAX
    ensures var v := EvalArith(Div, x, y);
            if y == 0 || (x == INT64_MIN && y == -1) then v == ValueFault
            else v.Number? && (v.n == z <==> var r := x - z * y;
                (-y < r < y || y < r < -y) && (r == 0 || (r < 0 <==> x < 0)))
  {
    hide Quotient;
    if y != 0 {
      QuotientTruncates(x, y, z);
      if x == INT64_MIN && y == -1 {
        LeastQuotient();
      } else {
        QuotientFits(x, y);
      }
    }
  }

  lemma LeastQuotient()
    ensures Quotient(INT64_MIN, -1) == INT64_MAX + 1
  {
  }

  /** A comparison with a field that has no value is false, whatever the comparator; one with a field past
      64 bits is a fault. */
  lemma FieldWithoutNumber(u: CharClass, x: string, op: Comparator, b: string, scope: Scope, n: int)
    requires u.Sane() && IsReference(u, x) && Says(u, b, scope, n)
    requires x in scope ==> scope[x] < INT64_MIN || INT64_MAX < scope[x]
    ensures TextVerdict(u, x + " " + ComparatorText(op) + " " + b, scope)
         == if x in scope then GuardFault else Holds(false)
  {
    hide CharClass.Sane, ParseOperand, OperandToken, Join, ParseValue, ComparatorText, ParseCondition, EvalCondition,
      IsReference;
    OperandRoundTrip(u, Ref(x));
    var r := ParseOperand(u, b).value;
    OneOperand(u, x);
    OneOperand(u, b);
    JoinOne(x);
    JoinOne(b);
    TokensRead(u, [x], op, [b], Ref(x), r);
    OneTerm(Comparison(Ref(x), op, r), scope);
  }

  lemma OneWord(u: CharClass, c: Condition, scope: Scope)
    requires u.Sane() && WellFormed(u, c) && !c.And?
    ensures TextVerdict(u, ConditionText(c), scope) == EvalTerm(c, scope)
  {
    hide CharClass.Sane, WellFormed, ParseCondition, ConditionText, EvalCondition, EvalTerm;
    ConditionRoundTrip.ConditionRoundTrip(u, c);
    OneTerm(c, scope);
  }

  /** Presence and numeric shape. */
  lemma PredicatesMean(u: CharClass, x: string, scope: Scope)
    requires u.Sane() && IsReference(u, x)
    ensures TextVerdict(u, x + " exists", scope) == Holds(x in scope)
    ensures TextVerdict(u, x + " missing", scope) == Holds(x !in scope)
    ensures TextVerdict(u, x + " is-numeric", scope) == Holds(x in scope)
    ensures TextVerdict(u, x + " is-not-numeric", scope) == Holds(x !in scope)
  {
    hide CharClass.Sane, IsReference, TextVerdict;
    OneWord(u, Presence(x, Exists), scope);
    OneWord(u, Presence(x, Missing), scope);
    OneWord(u, NumericPredicate(x, IsNumeric), scope);
    OneWord(u, NumericPredicate(x, IsNotNumeric), scope);
    assert x + " " + "exists" == x + " exists" && x + " " + "missing" == x + " missing";
    assert x + " " + "is-numeric" == x + " is-numeric" && x + " " + "is-not-numeric" == x + " is-not-numeric";
  }

  /** A conjunction is a fault exactly when a term of it is one, and holds exactly when every term does. */
  lemma {:induction false} TermsMean(terms: seq<Condition>, scope: Scope)
    ensures EvalTerms(terms, scope).GuardFault?
            <==> exists i :: 0 <= i < |terms| && EvalTerm(terms[i], scope).GuardFault?
    ensures EvalTerms(terms, scope) == Holds(true)
       <==> forall i :: 0 <= i < |terms| ==> EvalTerm(terms[i], scope) == Holds(true)
  {
    if terms != [] {
      hide EvalTerm;
      TermsMean(terms[1..], scope);
      var first, rest := EvalTerm(terms[0], scope), terms[1..];
      assert forall i :: 0 < i < |terms| ==> terms[i] == rest[i - 1];
      assert EvalTerms(terms, scope).GuardFault? <==> first.GuardFault? || EvalTerms(rest, scope).GuardFault?;
    }
  }

  /** `x < y and y < z` over fields with 64-bit values. */
  lemma AndMeans(u: CharClass, x: string, y: string, z: string, scope: Scope)
    requires u.Sane() && IsReference(u, x) && IsReference(u, y) && IsReference(u, z)
    requires {x, y, z} <= scope.Keys && forall f :: f in scope ==> INT64_MIN <= scope[f] <= INT64_MAX
    ensures TextVerdict(u, x + " < " + y + " and " + y + " < " + z, scope) == Holds(scope[x] < scope[y] < scope[z])
  {
    hide CharClass.Sane, IsReference, ParseCondition, Join;
    var s, t := Comparison(Ref(x), Lt, Ref(y)), Comparison(Ref(y), Lt, Ref(z));
    ConditionRoundTrip.ConditionRoundTrip(u, And([s, t]));
    TwoTexts(s, t);
    assert " " + "<" + " " == " < ";
    Spaced(x, "<", y);
    Spaced(y, "<", z);
    assert x + " < " + y + " and " + y + " < " + z == (x + " < " + y) + " and " + (y + " < " + z);
    TwoTerms(s, t, scope);
  }

  lemma AndText(terms: seq<Condition>)
    ensures ConditionText(And(terms)) == Join(TermTexts(terms), " and ")
  {
  }

  lemma TextsCons(s: Condition, rest: seq<Condition>)
    ensures TermTexts([s] + rest) == [ConditionText(s)] + TermTexts(rest)
  {
    hide ConditionText;
    assert ([s] + rest)[1..] == rest;
  }

  lemma TwoTexts(s: Condition, t: Condition)
    ensures ConditionText(And([s, t])) == ConditionText(s) + " and " + ConditionText(t)
  {
    hide Join, ConditionText;
    AndText([s, t]);
    TextsCons(s, [t]);
    TextsCons(t, []);
    assert [s] + [t] == [s, t] && [t] + [] == [t];
    assert TermTexts([t]) == [ConditionText(t)];
    JoinConcat([ConditionText(s)], [ConditionText(t)], " and ");
    JoinSingle(ConditionText(s), " and ");
    JoinSingle(ConditionText(t), " and ");
  }

  lemma JoinSingle(a: string, sep: string)
    ensures Join([a], sep) == a
  {
  }

  lemma TermsCons(s: Condition, rest: seq<Condition>, scope: Scope)
    ensures var a, b := EvalTerm(s, scope), EvalTerms(rest, scope);
            EvalTerms([s] + rest, scope)
            == if a.GuardFault? || b.GuardFault? then GuardFault else Holds(a.truth && b.truth)
  {
    hide EvalTerm;
    assert ([s] + rest)[1..] == rest;
  }

  lemma TwoTerms(s: Condition, t: Condition, scope: Scope)
    ensures var a, b := EvalTerm(s, scope), EvalTerm(t, scope);
            EvalCondition(And([s, t]), scope)
            == if a.GuardFault? || b.GuardFault? then GuardFault else Holds(a.truth && b.truth)
  {
    hide EvalTerm;
    TermsCons(s, [t], scope);
    TermsCons(t, [], scope);
    assert [s] + [t] == [s, t] && [t] + [] == [t];
  }

  /** Five minutes are three hundred thousand milliseconds. */
  lemma FiveMinutes(u: CharClass, x: string, scope: Scope)
    requires u.Sane() && IsReference(u, x) && x in scope && INT64_MIN <= scope[x] <= INT64_MAX
    ensures TextVerdict(u, x + " >= 5m", scope) == Holds(scope[x] >= 300000)
  {
    hide CharClass.Sane, IsReference, Says, TextVerdict, Decimal;
    FieldSays(u, x, scope);
    FiveIsOneDigit();
    NumeralSays(u, 5, scope);
    ComparatorsMean(u, x, "5m", scope, scope[x], 300000);
    assert " >= " + "5m" == " >= 5m";
    assert (x + " >= ") + "5m" == x + " >= 5m";
  }

  lemma FiveIsOneDigit()
    ensures Decimal(5) + "m" == "5m"
  {
  }

  /** A blank condition holds. One word, or a field and a word that is no predicate, is a fault. */
  lemma BlankHolds(u: CharClass, x: string, y: string, scope: Scope)
    requires u.Sane() && IsReference(u, x) && IsReference(u, y)
    ensures TextVerdict(u, "", scope) == Holds(true)
    ensures TextVerdict(u, x, scope) == GuardFault && TextVerdict(u, x + " " + y, scope) == GuardFault
  {
    ReferenceToken(u, x);
    ReferenceToken(u, y);
    hide CharClass.Sane, Solid;
    assert Words("", u.space) == [];
    OneToken(u, x);
    TwoTokens(u, x, y);
  }

  lemma OneToken(u: CharClass, x: string)
    requires u.Sane() && OperandToken(u, x)
    ensures ParseCondition(u, x) == Failure(TooShort)
  {
    assert u.space(' ');
    hide CharClass.Sane, Words, Groups;
    assert AllSolid(u, [x]);
    SolidAll(u, [x]);
    WordsOfJoin([x], u.space);
    JoinOne(x);
    OneGroup([x]);
  }

  lemma TwoTokens(u: CharClass, x: string, y: string)
    requires u.Sane() && OperandToken(u, x) && OperandToken(u, y) && IsReference(u, y)
    ensures ParseCondition(u, x + " " + y) == Failure(NoComparator)
  {
    assert u.space(' ');
    hide CharClass.Sane, Words, Groups, IsCamelName, DotAt;
    assert AllSolid(u, [x, y]);
    SolidAll(u, [x, y]);
    WordsOfJoin([x, y], u.space);
    JoinTwo(x, y);
    OneGroup([x, y]);
    assert [x, y][1..] == [y] && [y][1..] == [];
    assert ComparatorAt([]) == 0;
    assert ComparatorAt([y]) == 1;
    assert ComparatorAt([x, y]) == 2;
  }

  // ---- References and durations --------------------------------------------------------

  /** A camelCase name: a lower-case letter, then letters and digits. */
  ghost predicate Camel(u: CharClass, s: string) {
    s != [] && u.lower(s[0]) && forall i :: 0 <= i < |s| ==> u.alnum(s[i])
  }

  lemma {:induction false} FirstDot(s: string, k: nat)
    requires k < |s| && s[k] == '.' && '.' !in s[..k]
    ensures DotAt(s) == k
  {
    if k > 0 {
      assert s[0] == s[..k][0] && s[1..][..k - 1] == s[..k][1..];
      FirstDot(s[1..], k - 1);
    }
  }

  lemma {:induction false} NoDot(s: string)
    requires '.' !in s
    ensures DotAt(s) == |s|
  {
    if s != [] {
      NoDot(s[1..]);
    }
  }

  /** A reference is one name or two with a dot between them, and none of the grammar's six words. */
  lemma ReferencesAre(u: CharClass, s: string)
    requires u.Sane()
    ensures IsReference(u, s)
       <==> s !in ["and", "to", "exists", "missing", "is-numeric", "is-not-numeric"]
            && (Camel(u, s) || exists k :: 0 <= k < |s| && s[k] == '.' && Camel(u, s[..k]) && Camel(u, s[k + 1..]))
  {
    assert !u.alnum('.');
    var d := DotAt(s);
    hide CharClass.Sane, DotAt;
    GrammarWords(s);
    assert s[..|s|] == s;
    if Camel(u, s) {
      NoDot(s);
    }
    if k :| 0 <= k < |s| && s[k] == '.' && Camel(u, s[..k]) && Camel(u, s[k + 1..]) {
      assert forall i :: 0 <= i < k ==> u.alnum(s[..k][i]);
      FirstDot(s, k);
    }
  }

  lemma GrammarWords(s: string)
    ensures IsGrammarWord(s) <==> s in ["and", "to", "exists", "missing", "is-numeric", "is-not-numeric"]
  {
  }

  lemma OneUnit(n: nat, unit: Unit, rest: seq<Unit>)
    requires unit.millis > 0 && forall i :: 0 <= i < |rest| ==> rest[i].millis > 0
    ensures DurationText(n, [unit] + rest)
         == if n != 0 && n % unit.millis == 0 then IntText(n / unit.millis) + unit.suffix else DurationText(n, rest)
  {
    hide IntText;
    assert ([unit] + rest)[1..] == rest;
  }

  lemma QuotientOfNaturals(n: nat, m: nat)
    requires m > 0
    ensures n / m >= 0
  {
  }

  lemma NaturalText(n: nat)
    ensures IntText(n) == Decimal(n)
  {
    hide Decimal;
  }

  lemma NoUnit(n: nat)
    ensures DurationText(n, []) == IntText(n) + "ms"
  {
  }

  lemma NextUnit(n: nat, unit: Unit, rest: seq<Unit>)
    requires unit.millis > 0 && forall i :: 0 <= i < |rest| ==> rest[i].millis > 0
    ensures n / unit.millis >= 0
    ensures n != 0 && n % unit.millis == 0 ==> DurationText(n, [unit] + rest) == Decimal(n / unit.millis) + unit.suffix
    ensures (n == 0 || n % unit.millis != 0) && rest != [] ==> DurationText(n, [unit] + rest) == DurationText(n, rest)
    ensures (n == 0 || n % unit.millis != 0) && rest == [] ==> DurationText(n, [unit] + rest) == Decimal(n) + "ms"
  {
    hide *;
    OneUnit(n, unit, rest);
    QuotientOfNaturals(n, unit.millis);
    NaturalText(n / unit.millis);
    NaturalText(n);
    NoUnit(n);
  }

  lemma SkipsUnit(n: nat, units: seq<Unit>, k: nat)
    requires k + 1 < |units| && (forall i :: 0 <= i < |units| ==> units[i].millis > 0)
    requires n == 0 || n % units[k].millis != 0
    ensures DurationText(n, units[k..]) == DurationText(n, units[k + 1..])
  {
    hide DurationText;
    NextUnit(n, units[k], units[k + 1..]);
    assert [units[k]] + units[k + 1..] == units[k..];
  }

  lemma SkipsUnits(n: nat, k: nat)
    requires k < 5 && forall i :: 0 <= i < k ==> n == 0 || n % UnitRender[i].millis != 0
    ensures DurationText(n, UnitRender) == DurationText(n, UnitRender[k..])
  {
    hide DurationText;
    assert UnitRender[0..] == UnitRender;
    for i := 0 to k
      invariant DurationText(n, UnitRender) == DurationText(n, UnitRender[i..])
    {
      SkipsUnit(n, UnitRender, i);
    }
  }

  lemma {:induction false} PrintsIn(n: nat, k: nat)
    requires k < 5 && n != 0 && n % UnitRender[k].millis == 0
    requires forall i :: 0 <= i < k ==> n % UnitRender[i].millis != 0
    ensures ValueText(Lit(n, true)) == Decimal(n / UnitRender[k].millis) + UnitRender[k].suffix
  {
    hide DurationText, Decimal, IntText;
    SkipsUnits(n, k);
    NextUnit(n, UnitRender[k], UnitRender[k + 1..]);
    assert [UnitRender[k]] + UnitRender[k + 1..] == UnitRender[k..];
  }

  lemma PrintsZero()
    ensures ValueText(Lit(0, true)) == "0ms"
  {
    hide DurationText;
    SkipsUnits(0, 4);
    NextUnit(0, UnitRender[4], []);
    assert [UnitRender[4]] + [] == UnitRender[4..];
  }

  /** A duration is printed in its largest exact unit, none at all in milliseconds. */
  lemma DurationPrints(n: nat)
    ensures ValueText(Lit(n, true))
         == if n == 0 then "0ms"
            else if n % 86400000 == 0 then Decimal(n / 86400000) + "d"
            else if n % 3600000 == 0 then Decimal(n / 3600000) + "h"
            else if n % 60000 == 0 then Decimal(n / 60000) + "m"
            else if n % 1000 == 0 then Decimal(n / 1000) + "s"
            else Decimal(n) + "ms"
  {
    hide ValueText, Decimal;
    if n == 0 {
      PrintsZero();
    } else if n % 86400000 == 0 {
      PrintsIn(n, 0);
    } else if n % 3600000 == 0 {
      PrintsIn(n, 1);
    } else if n % 60000 == 0 {
      PrintsIn(n, 2);
    } else if n % 1000 == 0 {
      PrintsIn(n, 3);
    } else {
      PrintsIn(n, 4);
    }
  }

  lemma LetterName(u: CharClass, x: string)
    requires u.Sane() && |x| == 1 && 'a' <= x[0] <= 'z'
    ensures IsReference(u, x)
  {
    assert Camel(u, x);
    assert |"and"| == 3 && |"to"| == 2 && |"exists"| == 6 && |"missing"| == 7 && |"is-numeric"| == 10;
    assert |"is-not-numeric"| == 14;
    ReferencesAre(u, x);
  }

  lemma LetterAboveThree(u: CharClass, x: string)
    requires u.Sane() && |x| == 1 && 'a' <= x[0] <= 'z'
    ensures ParseCondition(u, x + " > 3") == Success(Some(Comparison(Ref(x), Gt, Lit(3, false))))
  {
    LetterName(u, x);
    var c := Comparison(Ref(x), Gt, Lit(3, false));
    assert Decimal(3) == "3";
    assert ConditionText(c) == x + " " + ">" + " " + "3";
    assert x + " " + ">" + " " + "3" == x + " > 3";
    hide CharClass.Sane, ConditionText, ParseCondition, IsReference;
    ConditionRoundTrip.ConditionRoundTrip(u, c);
  }

  /** With a = 0 and b = 5 the guard `a > 3` fails and its alternative `b > 3` holds. */
  lemma ZeroAndFive(u: CharClass)
    requires u.Sane()
    ensures var scope := map["a" := 0, "b" := 5];
            TextVerdict(u, "a > 3", scope) == Holds(false) && TextVerdict(u, "b > 3", scope) == Holds(true)
  {
    hide CharClass.Sane, IsReference, Says, TextVerdict;
    var scope: Scope := map["a" := 0, "b" := 5];
    LetterName(u, "a");
    LetterName(u, "b");
    FieldSays(u, "a", scope);
    FieldSays(u, "b", scope);
    assert Decimal(3) == "3";
    NumeralSays(u, 3, scope);
    ComparatorsMean(u, "a", "3", scope, 0, 3);
    ComparatorsMean(u, "b", "3", scope, 5, 3);
    assert "a" + " > " + "3" == "a > 3" && "b" + " > " + "3" == "b > 3";
  }
}
