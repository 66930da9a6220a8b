/** The guard-condition and assignment syntax trees of `impl/lnpl/condition.py`, and the
    constants of `impl/lnpl/lexer.py` they are defined over. */
module Conditions {

  const INT64_MAX: int := 0x7FFF_FFFF_FFFF_FFFF
  const INT64_MIN: int := -0x8000_0000_0000_0000

  predicate InInt64(n: int) {
    INT64_MIN <= n <= INT64_MAX
  }

  datatype ArithOp = Add | Sub | Mul | Div

  datatype Comparator = Lt | Le | Gt | Ge | Eq | Ne

  /** An operand, or one arithmetic operation on two operands. The grammar nests arithmetic
      zero levels; the type does not enforce it, and the compiler lemmas do not need it. */
  datatype Value =
    | Ref(name: string)
    | Lit(value: int, isDuration: bool)
    | Arith(left: Value, op: ArithOp, right: Value)

  datatype PresenceKind = Exists | Missing

  datatype NumericKind = IsNumeric | IsNotNumeric

  datatype Condition =
    | Presence(field: string, presence: PresenceKind)
    | NumericPredicate(field: string, numeric: NumericKind)
    | Comparison(left: Value, op: Comparator, right: Value)
    | And(terms: seq<Condition>)

  /** The right-hand side of an assignment step. */
  datatype AssignRhs =
    | Plain(value: Value)
    | Aggregate(func: string, ref: string)
    | FormatCall(template: string, args: seq<string>)

  function ValueReferences(v: Value): seq<string> {
    match v
    case Ref(name) => [name]
    case Lit(_, _) => []
    case Arith(l, _, r) => ValueReferences(l) + ValueReferences(r)
  }

  /** Every reference a condition reads, in source order. */
  function References(c: Condition): seq<string> {
    match c
    case Presence(field, _) => [field]
    case NumericPredicate(field, _) => [field]
    case Comparison(l, _, r) => ValueReferences(l) + ValueReferences(r)
    case And(terms) => TermReferences(terms)
  }

  function TermReferences(terms: seq<Condition>): seq<string> {
    if terms == [] then [] else References(terms[0]) + TermReferences(terms[1..])
  }

  lemma {:induction false} TermReferencesContain(terms: seq<Condition>, k: nat, name: string)
    requires k < |terms| && name in References(terms[k])
    ensures name in TermReferences(terms)
  {
    if k > 0 {
      TermReferencesContain(terms[1..], k - 1, name);
    }
  }
}
