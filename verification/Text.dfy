/** Decimal numerals and the whitespace-separated word lists that every textual
    format of the system is built from. */
module Text {

  predicate IsDigit(c: char) {
    '0' <= c <= '9'
  }

  predicate AllDigits(s: string) {
    forall i :: 0 <= i < |s| ==> IsDigit(s[i])
  }

  function DigitChar(d: nat): (c: char)
    requires d < 10
    ensures IsDigit(c) && c as int - '0' as int == d
  {
    ('0' as int + d) as char
  }

  function DigitValue(c: char): (d: nat)
    requires IsDigit(c)
    ensures d < 10 && DigitChar(d) == c
  {
    c as int - '0' as int
  }

  /** `str(n)` of a non-negative integer. */
  function Decimal(n: nat): (s: string)
    ensures s != [] && AllDigits(s)
  {
    if n < 10 then [DigitChar(n)] else Decimal(n / 10) + [DigitChar(n % 10)]
  }

  /** `int(s)` of a string of ASCII digits. */
  function Numeral(s: string): nat
    requires AllDigits(s)
  {
    if s == [] then 0 else 10 * Numeral(s[..|s| - 1]) + DigitValue(s[|s| - 1])
  }

  lemma {:induction false} NumeralOfDecimal(n: nat)
    ensures Numeral(Decimal(n)) == n
  {
    if n >= 10 {
      NumeralOfDecimal(n / 10);
      assert Decimal(n)[..|Decimal(n)| - 1] == Decimal(n / 10);
    }
  }

  lemma DecimalInjective(m: nat, n: nat)
    requires Decimal(m) == Decimal(n)
    ensures m == n
  {
    NumeralOfDecimal(m);
    NumeralOfDecimal(n);
  }

  /** `"%0<width>d" % n` of a number that fits the width. */
  function Padded(n: nat, width: nat): (s: string)
    ensures |s| == width && AllDigits(s)
  {
    if width == 0 then [] else Padded(n / 10, width - 1) + [DigitChar(n % 10)]
  }

  function Pow10(k: nat): (p: nat)
    ensures p > 0
  {
    if k == 0 then 1 else 10 * Pow10(k - 1)
  }

  lemma {:induction false} NumeralOfPadded(n: nat, width: nat)
    requires n < Pow10(width)
    ensures Numeral(Padded(n, width)) == n
  {
    if width > 0 {
      NumeralOfPadded(n / 10, width - 1);
      assert Padded(n, width)[..width - 1] == Padded(n / 10, width - 1);
    }
  }

  lemma {:induction false} PaddedOfNumeral(s: string)
    requires AllDigits(s)
    ensures Padded(Numeral(s), |s|) == s
    ensures Numeral(s) < Pow10(|s|)
  {
    if s != [] {
      var init := s[..|s| - 1];
      PaddedOfNumeral(init);
      assert s == init + [s[|s| - 1]];
      assert Numeral(s) / 10 == Numeral(init) && Numeral(s) % 10 == DigitValue(s[|s| - 1]);
    }
  }

  /** `sep.join(parts)`. */
  function Join(parts: seq<string>, sep: string): string {
    if parts == [] then ""
    else if |parts| == 1 then parts[0]
    else parts[0] + sep + Join(parts[1..], sep)
  }

  lemma {:induction false} JoinConcat(a: seq<string>, b: seq<string>, sep: string)
    requires a != [] && b != []
    ensures Join(a + b, sep) == Join(a, sep) + sep + Join(b, sep)
  {
    if |a| == 1 {
      assert (a + b)[1..] == b;
    } else {
      assert (a + b)[1..] == a[1..] + b;
      JoinConcat(a[1..], b, sep);
    }
  }

  lemma Assoc<T>(a: seq<T>, b: seq<T>, c: seq<T>)
    ensures (a + b) + c == a + (b + c)
  {
  }

  predicate NoneOf(s: string, bad: char -> bool) {
    forall i :: 0 <= i < |s| ==> !bad(s[i])
  }

  /** Length of the longest prefix of `s` free of `sep`. */
  function RunLength(s: string, sep: char -> bool): (k: nat)
    ensures k <= |s| && NoneOf(s[..k], sep) && (k < |s| ==> sep(s[k]))
  {
    if s == [] || sep(s[0]) then 0 else 1 + RunLength(s[1..], sep)
  }

  lemma {:induction false} RunLengthOf(a: string, b: string, sep: char -> bool)
    requires NoneOf(a, sep) && (b == [] || sep(b[0]))
    ensures RunLength(a + b, sep) == |a|
  {
    if a == [] {
      assert a + b == b;
    } else {
      assert (a + b)[1..] == a[1..] + b;
      RunLengthOf(a[1..], b, sep);
    }
  }

  /** `s.split()`: the maximal runs of non-space characters. */
  function Words(s: string, space: char -> bool): (ws: seq<string>)
    ensures forall i :: 0 <= i < |ws| ==> ws[i] != [] && NoneOf(ws[i], space)
    decreases |s|
  {
    if s == [] then []
    else if space(s[0]) then Words(s[1..], space)
    else
      var k := RunLength(s, space);
      [s[..k]] + Words(s[k..], space)
  }

  lemma WordsPeel(a: string, b: string, space: char -> bool)
    requires a != [] && NoneOf(a, space) && (b == [] || space(b[0]))
    ensures Words(a + b, space) == [a] + Words(b, space)
  {
    RunLengthOf(a, b, space);
    assert (a + b)[..|a|] == a && (a + b)[|a|..] == b;
  }

  /** Splitting undoes joining with single spaces. */
  lemma {:induction false} WordsOfJoin(ws: seq<string>, space: char -> bool)
    requires space(' ')
    requires forall i :: 0 <= i < |ws| ==> ws[i] != [] && NoneOf(ws[i], space)
    ensures Words(Join(ws, " "), space) == ws
  {
    if |ws| == 1 {
      assert ws[0] + [] == ws[0];
      WordsPeel(ws[0], [], space);
    } else if ws != [] {
      var tail := Join(ws[1..], " ");
      assert Join(ws, " ") == ws[0] + (" " + tail);
      WordsPeel(ws[0], " " + tail, space);
      assert (" " + tail)[1..] == tail;
      WordsOfJoin(ws[1..], space);
    }
  }

  // ---- Order ---------------------------------------------------------------------------

  /** Python's order on strings. */
  predicate Before(a: string, b: string) {
    b != [] && (a == [] || a[0] < b[0] || (a[0] == b[0] && Before(a[1..], b[1..])))
  }

  lemma {:induction false} BeforeIsTotal(a: string, b: string)
    ensures !(Before(a, b) && Before(b, a)) && (Before(a, b) || a == b || Before(b, a)) && !Before(a, a)
  {
    if a != [] && b != [] {
      BeforeIsTotal(a[1..], b[1..]);
      BeforeIsTotal(a[1..], a[1..]);
      assert a == [a[0]] + a[1..] && b == [b[0]] + b[1..];
    } else if a != [] {
      BeforeIsTotal(a[1..], a[1..]);
    }
  }

  lemma {:induction false} BeforeTransitive(a: string, b: string, c: string)
    requires Before(a, b) && Before(b, c)
    ensures Before(a, c)
  {
    if a != [] && a[0] == b[0] == c[0] {
      BeforeTransitive(a[1..], b[1..], c[1..]);
    }
  }
}
