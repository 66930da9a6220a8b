/** Instants as text: what the codec makes of a date-time with any fraction and any zone designator
    (RFC 3339, sections 5.6 and 5.8), and dates whose milliseconds are known. */
module InstantText {
  import opened Wrappers
  import opened Text
  import opened Calendar
  import opened Conditions
  import opened Instant

  // ---- Digits --------------------------------------------------------------------------

  lemma LastDigit(s: string)
    requires AllDigits(s) && s != []
    ensures Numeral(s) == 10 * Numeral(s[..|s| - 1]) + DigitValue(s[|s| - 1])
  {
  }

  lemma Tenfold(h: int, p: int, x: int, d: int)
    ensures 10 * (h * p + x) + d == h * (10 * p) + (10 * x + d)
  {
  }

  lemma PowerUp(k: nat)
    ensures Pow10(k + 1) == 10 * Pow10(k)
  {
  }

  lemma {:induction false} DigitsSplit(s: string, k: nat)
    requires AllDigits(s) && k <= |s|
    ensures Numeral(s) == Numeral(s[..k]) * Pow10(|s| - k) + Numeral(s[k..])
    decreases |s|
  {
    if k == |s| {
      assert s[..k] == s && s[k..] == [];
      assert Pow10(0) == 1 && Numeral([]) == 0;
    } else {
      hide Numeral, Pow10;
      var init := s[..|s| - 1];
      DigitsSplit(init, k);
      assert init[..k] == s[..k];
      assert s[k..][..|s[k..]| - 1] == init[k..] && s[k..][|s[k..]| - 1] == s[|s| - 1];
      LastDigit(s);
      LastDigit(s[k..]);
      PowerUp(|init| - k);
      Tenfold(Numeral(s[..k]), Pow10(|init| - k), Numeral(init[k..]), DigitValue(s[|s| - 1]));
    }
  }

  lemma ThreeDigits(s: string)
    requires AllDigits(s) && |s| <= 3
    ensures |s| == 1 ==> Numeral(s) == DigitValue(s[0])
    ensures |s| == 2 ==> Numeral(s) == 10 * DigitValue(s[0]) + DigitValue(s[1])
    ensures |s| == 3 ==> Numeral(s) == 100 * DigitValue(s[0]) + 10 * DigitValue(s[1]) + DigitValue(s[2])
  {
    if |s| == 2 {
      OneDigit(s[..1]);
    } else if |s| == 3 {
      assert s[..2][..1] == s[..1];
      OneDigit(s[..1]);
      assert Numeral(s[..2]) == 10 * Numeral(s[..1]) + DigitValue(s[1]);
    } else if |s| == 1 {
      OneDigit(s);
    }
  }

  lemma OneDigit(s: string)
    requires AllDigits(s) && |s| == 1
    ensures Numeral(s) == DigitValue(s[0])
  {
    assert s[..0] == [];
  }

  lemma Scaled(h: nat, p: nat, r: nat)
    requires p >= 1 && r < p
    ensures 1000 * (h * p + r) / (1000 * p) == h
  {
    var a, b := 1000 * (h * p + r), 1000 * p;
    assert a == h * b + 1000 * r by { assert 1000 * (h * p) == h * (1000 * p); }
    assert 0 <= 1000 * r < b;
    assert a / b == h by { Quotients(a, b, h, 1000 * r); }
  }

  lemma Multiple(b: int, k: int)
    requires b > 0
    ensures (k >= 1 ==> b * k >= b) && (k <= -1 ==> b * k <= -b)
  {
    if k >= 1 {
      assert b * (k - 1) >= 0;
    } else if k <= -1 {
      assert b * (k + 1) <= 0;
    }
  }

  lemma Quotients(a: int, b: int, q: int, r: int)
    requires 0 <= r < b && a == q * b + r
    ensures a / b == q
  {
    assert a == b * (a / b) + a % b;
    assert b * (q - a / b) == a % b - r by { assert b * (q - a / b) == b * q - b * (a / b); }
    Multiple(b, q - a / b);
  }

  lemma LongFraction(f: string)
    requires AllDigits(f) && |f| >= 3
    ensures Numeral(f[..3]) == 1000 * Numeral(f) / Pow10(|f|)
  {
    assert Pow10(1) == 10 && Pow10(2) == 100 && Pow10(3) == 1000;
    hide Numeral, Pow10;
    DigitsSplit(f, 3);
    PaddedOfNumeral(f[3..]);
    PowersSum(3, |f| - 3);
    Scaled(Numeral(f[..3]), Pow10(|f| - 3), Numeral(f[3..]));
  }

  /** The whole thousandths of the decimal fraction `0.f`. */
  function Thousandths(f: string): int
    requires AllDigits(f)
  {
    1000 * Numeral(f) / Pow10(|f|)
  }

  /** A fraction's milliseconds: its whole thousandths. */
  lemma FractionMillis(f: string)
    requires AllDigits(f)
    ensures MillisOf(f) == Thousandths(f)
  {
    assert Pow10(0) == 1 && Pow10(1) == 10 && Pow10(2) == 100;
    if |f| >= 3 {
      LongFraction(f);
    } else if |f| == 0 {
      assert Numeral(f) == 0;
    } else {
      hide Numeral, Pow10;
    }
  }

  lemma {:induction false} PowersSum(j: nat, k: nat)
    ensures Pow10(j + k) == Pow10(j) * Pow10(k)
  {
    if k > 0 {
      PowersSum(j, k - 1);
      assert 10 * (Pow10(j) * Pow10(k - 1)) == Pow10(j) * (10 * Pow10(k - 1));
    }
  }

  // ---- Parts of the text ---------------------------------------------------------------

  /** An offset as it is written: a sign, two digits of hours, a colon or none, two digits of minutes. */
  function OffsetText(east: bool, hours: nat, minutes: nat, colon: bool): string {
    (if east then "+" else "-") + Padded(hours, 2) + (if colon then ":" else "") + Padded(minutes, 2)
  }

  lemma OffsetReads(east: bool, hours: nat, minutes: nat, colon: bool)
    requires hours < 100 && minutes < 100
    ensures var t := OffsetText(east, hours, minutes, colon);
            ZoneOf(t) == Some(Offset(east, hours, minutes)) && t != [] && t[0] in "+-" && IsDigit(t[|t| - 1])
  {
    var t, h, m := OffsetText(east, hours, minutes, colon), Padded(hours, 2), Padded(minutes, 2);
    TwoDigits(hours);
    TwoDigits(minutes);
    hide Padded, Numeral;
    assert t[0] == if east then '+' else '-';
    assert t[1..3] == h;
    assert IsDigit(t[|t| - 1]) by { assert t[|t| - 1] == m[1]; }
    if colon {
      assert |t| == 6 && t[3] == ':' && t[4..6] == m;
    } else {
      assert |t| == 5 && t[3..5] == m;
    }
  }

  lemma ZuluReads()
    ensures ZoneOf("Z") == Some(Zulu) && ZoneOf("z") == Some(Zulu)
  {
  }

  lemma LineFeed(z: string)
    requires z != [] && z[|z| - 1] != '\n'
    ensures ZoneOf(z + "\n") == ZoneOf(z)
  {
    assert (z + "\n")[..|z|] == z;
  }

  /** A fraction as it is written, none as nothing. */
  function FractionText(f: string): string {
    if f == "" then "" else "." + f
  }

  lemma DigitRun(f: string, z: string)
    requires AllDigits(f) && z != [] && !IsDigit(z[0])
    ensures RunLength(f + z, c => !IsDigit(c)) == |f|
  {
    RunLengthOf(f, z, c => !IsDigit(c));
  }

  lemma FractionReads(f: string, z: string)
    requires AllDigits(f) && z != [] && !IsDigit(z[0]) && z[0] != '.'
    ensures FractionLength(FractionText(f) + z) == |FractionText(f)|
  {
    hide RunLength, AllDigits;
    var t := FractionText(f) + z;
    if f == "" {
      assert t == z;
    } else {
      DigitRun(f, z);
      assert t == "." + (f + z) && t[1..] == f + z;
    }
  }

  /** Reading a text is reading its fields, its fraction and its zone. */
  lemma ReadParts(s: string, f: string, z: string, zone: Zone)
    requires |s| >= 19 && LooksLikeInstant(s) && s[19..] == FractionText(f) + z
    requires AllDigits(f) && z != [] && !IsDigit(z[0]) && z[0] != '.' && ZoneOf(z) == Some(zone)
    ensures ReadStamp(s) == Some(Stamp(
      Date(Numeral(s[0..4]), Numeral(s[5..7]), Numeral(s[8..10])),
      Numeral(s[11..13]), Numeral(s[14..16]), Numeral(s[17..19]), MillisOf(f), zone))
  {
    hide ZoneOf, MillisOf, Numeral, FractionLength;
    var t, k := FractionText(f) + z, |FractionText(f)|;
    FractionReads(f, z);
    assert s[19 + k..] == s[19..][k..] == t[k..] == z;
    if f != "" {
      assert t[1..k] == f;
    } else {
      NoFraction();
    }
  }

  lemma MomentReads(local: int)
    requires InYears(local)
    ensures Decode(local).Success?
    ensures var d, t := Decode(local).value, StampOf(local);
            && |d| == 24 && LooksLikeInstant(d) && t.zone == Zulu
            && t.date == Date(Numeral(d[0..4]), Numeral(d[5..7]), Numeral(d[8..10]))
            && t.hour == Numeral(d[11..13]) && t.minute == Numeral(d[14..16]) && t.second == Numeral(d[17..19])
  {
    hide StampOf, Numeral, Render, Pieces, ReadStamp;
    StampOfInverse(local);
    ReadRendered(StampOf(local));
    hide RealMoment;
    ReadCanonical(Decode(local).value);
  }

  lemma Cut(d: string, sep: char, t: string)
    requires |d| == 24
    ensures var s := d[..10] + [sep] + d[11..19] + t;
            s[..10] == d[..10] && s[10] == sep && s[11..19] == d[11..19] && s[19..] == t
  {
  }

  /** The date and the clock, the character between them free, and what follows. */
  lemma StampReads(local: int, sep: char, f: string, z: string, zone: Zone)
    requires InYears(local) && sep in "Tt " && AllDigits(f)
    requires z != [] && !IsDigit(z[0]) && z[0] != '.' && ZoneOf(z) == Some(zone)
    ensures var d := Decode(local).value;
            |d| == 24 && ReadStamp(d[..10] + [sep] + d[11..19] + FractionText(f) + z)
                         == Some(StampOf(local).(millis := MillisOf(f), zone := zone))
  {
    hide StampOf, ZoneOf, MillisOf, Numeral, Decode, ReadStamp, LooksLikeInstant, FractionText;
    MomentReads(local);
    var d, t := Decode(local).value, FractionText(f) + z;
    Cut(d, sep, t);
    var s := d[..10] + [sep] + d[11..19] + t;
    assert d[..10] + [sep] + d[11..19] + FractionText(f) + z == s;
    SameFields(d, s, sep);
    ReadParts(s, f, z, zone);
  }

  lemma NoFraction()
    ensures MillisOf("") == 0
  {
  }

  lemma SameDigits(d: string, s: string, i: nat, n: nat)
    requires DigitsAt(d, i, n) && i + n <= |s| && s[i..i + n] == d[i..i + n]
    ensures DigitsAt(s, i, n)
  {
  }

  lemma SamePart(d: string, s: string, a: nat, b: nat, i: nat, j: nat)
    requires a <= i <= j <= b <= |s| && b <= |d| && s[a..b] == d[a..b]
    ensures s[i..j] == d[i..j]
  {
    forall k | i <= k < j ensures s[k] == d[k] {
      assert s[a..b][k - a] == d[a..b][k - a];
    }
  }

  lemma SameFields(d: string, s: string, sep: char)
    requires |d| == 24 && LooksLikeInstant(d) && |s| >= 19 && sep in "Tt "
    requires s[..10] == d[..10] && s[10] == sep && s[11..19] == d[11..19]
    ensures LooksLikeInstant(s)
    ensures s[0..4] == d[0..4] && s[5..7] == d[5..7] && s[8..10] == d[8..10] && s[11..13] == d[11..13]
            && s[14..16] == d[14..16] && s[17..19] == d[17..19]
  {
    assert s[0..10] == s[..10] && d[0..10] == d[..10];
    SamePart(d, s, 0, 10, 0, 4);
    SamePart(d, s, 0, 10, 5, 7);
    SamePart(d, s, 0, 10, 8, 10);
    SamePart(d, s, 11, 19, 11, 13);
    SamePart(d, s, 11, 19, 14, 16);
    SamePart(d, s, 11, 19, 17, 19);
    hide DigitsAt;
    SameDigits(d, s, 0, 4);
    SameDigits(d, s, 5, 2);
    SameDigits(d, s, 8, 2);
    SameDigits(d, s, 11, 2);
    SameDigits(d, s, 14, 2);
    SameDigits(d, s, 17, 2);
    assert s[..10][4] == d[..10][4] && s[..10][7] == d[..10][7];
    assert s[11..19][2] == d[11..19][2] && s[11..19][5] == d[11..19][5];
  }

  lemma MillisShift(t: Stamp, total: int, millis: nat, zone: Zone)
    requires t.zone == Zulu && t.millis == 0 && Millis(t) == Success(total)
    requires InInt64(total + millis - ZoneMillis(zone))
    ensures Millis(t.(millis := millis, zone := zone)) == Success(total + millis - ZoneMillis(zone))
  {
    hide Ordinal;
  }

  lemma WholeDay(days: int, rem: int)
    requires (days * DAY_MS + rem) % 1000 == 0
    ensures rem % 1000 == 0
  {
    assert days * DAY_MS == 1000 * (days * 86400);
  }

  lemma WholeSeconds(local: int)
    requires InYears(local) && local % 1000 == 0
    ensures StampOf(local).millis == 0
  {
    hide DateOf, InYears;
    assert local == local / DAY_MS * DAY_MS + local % DAY_MS;
    WholeDay(local / DAY_MS, local % DAY_MS);
  }

  /** The local time, with this character, fraction and rest, is read as the instant `at`. */
  ghost predicate NamedAt(local: int, sep: char, f: string, z: string, at: int) {
    Decode(local).Success? &&
    var d := Decode(local).value;
    |d| == 24 && Encode(d[..10] + [sep] + d[11..19] + FractionText(f) + z) == Success(at)
  }

  lemma Encoded(local: int, sep: char, f: string, z: string, zone: Zone)
    requires InYears(local) && local % 1000 == 0 && sep in "Tt " && AllDigits(f)
    requires z != [] && !IsDigit(z[0]) && z[0] != '.' && ZoneOf(z) == Some(zone) && ZoneFits(zone)
    ensures NamedAt(local, sep, f, z, local + Thousandths(f) - ZoneMillis(zone))
  {
    hide StampOf, ZoneOf, Numeral, ReadStamp, Millis, Decode, FractionText, RealMoment, Thousandths, MillisOf;
    MomentReads(local);
    StampReads(local, sep, f, z, zone);
    StampOfInverse(local);
    MomentIsZulu(StampOf(local));
    WholeSeconds(local);
    FractionMillis(f);
    SmallFraction(f);
    MillisShift(StampOf(local), local, MillisOf(f), zone);
  }

  lemma SmallFraction(f: string)
    requires AllDigits(f)
    ensures MillisOf(f) <= 999
  {
    assert Pow10(1) == 10 && Pow10(2) == 100 && Pow10(3) == 1000;
    PaddedOfNumeral(if |f| >= 3 then f[..3] else f);
  }

  predicate ZoneFits(zone: Zone) {
    zone.Offset? ==> zone.hours < 100 && zone.minutes < 100
  }

  // ---- Main results --------------------------------------------------------------------

  /** A local time with any fraction of a second and a zone designator names the instant that is its UTC
      time: the fraction counts in whole milliseconds, `+` is a local time ahead of UTC, the colon is
      optional, `T` may be `t` or a blank, and one line feed may end the text. */
  lemma TextNamesTheInstant(local: int, sep: char, f: string, hours: nat, minutes: nat, end: string)
    requires InYears(local) && local % 1000 == 0 && sep in "Tt " && AllDigits(f) && hours < 100 && minutes < 100
    requires end == "" || end == "\n"
    ensures var d := Decode(local).value;
            |d| == 24 &&
            var text := d[..10] + [sep] + d[11..19] + FractionText(f);
            var at, ahead := local + Thousandths(f), hours * 3600000 + minutes * 60000;
            && Encode(text + ("Z" + end)) == Success(at) && Encode(text + ("z" + end)) == Success(at)
            && Encode(text + ("+" + Padded(hours, 2) + ":" + Padded(minutes, 2) + end)) == Success(at - ahead)
            && Encode(text + ("-" + Padded(hours, 2) + ":" + Padded(minutes, 2) + end)) == Success(at + ahead)
            && Encode(text + ("+" + Padded(hours, 2) + Padded(minutes, 2) + end)) == Success(at - ahead)
            && Encode(text + ("-" + Padded(hours, 2) + Padded(minutes, 2) + end)) == Success(at + ahead)
  {
    hide *;
    var h, m := Padded(hours, 2), Padded(minutes, 2);
    var at, ahead := local + Thousandths(f), hours * 3600000 + minutes * 60000;
    ZuluNames(local, sep, f, end);
    OffsetTexts(hours, minutes, end);
    OffsetNames(local, sep, f, true, hours, minutes, true, end, "+" + h + ":" + m + end);
    OffsetNames(local, sep, f, false, hours, minutes, true, end, "-" + h + ":" + m + end);
    OffsetNames(local, sep, f, true, hours, minutes, false, end, "+" + h + m + end);
    OffsetNames(local, sep, f, false, hours, minutes, false, end, "-" + h + m + end);
    Named(local, sep, f, "Z" + end, at);
    Named(local, sep, f, "z" + end, at);
    Named(local, sep, f, "+" + h + ":" + m + end, at - ahead);
    Named(local, sep, f, "-" + h + ":" + m + end, at + ahead);
    Named(local, sep, f, "+" + h + m + end, at - ahead);
    Named(local, sep, f, "-" + h + m + end, at + ahead);
  }

  lemma Named(local: int, sep: char, f: string, z: string, at: int)
    requires NamedAt(local, sep, f, z, at)
    ensures Decode(local).Success?
    ensures var d := Decode(local).value;
            |d| == 24 && Encode(d[..10] + [sep] + d[11..19] + FractionText(f) + z) == Success(at)
  {
    hide Decode, Encode, FractionText;
  }

  lemma ZuluNames(local: int, sep: char, f: string, end: string)
    requires InYears(local) && local % 1000 == 0 && sep in "Tt " && AllDigits(f)
    requires end == "" || end == "\n"
    ensures NamedAt(local, sep, f, "Z" + end, local + Thousandths(f))
    ensures NamedAt(local, sep, f, "z" + end, local + Thousandths(f))
  {
    hide Thousandths, NamedAt, ZoneOf, InYears;
    ZuluReads();
    Ended(local, sep, f, "Z", Zulu, end);
    Ended(local, sep, f, "z", Zulu, end);
  }

  lemma OffsetNames(local: int, sep: char, f: string, east: bool, hours: nat, minutes: nat, colon: bool, end: string,
                    z: string)
    requires InYears(local) && local % 1000 == 0 && sep in "Tt " && AllDigits(f) && hours < 100 && minutes < 100
    requires (end == "" || end == "\n") && z == OffsetText(east, hours, minutes, colon) + end
    ensures var ahead := hours * 3600000 + minutes * 60000;
            NamedAt(local, sep, f, z, local + Thousandths(f) + if east then -ahead else ahead)
  {
    hide Thousandths, NamedAt, ZoneOf, InYears, OffsetText;
    OffsetReads(east, hours, minutes, colon);
    Ended(local, sep, f, OffsetText(east, hours, minutes, colon), Offset(east, hours, minutes), end);
  }

  lemma OffsetTexts(hours: nat, minutes: nat, end: string)
    ensures var h, m := Padded(hours, 2), Padded(minutes, 2);
            && OffsetText(true, hours, minutes, true) + end == "+" + h + ":" + m + end
            && OffsetText(false, hours, minutes, true) + end == "-" + h + ":" + m + end
            && OffsetText(true, hours, minutes, false) + end == "+" + h + m + end
            && OffsetText(false, hours, minutes, false) + end == "-" + h + m + end
  {
    hide Padded;
    var h, m := Padded(hours, 2), Padded(minutes, 2);
    assert "+" + h + "" + m == "+" + h + m && "-" + h + "" + m == "-" + h + m;
  }

  lemma Ended(local: int, sep: char, f: string, z: string, zone: Zone, end: string)
    requires InYears(local) && local % 1000 == 0 && sep in "Tt " && AllDigits(f)
    requires z != [] && !IsDigit(z[0]) && z[0] != '.' && z[|z| - 1] != '\n' && ZoneOf(z) == Some(zone) && ZoneFits(zone)
    requires end == "" || end == "\n"
    ensures NamedAt(local, sep, f, z + end, local + Thousandths(f) - ZoneMillis(zone))
  {
    hide Thousandths, NamedAt, ZoneOf, InYears;
    LineFeed(z);
    assert z + "" == z;
    Encoded(local, sep, f, z + end, zone);
  }

  lemma YearOrdinal(d: Date)
    requires 1 <= d.year <= 9999 && 1 <= d.month <= 12 && 1 <= d.day <= 31
    ensures 0 < Ordinal(d) < 4000000
  {
    MonthStarts(d.year);
  }

  /** Text in the shape `Decode` writes is accepted exactly if its year is not 0000, its month is one of
      twelve, its day at most 31, its hour at most 23, its minute at most 59 and its second at most 60. */
  lemma AcceptedExactly(s: string)
    requires Canonical(s)
    ensures Encode(s).Success?
       <==> && Numeral(s[0..4]) >= 1 && 1 <= Numeral(s[5..7]) <= 12 && 1 <= Numeral(s[8..10]) <= 31
            && Numeral(s[11..13]) <= 23 && Numeral(s[14..16]) <= 59 && Numeral(s[17..19]) <= 60
  {
    ReadCanonical(s);
    MillisDigits(s);
    assert Pow10(2) == 100 && Pow10(4) == 10000;
    PaddedOfNumeral(s[0..4]);
    hide Numeral, Canonical, ReadStamp, Ordinal;
    var t := ReadStamp(s).value;
    if 1 <= t.date.year <= 9999 && 1 <= t.date.month <= 12 && 1 <= t.date.day <= 31 {
      YearOrdinal(t.date);
    }
  }

  // ---- Known dates ---------------------------------------------------------------------

  lemma YearDigits(s: string)
    requires AllDigits(s) && |s| == 4
    ensures Numeral(s) == 1000 * DigitValue(s[0]) + 100 * DigitValue(s[1]) + 10 * DigitValue(s[2]) + DigitValue(s[3])
  {
    assert s[..3][..3] == s[..3];
    ThreeDigits(s[..3]);
  }

  lemma FieldsOf(s: string)
    requires Canonical(s)
    ensures Numeral(s[0..4]) == 1000 * DigitValue(s[0]) + 100 * DigitValue(s[1]) + 10 * DigitValue(s[2])
                                + DigitValue(s[3])
    ensures Numeral(s[5..7]) == 10 * DigitValue(s[5]) + DigitValue(s[6])
    ensures Numeral(s[8..10]) == 10 * DigitValue(s[8]) + DigitValue(s[9])
    ensures Numeral(s[11..13]) == 10 * DigitValue(s[11]) + DigitValue(s[12])
    ensures Numeral(s[14..16]) == 10 * DigitValue(s[14]) + DigitValue(s[15])
    ensures Numeral(s[17..19]) == 10 * DigitValue(s[17]) + DigitValue(s[18])
    ensures Numeral(s[20..23]) == 100 * DigitValue(s[20]) + 10 * DigitValue(s[21]) + DigitValue(s[22])
  {
    hide Numeral;
    YearDigits(s[0..4]);
    ThreeDigits(s[5..7]);
    ThreeDigits(s[8..10]);
    ThreeDigits(s[11..13]);
    ThreeDigits(s[14..16]);
    ThreeDigits(s[17..19]);
    ThreeDigits(s[20..23]);
  }

  lemma MomentMillis(t: Stamp, days: int)
    requires RealMoment(t) && Ordinal(t.date) - EPOCH_ORDINAL == days
    ensures Millis(t) == Success(days * 86400000 + (t.hour * 3600 + t.minute * 60 + t.second) * 1000 + t.millis)
  {
    hide Ordinal, Millis, RealMoment;
    MillisOfMoment(t);
  }

  lemma CodecOf(s: string, t: Stamp, ms: int)
    requires ReadStamp(s) == Some(t) && Millis(t) == Success(ms) && InYears(ms) && StampOf(ms) == t
    requires Render(Pieces(t)) == s
    ensures Encode(s) == Success(ms) && Decode(ms) == Success(s)
  {
    hide ReadStamp, Millis, InYears, StampOf, Render, Pieces;
  }

  lemma Known(s: string, t: Stamp, days: int)
    requires Canonical(s) && ReadStamp(s) == Some(t) && RealMoment(t) && Ordinal(t.date) - EPOCH_ORDINAL == days
    ensures var ms := days * 86400000 + (t.hour * 3600 + t.minute * 60 + t.second) * 1000 + t.millis;
            Encode(s) == Success(ms) && Decode(ms) == Success(s)
  {
    hide *;
    MomentMillis(t, days);
    MillisInverse(t);
    SamePieces(s, t);
    CodecOf(s, t, days * 86400000 + (t.hour * 3600 + t.minute * 60 + t.second) * 1000 + t.millis);
  }

  lemma KnownFields(s: string, d: Date, hour: nat, minute: nat, second: nat, millis: nat)
    requires Canonical(s)
    requires d.year == 1000 * DigitValue(s[0]) + 100 * DigitValue(s[1]) + 10 * DigitValue(s[2]) + DigitValue(s[3])
    requires d.month == 10 * DigitValue(s[5]) + DigitValue(s[6]) && d.day == 10 * DigitValue(s[8]) + DigitValue(s[9])
    requires hour == 10 * DigitValue(s[11]) + DigitValue(s[12]) && minute == 10 * DigitValue(s[14]) + DigitValue(s[15])
    requires second == 10 * DigitValue(s[17]) + DigitValue(s[18])
    requires millis == 100 * DigitValue(s[20]) + 10 * DigitValue(s[21]) + DigitValue(s[22])
    ensures ReadStamp(s) == Some(Stamp(d, hour, minute, second, millis, Zulu))
  {
    hide Numeral, ReadStamp, DigitValue;
    FieldsOf(s);
    ReadCanonical(s);
  }

  lemma EpochShape()
    ensures Canonical("1970-01-01T00:00:00.000Z")
  {
    var s := "1970-01-01T00:00:00.000Z";
    assert s[0..4] == "1970" && s[5..7] == "01" && s[8..10] == "01" && s[11..13] == "00" && s[14..16] == "00";
    assert s[17..19] == "00" && s[20..23] == "000";
  }

  lemma EpochFields()
    ensures ReadStamp("1970-01-01T00:00:00.000Z") == Some(Stamp(Date(1970, 1, 1), 0, 0, 0, 0, Zulu))
    ensures Canonical("1970-01-01T00:00:00.000Z")
  {
    EpochShape();
    hide ReadStamp, Canonical;
    KnownFields("1970-01-01T00:00:00.000Z", Date(1970, 1, 1), 0, 0, 0, 0);
  }

  lemma EpochDay()
    ensures Ordinal(Date(1970, 1, 1)) - EPOCH_ORDINAL == 0
    ensures RealMoment(Stamp(Date(1970, 1, 1), 0, 0, 0, 0, Zulu))
  {
    MonthStarts(1970);
  }

  /** The epoch. */
  lemma Epoch()
    ensures Decode(0) == Success("1970-01-01T00:00:00.000Z")
    ensures Encode("1970-01-01T00:00:00.000Z") == Success(0)
  {
    hide *;
    EpochFields();
    EpochDay();
    Known("1970-01-01T00:00:00.000Z", Stamp(Date(1970, 1, 1), 0, 0, 0, 0, Zulu), 0);
  }

  lemma LeapDayShape()
    ensures Canonical("2000-02-29T12:34:56.789Z")
  {
    var s := "2000-02-29T12:34:56.789Z";
    assert s[0..4] == "2000" && s[5..7] == "02" && s[8..10] == "29" && s[11..13] == "12" && s[14..16] == "34";
    assert s[17..19] == "56" && s[20..23] == "789";
  }

  lemma LeapDayFields()
    ensures ReadStamp("2000-02-29T12:34:56.789Z") == Some(Stamp(Date(2000, 2, 29), 12, 34, 56, 789, Zulu))
    ensures Canonical("2000-02-29T12:34:56.789Z")
  {
    LeapDayShape();
    hide ReadStamp, Canonical;
    KnownFields("2000-02-29T12:34:56.789Z", Date(2000, 2, 29), 12, 34, 56, 789);
  }

  lemma LeapDayDay()
    ensures Ordinal(Date(2000, 2, 29)) - EPOCH_ORDINAL == 11016
    ensures RealMoment(Stamp(Date(2000, 2, 29), 12, 34, 56, 789, Zulu))
  {
    MonthStarts(2000);
  }

  /** A leap day of a century. */
  lemma LeapDay()
    ensures Decode(951827696789) == Success("2000-02-29T12:34:56.789Z")
    ensures Encode("2000-02-29T12:34:56.789Z") == Success(951827696789)
  {
    hide *;
    LeapDayFields();
    LeapDayDay();
    Known("2000-02-29T12:34:56.789Z", Stamp(Date(2000, 2, 29), 12, 34, 56, 789, Zulu), 11016);
  }

  lemma BeforeEpochShape()
    ensures Canonical("1969-12-31T23:59:59.999Z")
  {
    var s := "1969-12-31T23:59:59.999Z";
    assert s[0..4] == "1969" && s[5..7] == "12" && s[8..10] == "31" && s[11..13] == "23" && s[14..16] == "59";
    assert s[17..19] == "59" && s[20..23] == "999";
  }

  lemma BeforeEpochFields()
    ensures ReadStamp("1969-12-31T23:59:59.999Z") == Some(Stamp(Date(1969, 12, 31), 23, 59, 59, 999, Zulu))
    ensures Canonical("1969-12-31T23:59:59.999Z")
  {
    BeforeEpochShape();
    hide ReadStamp, Canonical;
    KnownFields("1969-12-31T23:59:59.999Z", Date(1969, 12, 31), 23, 59, 59, 999);
  }

  lemma BeforeEpochDay()
    ensures Ordinal(Date(1969, 12, 31)) - EPOCH_ORDINAL == -1
    ensures RealMoment(Stamp(Date(1969, 12, 31), 23, 59, 59, 999, Zulu))
  {
    MonthStarts(1969);
  }

  /** The millisecond before the epoch. */
  lemma BeforeEpoch()
    ensures Decode(-1) == Success("1969-12-31T23:59:59.999Z")
    ensures Encode("1969-12-31T23:59:59.999Z") == Success(-1)
  {
    hide *;
    BeforeEpochFields();
    BeforeEpochDay();
    Known("1969-12-31T23:59:59.999Z", Stamp(Date(1969, 12, 31), 23, 59, 59, 999, Zulu), -1);
  }
}
