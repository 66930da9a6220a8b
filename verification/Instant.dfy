/** The instant codec: zoned RFC 3339 text to UTC epoch milliseconds and back (`encode_instant`,
    `decode_instant` in `impl/lnpl/condition.py`). */
module Instant {
  import opened Wrappers
  import opened Text
  import opened Calendar
  import opened Conditions

  datatype InstantError = NotDateTime | NoZone | BadDate | BadField | OutOfInt64 | OutOfYears

  const EPOCH_ORDINAL := 719163
  const LAST_ORDINAL := 3652059
  const DAY_MS := 86400000

  datatype Zone = Zulu | Offset(east: bool, hours: nat, minutes: nat)

  datatype Stamp = Stamp(date: Date, hour: nat, minute: nat, second: nat, millis: nat, zone: Zone)

  // ---- Reading -------------------------------------------------------------------------

  predicate DigitsAt(s: string, i: nat, n: nat) {
    i + n <= |s| && AllDigits(s[i..i + n])
  }

  /** The date-time shape, zoned or not: what tells a missing zone from a non-date. */
  predicate LooksLikeInstant(s: string) {
    && |s| >= 19
    && DigitsAt(s, 0, 4) && s[4] == '-' && DigitsAt(s, 5, 2) && s[7] == '-' && DigitsAt(s, 8, 2)
    && (s[10] == 'T' || s[10] == 't' || s[10] == ' ')
    && DigitsAt(s, 11, 2) && s[13] == ':' && DigitsAt(s, 14, 2) && s[16] == ':' && DigitsAt(s, 17, 2)
  }

  /** Length of the optional fraction `(\.\d+)?` at the start of `s`. */
  function FractionLength(s: string): (k: nat)
    ensures k == 0 || (2 <= k <= |s| && s[0] == '.' && AllDigits(s[1..k]))
  {
    if s == [] || s[0] != '.' then 0
    else
      var k := RunLength(s[1..], c => !IsDigit(c));
      assert s[1..][..k] == s[1..k + 1];
      if k == 0 then 0 else k + 1
  }

  /** The fraction's milliseconds: padded on the right to three digits, then cut to three. */
  function MillisOf(fraction: string): nat
    requires AllDigits(fraction)
  {
    if |fraction| >= 3 then Numeral(fraction[..3])
    else if |fraction| == 2 then 10 * Numeral(fraction)
    else if |fraction| == 1 then 100 * Numeral(fraction)
    else 0
  }

  /** The zone designator, which must end the text but for one line feed. */
  function ZoneOf(s: string): Option<Zone> {
    var t := if s != [] && s[|s| - 1] == '\n' then s[..|s| - 1] else s;
    if t == "Z" || t == "z" then Some(Zulu)
    else if |t| == 6 && (t[0] == '+' || t[0] == '-') && DigitsAt(t, 1, 2) && t[3] == ':' && DigitsAt(t, 4, 2) then
      Some(Offset(t[0] == '+', Numeral(t[1..3]), Numeral(t[4..6])))
    else if |t| == 5 && (t[0] == '+' || t[0] == '-') && DigitsAt(t, 1, 2) && DigitsAt(t, 3, 2) then
      Some(Offset(t[0] == '+', Numeral(t[1..3]), Numeral(t[3..5])))
    else None
  }

  function ReadStamp(s: string): Option<Stamp> {
    if !LooksLikeInstant(s) then None
    else
      var k := FractionLength(s[19..]);
      var zone := ZoneOf(s[19 + k..]);
      if zone.None? then None
      else
        Some(Stamp(
          Date(Numeral(s[0..4]), Numeral(s[5..7]), Numeral(s[8..10])),
          Numeral(s[11..13]), Numeral(s[14..16]), Numeral(s[17..19]),
          if k == 0 then 0 else MillisOf(s[19..][1..k]),
          zone.value))
  }

  function ZoneMillis(z: Zone): int {
    match z
    case Zulu => 0
    case Offset(east, h, m) => if east then (h * 3600 + m * 60) * 1000 else -(h * 3600 + m * 60) * 1000
  }

  /** Day, hour, minute and second are judged only after the day number is computed, and the
      day only against 31, as the original does. */
  function Millis(t: Stamp): Result<int, InstantError> {
    if !(1 <= t.date.year <= 9999 && 1 <= t.date.month <= 12) then Failure(BadDate)
    else if !(1 <= t.date.day <= 31 && t.hour <= 23 && t.minute <= 59 && t.second <= 60) then Failure(BadField)
    else
      var days := Ordinal(t.date) - EPOCH_ORDINAL;
      var total := (days * 86400 + t.hour * 3600 + t.minute * 60 + t.second) * 1000 + t.millis - ZoneMillis(t.zone);
      if InInt64(total) then Success(total) else Failure(OutOfInt64)
  }

  function Encode(s: string): Result<int, InstantError> {
    match ReadStamp(s)
    case Some(t) => Millis(t)
    case None => if LooksLikeInstant(s) then Failure(NoZone) else Failure(NotDateTime)
  }

  // ---- Writing -------------------------------------------------------------------------

  function StampAt(d: Date, rem: nat): Stamp {
    Stamp(d, rem / 3600000, rem / 60000 % 60, rem / 1000 % 60, rem % 1000, Zulu)
  }

  /** The UTC fields of an instant. */
  function StampOf(ms: int): Stamp {
    StampAt(DateOf(ms / DAY_MS + EPOCH_ORDINAL), ms % DAY_MS)
  }

  // One fixed-width field and the character that follows it.
  datatype Piece = Piece(n: nat, width: nat, after: char)

  function Render(ps: seq<Piece>): string {
    if ps == [] then "" else Padded(ps[0].n, ps[0].width) + [ps[0].after] + Render(ps[1..])
  }

  function Natural(n: int): nat {
    if n < 0 then 0 else n
  }

  function Pieces(t: Stamp): seq<Piece> {
    [Piece(Natural(t.date.year), 4, '-'), Piece(Natural(t.date.month), 2, '-'), Piece(Natural(t.date.day), 2, 'T'),
     Piece(t.hour, 2, ':'), Piece(t.minute, 2, ':'), Piece(t.second, 2, '.'), Piece(t.millis, 3, 'Z')]
  }

  /** Years outside 0001-9999 have no date-time object to format. */
  function Decode(ms: int): Result<string, InstantError> {
    if InYears(ms) then Success(Render(Pieces(StampOf(ms)))) else Failure(OutOfYears)
  }

  predicate InYears(ms: int) {
    1 <= ms / DAY_MS + EPOCH_ORDINAL <= LAST_ORDINAL
  }

  // ---- Fields of an instant ------------------------------------------------------------

  /** A stamp that names a real UTC moment of years 0001-9999. */
  predicate RealMoment(t: Stamp) {
    && ValidDate(t.date) && t.date.year <= 9999
    && t.hour <= 23 && t.minute <= 59 && t.second <= 59 && t.millis <= 999
    && t.zone == Zulu
  }

  lemma OrdinalRange(d: Date)
    requires ValidDate(d)
    ensures Ordinal(d) <= LAST_ORDINAL <==> d.year <= 9999
  {
    assert DaysBeforeYear(10000) == LAST_ORDINAL;
    WithinYear(d);
    if d.year < 10000 {
      YearsAscend(d.year, 10000);
    } else if d.year > 10000 {
      YearsAscend(10000, d.year);
    }
  }

  lemma TimeOfDay(h: int, m: int, s: int, ms: int)
    requires 0 <= h <= 23 && 0 <= m <= 59 && 0 <= s <= 59 && 0 <= ms <= 999
    ensures var rem := (h * 3600 + m * 60 + s) * 1000 + ms;
            && 0 <= rem < DAY_MS
            && rem / 3600000 == h && rem / 60000 % 60 == m && rem / 1000 % 60 == s && rem % 1000 == ms
  {
    var rem := (h * 3600 + m * 60 + s) * 1000 + ms;
    assert rem / 1000 == h * 3600 + m * 60 + s;
    assert rem / 60000 == h * 60 + m;
  }

  lemma TimeOfDayInverse(rem: int)
    requires 0 <= rem < DAY_MS
    ensures rem / 3600000 <= 23
    ensures (rem / 3600000 * 3600 + rem / 60000 % 60 * 60 + rem / 1000 % 60) * 1000 + rem % 1000 == rem
  {
    assert rem / 60000 == rem / 3600000 * 60 + rem / 60000 % 60 by { assert rem / 3600000 == rem / 60000 / 60; }
    assert rem / 1000 == rem / 60000 * 60 + rem / 1000 % 60 by { assert rem / 60000 == rem / 1000 / 60; }
  }

  function TimeMillis(t: Stamp): int {
    (t.hour * 3600 + t.minute * 60 + t.second) * 1000 + t.millis
  }

  lemma MillisSum(days: int, seconds: int, millis: int)
    ensures (days * 86400 + seconds) * 1000 + millis == days * DAY_MS + (seconds * 1000 + millis)
  {
  }

  lemma TimeOfMoment(t: Stamp)
    requires RealMoment(t)
    ensures 0 <= TimeMillis(t) < DAY_MS && StampAt(t.date, TimeMillis(t)) == t
  {
    TimeOfDay(t.hour, t.minute, t.second, t.millis);
  }

  lemma DayOfMoment(t: Stamp)
    requires RealMoment(t)
    ensures 1 <= Ordinal(t.date) <= LAST_ORDINAL
  {
    OrdinalRange(t.date);
    OrdinalInverse(t.date);
  }

  lemma MillisOfMoment(t: Stamp)
    requires RealMoment(t)
    ensures Millis(t) == Success((Ordinal(t.date) - EPOCH_ORDINAL) * DAY_MS + TimeMillis(t))
  {
    DayOfMoment(t);
    hide Ordinal, DaysInMonth;
    MillisSum(Ordinal(t.date) - EPOCH_ORDINAL, t.hour * 3600 + t.minute * 60 + t.second, t.millis);
  }

  lemma StampAtDate(d: Date, rem: nat)
    ensures StampAt(d, rem).date == d
  {
  }

  lemma StampAtIsMoment(d: Date, rem: nat)
    requires ValidDate(d) && d.year <= 9999 && rem < DAY_MS
    ensures RealMoment(StampAt(d, rem)) && TimeMillis(StampAt(d, rem)) == rem
  {
    TimeOfDayInverse(rem);
  }

  lemma DayAndTime(days: int, rem: int)
    requires 0 <= rem < DAY_MS
    ensures (days * DAY_MS + rem) / DAY_MS == days && (days * DAY_MS + rem) % DAY_MS == rem
  {
  }

  /** Reading the fields of an instant back gives the instant. */
  lemma StampOfInverse(ms: int)
    requires InYears(ms)
    ensures RealMoment(StampOf(ms)) && Millis(StampOf(ms)) == Success(ms)
  {
    hide Ordinal, DateOf, ValidDate, StampAt, Millis, TimeMillis, RealMoment;
    var n := ms / DAY_MS + EPOCH_ORDINAL;
    DateOfInverse(n);
    var d := DateOf(n);
    OrdinalRange(d);
    StampAtIsMoment(d, ms % DAY_MS);
    MillisOfMoment(StampAt(d, ms % DAY_MS));
    assert StampAt(d, ms % DAY_MS).date == d by { StampAtDate(d, ms % DAY_MS); }
  }

  /** An offset is how far local time is ahead of UTC: the local time of an instant at any offset
      encodes to that instant. */
  lemma LocalTimeNamesTheInstant(ms: int, east: bool, hours: nat, minutes: nat)
    requires InInt64(ms)
    requires var ahead := (hours * 60 + minutes) * 60000; InYears(if east then ms + ahead else ms - ahead)
    ensures var ahead := (hours * 60 + minutes) * 60000;
            Millis(StampOf(if east then ms + ahead else ms - ahead).(zone := Offset(east, hours, minutes)))
                == Success(ms)
  {
    var ahead := (hours * 60 + minutes) * 60000;
    var local := if east then ms + ahead else ms - ahead;
    hide Ordinal, StampOf, InYears, Millis, RealMoment;
    StampOfInverse(local);
    MomentIsZulu(StampOf(local));
    ZoneShifts(StampOf(local), Offset(east, hours, minutes), local);
  }

  lemma MomentIsZulu(t: Stamp)
    requires RealMoment(t)
    ensures t.zone == Zulu
  {
  }

  lemma ZoneShifts(t: Stamp, z: Zone, total: int)
    requires t.zone == Zulu && Millis(t) == Success(total) && InInt64(total - ZoneMillis(z))
    ensures Millis(t.(zone := z)) == Success(total - ZoneMillis(z))
  {
    hide Ordinal;
  }

  lemma MillisInverse(t: Stamp)
    requires RealMoment(t)
    ensures Millis(t).Success? && InYears(Millis(t).value) && StampOf(Millis(t).value) == t
  {
    hide Ordinal, DateOf, DaysInMonth, StampAt, StampOf, Millis, TimeMillis, InYears;
    MillisOfMoment(t);
    OrdinalInverse(t.date);
    DayOfMoment(t);
    TimeOfMoment(t);
    StampOfParts(Ordinal(t.date) - EPOCH_ORDINAL, TimeMillis(t));
  }

  lemma StampOfParts(days: int, rem: nat)
    requires rem < DAY_MS
    ensures StampOf(days * DAY_MS + rem) == StampAt(DateOf(days + EPOCH_ORDINAL), rem)
    ensures InYears(days * DAY_MS + rem) <==> 1 <= days + EPOCH_ORDINAL <= LAST_ORDINAL
  {
    DayAndTime(days, rem);
  }

  // ---- Reading what was written --------------------------------------------------------

  lemma RenderShape(t: Stamp)
    requires RealMoment(t)
    ensures var s := Render(Pieces(t));
      && |s| == 24
      && s[0..4] == Padded(t.date.year, 4) && s[4] == '-' && s[5..7] == Padded(t.date.month, 2) && s[7] == '-'
      && s[8..10] == Padded(t.date.day, 2) && s[10] == 'T' && s[11..13] == Padded(t.hour, 2) && s[13] == ':'
      && s[14..16] == Padded(t.minute, 2) && s[16] == ':' && s[17..19] == Padded(t.second, 2) && s[19] == '.'
      && s[20..23] == Padded(t.millis, 3) && s[23] == 'Z'
  {
    hide Render, Padded;
    SevenFields(Pieces(t));
  }

  lemma SevenFields(ps: seq<Piece>)
    requires |ps| == 7 && ps[0].width == 4 && ps[6].width == 3 && forall k :: 0 < k < 6 ==> ps[k].width == 2
    ensures var s := Render(ps);
      && |s| == 24
      && s[0..4] == Padded(ps[0].n, 4) && s[4] == ps[0].after && s[5..7] == Padded(ps[1].n, 2) && s[7] == ps[1].after
      && s[8..10] == Padded(ps[2].n, 2) && s[10] == ps[2].after && s[11..13] == Padded(ps[3].n, 2)
          && s[13] == ps[3].after
      && s[14..16] == Padded(ps[4].n, 2) && s[16] == ps[4].after && s[17..19] == Padded(ps[5].n, 2)
          && s[19] == ps[5].after
      && s[20..23] == Padded(ps[6].n, 3) && s[23] == ps[6].after
  {
    hide Render, Padded;
    var s := Render(ps);
    Suffixes(ps);
    PieceShape(ps);
    TwoWide(s, ps, 1, 5);
    TwoWide(s, ps, 2, 8);
    TwoWide(s, ps, 3, 11);
    TwoWide(s, ps, 4, 14);
    TwoWide(s, ps, 5, 17);
    PieceShape(ps[6..]);
    assert s[20..23] == s[20..][..3] && s[23] == s[20..][3];
  }

  lemma TwoWide(s: string, ps: seq<Piece>, k: nat, at: nat)
    requires k < |ps| && at <= |s| && s[at..] == Render(ps[k..]) && ps[k].width == 2
    ensures at + 3 <= |s| && s[at..at + 2] == Padded(ps[k].n, 2) && s[at + 2] == ps[k].after
  {
    PieceShape(ps[k..]);
    assert s[at..at + 2] == s[at..][..2] && s[at + 2] == s[at..][2];
  }

  /** The rest of the text from each field on. */
  lemma Suffixes(ps: seq<Piece>)
    requires |ps| == 7 && ps[0].width == 4 && ps[6].width == 3 && forall k :: 0 < k < 6 ==> ps[k].width == 2
    ensures var s := Render(ps);
      && |s| == 24 && s[5..] == Render(ps[1..]) && s[8..] == Render(ps[2..]) && s[11..] == Render(ps[3..])
      && s[14..] == Render(ps[4..]) && s[17..] == Render(ps[5..]) && s[20..] == Render(ps[6..])
  {
    hide Render, Padded;
    var s := Render(ps);
    PieceShape(ps);
    NextSuffix(s, ps, 1, 5);
    NextSuffix(s, ps, 2, 8);
    NextSuffix(s, ps, 3, 11);
    NextSuffix(s, ps, 4, 14);
    NextSuffix(s, ps, 5, 17);
    PieceShape(ps[6..]);
    NoPieces();
    assert ps[6..][1..] == [];
  }

  lemma NextSuffix(s: string, ps: seq<Piece>, k: nat, at: nat)
    requires k < |ps| && at <= |s| && s[at..] == Render(ps[k..]) && ps[k].width == 2
    ensures |s[at..]| == 3 + |Render(ps[k + 1..])| && s[at + 3..] == Render(ps[k + 1..])
  {
    PieceShape(ps[k..]);
    assert ps[k..][1..] == ps[k + 1..] && s[at + 3..] == s[at..][3..];
  }

  lemma NoPieces()
    ensures Render([]) == ""
  {
  }

  lemma PieceShape(ps: seq<Piece>)
    requires ps != []
    ensures var s, w := Render(ps), ps[0].width;
            |s| == w + 1 + |Render(ps[1..])| && s[..w] == Padded(ps[0].n, w) && s[w] == ps[0].after
                && s[w + 1..] == Render(ps[1..])
  {
  }

  /** The shape `Decode` writes. */
  predicate Canonical(s: string) {
    && |s| == 24 && LooksLikeInstant(s) && s[10] == 'T'
    && s[19] == '.' && DigitsAt(s, 20, 3) && s[23] == 'Z'
  }

  lemma ReadCanonical(s: string)
    requires Canonical(s)
    ensures ReadStamp(s) == Some(Stamp(
      Date(Numeral(s[0..4]), Numeral(s[5..7]), Numeral(s[8..10])),
      Numeral(s[11..13]), Numeral(s[14..16]), Numeral(s[17..19]), Numeral(s[20..23]), Zulu))
  {
    var tail := s[19..];
    assert tail[1..4] == s[20..23] && tail[4..] == "Z";
    assert tail[1..] == tail[1..4] + tail[4..];
    RunLengthOf(tail[1..4], tail[4..], c => !IsDigit(c));
    assert FractionLength(tail) == 4;
    assert tail[1..4][..3] == tail[1..4];
    assert s[19 + 4..] == "Z";
  }

  lemma TwoDigits(n: nat)
    requires n < 100
    ensures Numeral(Padded(n, 2)) == n
  {
    assert Pow10(1) == 10 && Pow10(2) == 100;
    NumeralOfPadded(n, 2);
  }

  lemma ReadRendered(t: Stamp)
    requires RealMoment(t)
    ensures Canonical(Render(Pieces(t))) && ReadStamp(Render(Pieces(t))) == Some(t)
  {
    RenderShape(t);
    ReadCanonical(Render(Pieces(t)));
    TwoDigits(t.date.month);
    TwoDigits(t.date.day);
    TwoDigits(t.hour);
    TwoDigits(t.minute);
    TwoDigits(t.second);
    assert Pow10(3) == 1000 && Pow10(4) == 10000;
    NumeralOfPadded(t.date.year, 4);
    NumeralOfPadded(t.millis, 3);
  }

  // ---- Main results --------------------------------------------------------------------

  /** RFC 3339, sections 5.1 and 5.6: encoding what was decoded gives the same instant, for
      every millisecond of years 0001-9999; outside them there is nothing to decode. */
  lemma EncodeDecode(ms: int)
    ensures Decode(ms).Success? <==> InYears(ms)
    ensures Decode(ms).Success? ==> Encode(Decode(ms).value) == Success(ms)
  {
    if InYears(ms) {
      StampOfInverse(ms);
      ReadRendered(StampOf(ms));
    }
  }

  /** Text in the shape `Decode` writes is a fixed point exactly when its day exists in its
      month and it is no leap second; any other accepted text names the same instant as some
      different text. */
  lemma CanonicalFixedPoint(s: string)
    requires Canonical(s) && Encode(s).Success?
    ensures Decode(Encode(s).value) == Success(s)
       <==> (var t := ReadStamp(s).value;
             t.date.day <= DaysInMonth(t.date.year, t.date.month) && t.second <= 59)
  {
    ReadCanonical(s);
    var t := ReadStamp(s).value;
    MillisDigits(s);
    if RealMoment(t) {
      MillisInverse(t);
      RenderShape(t);
      assert Render(Pieces(t)) == s by { SamePieces(s, t); }
    } else if Decode(Encode(s).value) == Success(s) {
      StampOfInverse(Encode(s).value);
      ReadRendered(StampOf(Encode(s).value));
      assert false;
    }
  }

  // 2021-02-30T00:00:00.000Z
  const FEBRUARY_30 := Render(Pieces(Stamp(Date(2021, 2, 30), 0, 0, 0, 0, Zulu)))

  lemma NumeralOfField(n: nat, width: nat)
    requires n < Pow10(width)
    ensures Numeral(Padded(n, width)) == n && AllDigits(Padded(n, width))
  {
    NumeralOfPadded(n, width);
  }

  lemma February30Fields()
    ensures Canonical(FEBRUARY_30)
    ensures Numeral(FEBRUARY_30[0..4]) == 2021 && Numeral(FEBRUARY_30[5..7]) == 2 && Numeral(FEBRUARY_30[8..10]) == 30
    ensures Numeral(FEBRUARY_30[11..13]) == Numeral(FEBRUARY_30[14..16]) == Numeral(FEBRUARY_30[17..19]) == 0
  {
    assert Pow10(2) == 100 && Pow10(3) == 1000 && Pow10(4) == 10000;
    hide Render, Padded, Numeral, Pow10;
    var ps := Pieces(Stamp(Date(2021, 2, 30), 0, 0, 0, 0, Zulu));
    SevenFields(ps);
    NumeralOfField(2021, 4);
    NumeralOfField(2, 2);
    NumeralOfField(30, 2);
    NumeralOfField(0, 2);
    NumeralOfField(0, 3);
  }

  /** The 30th of February is read, as a day that is written otherwise. */
  lemma February30IsNoFixedPoint()
    ensures Encode(FEBRUARY_30).Success? && Decode(Encode(FEBRUARY_30).value) != Success(FEBRUARY_30)
  {
    hide Canonical, Numeral, Decode, DateOf, LooksLikeInstant, Render;
    February30Fields();
    ReadCanonical(FEBRUARY_30);
    MillisDigits(FEBRUARY_30);
    assert Encode(FEBRUARY_30).Success?;
    CanonicalFixedPoint(FEBRUARY_30);
  }

  lemma MillisDigits(s: string)
    requires Canonical(s)
    ensures Numeral(s[20..23]) <= 999
  {
    assert Pow10(3) == 1000;
    PaddedOfNumeral(s[20..23]);
  }

  lemma SamePieces(s: string, t: Stamp)
    requires Canonical(s) && ReadStamp(s) == Some(t) && RealMoment(t)
    ensures Render(Pieces(t)) == s
  {
    ReadCanonical(s);
    RenderShape(t);
    var r := Render(Pieces(t));
    PaddedOfNumeral(s[0..4]);
    PaddedOfNumeral(s[5..7]);
    PaddedOfNumeral(s[8..10]);
    PaddedOfNumeral(s[11..13]);
    PaddedOfNumeral(s[14..16]);
    PaddedOfNumeral(s[17..19]);
    PaddedOfNumeral(s[20..23]);
    Blocks(r);
    Blocks(s);
  }

  lemma Blocks(s: string)
    requires |s| == 24
    ensures s == s[0..4] + [s[4]] + s[5..7] + [s[7]] + s[8..10] + [s[10]] + s[11..13] + [s[13]]
               + s[14..16] + [s[16]] + s[17..19] + [s[19]] + s[20..23] + [s[23]]
  {
  }

  // ---- Order ---------------------------------------------------------------------------

  lemma {:induction false} BeforeAppend(a: string, b: string, x: string, y: string)
    requires |a| == |b| && Before(a, b)
    ensures Before(a + x, b + y)
  {
    assert (a + x)[1..] == a[1..] + x && (b + y)[1..] == b[1..] + y;
    if a[0] == b[0] {
      BeforeAppend(a[1..], b[1..], x, y);
    }
  }

  lemma {:induction false} BeforePrefix(a: string, x: string, y: string)
    requires Before(x, y)
    ensures Before(a + x, a + y)
  {
    if a == [] {
      assert a + x == x && a + y == y;
    } else {
      assert (a + x)[1..] == a[1..] + x && (a + y)[1..] == a[1..] + y;
      BeforePrefix(a[1..], x, y);
    }
  }

  lemma {:induction false} PaddedBefore(m: nat, n: nat, width: nat)
    requires m < n < Pow10(width)
    ensures Before(Padded(m, width), Padded(n, width))
  {
    if m / 10 < n / 10 {
      PaddedBefore(m / 10, n / 10, width - 1);
      BeforeAppend(Padded(m / 10, width - 1), Padded(n / 10, width - 1), [DigitChar(m % 10)], [DigitChar(n % 10)]);
    } else {
      BeforePrefix(Padded(m / 10, width - 1), [DigitChar(m % 10)], [DigitChar(n % 10)]);
    }
  }

  predicate PiecesBefore(ps: seq<Piece>, qs: seq<Piece>)
    requires |ps| == |qs|
  {
    ps != [] && (ps[0].n < qs[0].n || (ps[0].n == qs[0].n && PiecesBefore(ps[1..], qs[1..])))
  }

  lemma {:induction false} RenderBefore(ps: seq<Piece>, qs: seq<Piece>)
    requires |ps| == |qs| && PiecesBefore(ps, qs)
    requires forall i :: 0 <= i < |ps| ==> ps[i].width == qs[i].width && ps[i].after == qs[i].after
    requires forall i :: 0 <= i < |ps| ==> qs[i].n < Pow10(qs[i].width)
    ensures Before(Render(ps), Render(qs))
  {
    var p, q := Padded(ps[0].n, ps[0].width), Padded(qs[0].n, qs[0].width);
    var x, y := [ps[0].after] + Render(ps[1..]), [qs[0].after] + Render(qs[1..]);
    assert Render(ps) == p + x && Render(qs) == q + y;
    if ps[0].n < qs[0].n {
      PaddedBefore(ps[0].n, qs[0].n, ps[0].width);
      BeforeAppend(p, q, x, y);
    } else {
      RenderBefore(ps[1..], qs[1..]);
      BeforePrefix([ps[0].after], Render(ps[1..]), Render(qs[1..]));
      BeforePrefix(p, x, y);
    }
  }

  lemma ClockAscends(a: Stamp, b: Stamp)
    requires RealMoment(a) && RealMoment(b) && TimeMillis(a) < TimeMillis(b)
    ensures || a.hour < b.hour
            || (a.hour == b.hour && (|| a.minute < b.minute
                                     || (a.minute == b.minute && (|| a.second < b.second
                                                                  || (a.second == b.second && a.millis < b.millis)))))
  {
  }

  lemma TimeAscends(a: Stamp, b: Stamp)
    requires RealMoment(a) && RealMoment(b) && Millis(a).Success? && Millis(b).Success?
    requires Millis(a).value < Millis(b).value
    ensures Earlier(a.date, b.date) || (a.date == b.date && TimeMillis(a) < TimeMillis(b))
  {
    MillisOfMoment(a);
    MillisOfMoment(b);
    if Earlier(b.date, a.date) {
      OrdinalAscends(b.date, a.date);
    }
  }

  lemma DatePiecesBefore(a: Stamp, b: Stamp)
    requires RealMoment(a) && RealMoment(b) && Earlier(a.date, b.date)
    ensures PiecesBefore(Pieces(a), Pieces(b))
  {
    var ps, qs := Pieces(a), Pieces(b);
    assert PiecesBefore(ps[2..], qs[2..]) || a.date.day >= b.date.day;
    assert ps[1..][1..] == ps[2..] && qs[1..][1..] == qs[2..];
    assert PiecesBefore(ps[1..], qs[1..]) || a.date.year < b.date.year;
  }

  lemma ClockPiecesBefore(a: Stamp, b: Stamp)
    requires RealMoment(a) && RealMoment(b) && a.date == b.date && TimeMillis(a) < TimeMillis(b)
    ensures PiecesBefore(Pieces(a), Pieces(b))
  {
    var ps, qs := Pieces(a), Pieces(b);
    ClockAscends(a, b);
    assert ps[6..][1..] == [] && qs[6..][1..] == [];
    assert PiecesBefore(ps[6..], qs[6..]) <==> a.millis < b.millis;
    assert ps[5..][1..] == ps[6..] && qs[5..][1..] == qs[6..];
    assert PiecesBefore(ps[5..], qs[5..]) || !(a.second < b.second || (a.second == b.second && a.millis < b.millis));
    assert ps[4..][1..] == ps[5..] && qs[4..][1..] == qs[5..];
    assert PiecesBefore(ps[4..], qs[4..]) || a.hour < b.hour;
    assert ps[3..][1..] == ps[4..] && qs[3..][1..] == qs[4..];
    assert ps[2..][1..] == ps[3..] && qs[2..][1..] == qs[3..];
    assert ps[1..][1..] == ps[2..] && qs[1..][1..] == qs[2..];
    assert PiecesBefore(ps[3..], qs[3..]);
    assert PiecesBefore(ps[2..], qs[2..]);
    assert PiecesBefore(ps[1..], qs[1..]);
  }

  lemma StampsBefore(a: Stamp, b: Stamp)
    requires RealMoment(a) && RealMoment(b) && Millis(a).Success? && Millis(b).Success?
    requires Millis(a).value < Millis(b).value
    ensures Before(Render(Pieces(a)), Render(Pieces(b)))
  {
    TimeAscends(a, b);
    if Earlier(a.date, b.date) {
      DatePiecesBefore(a, b);
    } else {
      ClockPiecesBefore(a, b);
    }
    assert Pow10(1) == 10 && Pow10(2) == 100 && Pow10(3) == 1000 && Pow10(4) == 10000;
    RenderBefore(Pieces(a), Pieces(b));
  }

  /** Decoded instants sort as text the way they sort as numbers. */
  lemma DecodeAscends(ms: int, later: int)
    requires InYears(ms) && InYears(later) && ms < later
    ensures Before(Decode(ms).value, Decode(later).value)
  {
    StampOfInverse(ms);
    StampOfInverse(later);
    StampsBefore(StampOf(ms), StampOf(later));
  }
}
