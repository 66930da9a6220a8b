/** YAML and Compose quoting (`yaml_quote`, `compose_quote` in `impl/lnpl/deploy_gen.py`) against a
    reader of YAML 1.2.2 double-quoted scalars (sections 5.7 and 7.3.1) and of Compose interpolation. */
module Quoting {
  import opened Wrappers
  import opened Text

  /** A string as its code points. */
  type Points = seq<nat>

  predicate Valid(value: Points) {
    forall k :: 0 <= k < |value| ==> value[k] <= 0x10FFFF
  }

  // ---- Writing -------------------------------------------------------------------------

  function HexDigit(d: nat): (c: char)
    requires d < 16
  {
    if d < 10 then DigitChar(d) else ('a' as int + (d - 10)) as char
  }

  /** `"%0<width>x" % n`, of a number that fits the width. */
  function Hex(n: nat, width: nat): (s: string)
    ensures |s| == width
  {
    if width == 0 then [] else Hex(n / 16, width - 1) + [HexDigit(n % 16)]
  }

  predicate Printable(code: nat) {
    0x20 <= code <= 0x7e
  }

  function Escaped(code: nat): string {
    if code == '"' as int then "\\\""
    else if code == '\\' as int then "\\\\"
    else if code == '\n' as int then "\\n"
    else if code == '\t' as int then "\\t"
    else if Printable(code) then [code as char]
    else if code <= 0xff then "\\x" + Hex(code, 2)
    else if code <= 0xffff then "\\u" + Hex(code, 4)
    else "\\U" + Hex(code, 8)
  }

  function EscapedAll(value: Points): string {
    if value == [] then [] else Escaped(value[0]) + EscapedAll(value[1..])
  }

  function Quoted(value: Points): string {
    "\"" + EscapedAll(value) + "\""
  }

  method YamlQuote(value: Points) returns (out: string)
    requires Valid(value)
    ensures out == Quoted(value)
  {
    hide Hex;
    out := "\"";
    assert value[0..] == value && EscapedAll([]) == [];
    for k := 0 to |value|
      invariant out + EscapedAll(value[k..]) == "\"" + EscapedAll(value)
    {
      assert value[k..][1..] == value[k + 1..];
      Assoc(out, Escaped(value[k]), EscapedAll(value[k + 1..]));
      var code := value[k];
      if code == '"' as int {
        out := out + "\\\"";
      } else if code == '\\' as int {
        out := out + "\\\\";
      } else if code == '\n' as int {
        out := out + "\\n";
      } else if code == '\t' as int {
        out := out + "\\t";
      } else if 0x20 <= code <= 0x7e {
        out := out + [code as char];
      } else if code <= 0xff {
        out := out + ("\\x" + Hex(code, 2));
      } else if code <= 0xffff {
        out := out + ("\\u" + Hex(code, 4));
      } else {
        out := out + ("\\U" + Hex(code, 8));
      }
    }
    assert value[|value|..] == [] && out + [] == out;
    out := out + "\"";
  }

  /** Printable ASCII stays as it is but for the quote and the backslash, the line feed and the tab have
      escapes of their own, and every other code point is escaped by its number in two, four or eight
      lower-case hexadecimal digits. */
  lemma EscapesAre(code: nat)
    requires code <= 0x10FFFF
    ensures 0x20 <= code <= 0x7e && code != 0x22 && code != 0x5c ==> Escaped(code) == [code as char]
    ensures Escaped(0x22) == "\\\"" && Escaped(0x5c) == "\\\\" && Escaped(0x0a) == "\\n" && Escaped(0x09) == "\\t"
    ensures !(0x20 <= code <= 0x7e) && code != 0x0a && code != 0x09 ==>
              var width := if code <= 0xff then 2 else if code <= 0xffff then 4 else 8;
              && |Escaped(code)| == 2 + width && Escaped(code)[0] == '\\'
              && Escaped(code)[1] == (if width == 2 then 'x' else if width == 4 then 'u' else 'U')
              && forall k :: 2 <= k < 2 + width ==> Escaped(code)[k] in "0123456789abcdef"
  {
    assert '"' as int == 0x22 && '\\' as int == 0x5c && '\n' as int == 0x0a && '\t' as int == 0x09;
    HexDigits(code, 2);
    HexDigits(code, 4);
    HexDigits(code, 8);
    hide Hex;
  }

  lemma {:induction false} HexDigits(n: nat, width: nat)
    ensures forall k :: 0 <= k < width ==> Hex(n, width)[k] in "0123456789abcdef"
  {
    if width > 0 {
      HexDigits(n / 16, width - 1);
      OneHexDigit(n % 16);
      hide HexDigit;
    }
  }

  lemma OneHexDigit(d: nat)
    requires d < 16
    ensures HexDigit(d) in "0123456789abcdef"
  {
    assert HexDigit(d) == "0123456789abcdef"[d];
  }

  /** `value.replace("$", "$$")`. */
  function Doubled(value: Points): Points {
    if value == [] then []
    else (if value[0] == '$' as int then [value[0], value[0]] else [value[0]]) + Doubled(value[1..])
  }

  function ComposeQuote(value: Points): string {
    Quoted(Doubled(value))
  }

  // ---- Reading -------------------------------------------------------------------------

  function HexValue(c: char): Option<nat> {
    if IsDigit(c) then Some(DigitValue(c))
    else if 'a' <= c <= 'f' then Some(c as int - 'a' as int + 10)
    else if 'A' <= c <= 'F' then Some(c as int - 'A' as int + 10)
    else None
  }

  function HexNumeral(s: string): Option<nat> {
    if s == [] then Some(0)
    else
      var init, last := HexNumeral(s[..|s| - 1]), HexValue(s[|s| - 1]);
      if init.Some? && last.Some? then Some(16 * init.value + last.value) else None
  }

  /** The escapes of one character. */
  function SingleEscape(c: char): Option<nat> {
    if c == '0' then Some(0)
    else if c == 'a' then Some(7)
    else if c == 'b' then Some(8)
    else if c == 't' || c == '\t' then Some(9)
    else if c == 'n' then Some(10)
    else if c == 'v' then Some(11)
    else if c == 'f' then Some(12)
    else if c == 'r' then Some(13)
    else if c == 'e' then Some(27)
    else if c == ' ' || c == '"' || c == '/' || c == '\\' then Some(c as int)
    else if c == 'N' then Some(0x85)
    else if c == '_' then Some(0xa0)
    else if c == 'L' then Some(0x2028)
    else if c == 'P' then Some(0x2029)
    else None
  }

  function EscapeWidth(c: char): nat {
    if c == 'x' then 2 else if c == 'u' then 4 else if c == 'U' then 8 else 0
  }

  /** The content of a scalar up to its closing quote, which must end the text. */
  function ReadContent(s: string): Option<Points>
    decreases |s|
  {
    if s == [] then None
    else if s[0] == '"' then (if |s| == 1 then Some([]) else None)
    else if s[0] != '\\' then
      var rest := ReadContent(s[1..]);
      if rest.Some? then Some([s[0] as int] + rest.value) else None
    else if |s| < 2 then None
    else
      var width := EscapeWidth(s[1]);
      if width == 0 then
        var code, rest := SingleEscape(s[1]), ReadContent(s[2..]);
        if code.Some? && rest.Some? then Some([code.value] + rest.value) else None
      else if |s| < 2 + width then None
      else
        var code, rest := HexNumeral(s[2..2 + width]), ReadContent(s[2 + width..]);
        if code.Some? && rest.Some? then Some([code.value] + rest.value) else None
  }

  function ReadScalar(s: string): Option<Points> {
    if s == [] || s[0] != '"' then None else ReadContent(s[1..])
  }

  predicate NameStart(code: nat) {
    'a' as int <= code <= 'z' as int || 'A' as int <= code <= 'Z' as int || code == '_' as int
  }

  predicate NameChar(code: nat) {
    NameStart(code) || '0' as int <= code <= '9' as int
  }

  function NameLength(s: Points): (k: nat)
    ensures k <= |s|
  {
    if s == [] || !NameChar(s[0]) then 0 else 1 + NameLength(s[1..])
  }

  function BraceAt(s: Points): (k: nat)
    ensures k <= |s|
  {
    if s == [] || s[0] == '}' as int then 0 else 1 + BraceAt(s[1..])
  }

  // An interpolated value and the variables it substituted, or a malformed `$`.
  datatype Interpolated = Interpolated(value: Points, used: seq<Points>) | Malformed

  function Prefixed(head: Points, used: seq<Points>, rest: Interpolated): Interpolated {
    if rest.Malformed? then Malformed else Interpolated(head + rest.value, used + rest.used)
  }

  /** `$$` is a dollar; `$NAME` and `${...}` are substituted; any other `$` is malformed. */
  function Interpolate(s: Points, env: Points -> Points): Interpolated
    decreases |s|
  {
    if s == [] then Interpolated([], [])
    else if s[0] != '$' as int then Prefixed([s[0]], [], Interpolate(s[1..], env))
    else if |s| == 1 then Malformed
    else if s[1] == '$' as int then Prefixed(['$' as int], [], Interpolate(s[2..], env))
    else if s[1] == '{' as int then
      var k := BraceAt(s[2..]);
      if 2 + k == |s| then Malformed
      else Prefixed(env(s[2..2 + k]), [s[2..2 + k]], Interpolate(s[3 + k..], env))
    else if NameStart(s[1]) then
      var k := NameLength(s[1..]);
      if k == 0 then Malformed
      else Prefixed(env(s[1..1 + k]), [s[1..1 + k]], Interpolate(s[1 + k..], env))
    else Malformed
  }

  // ---- Round trips ---------------------------------------------------------------------

  function Pow16(k: nat): (p: nat)
    ensures p > 0
  {
    if k == 0 then 1 else 16 * Pow16(k - 1)
  }

  lemma HexDigitValue(d: nat)
    requires d < 16
    ensures HexValue(HexDigit(d)) == Some(d) && Printable(HexDigit(d) as int)
  {
  }

  lemma {:induction false} HexReadsBack(n: nat, width: nat)
    requires n < Pow16(width)
    ensures HexNumeral(Hex(n, width)) == Some(n)
    ensures forall k :: 0 <= k < width ==> Printable(Hex(n, width)[k] as int)
  {
    if width > 0 {
      var s := Hex(n, width);
      HexReadsBack(n / 16, width - 1);
      HexDigitValue(n % 16);
      hide HexValue, HexDigit, Pow16;
      assert s[..width - 1] == Hex(n / 16, width - 1) && s[width - 1] == HexDigit(n % 16);
    }
  }

  lemma ReadHex(c: char, digits: string, rest: string, code: nat)
    requires EscapeWidth(c) == |digits| > 0 && HexNumeral(digits) == Some(code) && ReadContent(rest).Some?
    ensures ReadContent(("\\" + [c] + digits) + rest) == Some([code] + ReadContent(rest).value)
  {
    hide HexNumeral, EscapeWidth, SingleEscape;
    var s, w := ("\\" + [c] + digits) + rest, |digits|;
    assert s[0] == '\\' && s[1] == c && s[2..2 + w] == digits && s[2 + w..] == rest;
  }

  lemma Widths()
    ensures Pow16(2) == 0x100 && Pow16(4) == 0x1_0000 && Pow16(8) == 0x1_0000_0000
  {
    assert Pow16(1) == 16 && Pow16(3) == 0x1000;
    assert Pow16(5) == 0x10_0000 && Pow16(6) == 0x100_0000 && Pow16(7) == 0x1000_0000;
  }

  lemma ReadSingle(c: char, rest: string, code: nat)
    requires EscapeWidth(c) == 0 && SingleEscape(c) == Some(code) && ReadContent(rest).Some?
    ensures ReadContent(("\\" + [c]) + rest) == Some([code] + ReadContent(rest).value)
  {
    var s := ("\\" + [c]) + rest;
    assert s[0] == '\\' && s[1] == c && s[2..] == rest;
  }

  lemma ReadPlain(c: char, rest: string)
    requires c != '"' && c != '\\' && ReadContent(rest).Some?
    ensures ReadContent([c] + rest) == Some([c as int] + ReadContent(rest).value)
  {
    assert ([c] + rest)[1..] == rest;
  }

  /** One escaped code point is read back, whatever follows. */
  lemma ReadEscaped(code: nat, rest: string)
    requires code <= 0x10FFFF && ReadContent(rest).Some?
    ensures ReadContent(Escaped(code) + rest) == Some([code] + ReadContent(rest).value)
    ensures forall k :: 0 <= k < |Escaped(code)| ==> Printable(Escaped(code)[k] as int)
  {
    hide ReadContent, Hex, HexNumeral, Pow16;
    Widths();
    if code == '"' as int {
      ReadSingle('"', rest, code);
      assert "\\" + ['"'] == "\\\"";
    } else if code == '\\' as int {
      ReadSingle('\\', rest, code);
      assert "\\" + ['\\'] == "\\\\";
    } else if code == '\n' as int {
      ReadSingle('n', rest, code);
      assert "\\" + ['n'] == "\\n";
    } else if code == '\t' as int {
      ReadSingle('t', rest, code);
      assert "\\" + ['t'] == "\\t";
    } else if Printable(code) {
      ReadPlain(code as char, rest);
    } else if code <= 0xff {
      HexReadsBack(code, 2);
      ReadHex('x', Hex(code, 2), rest, code);
      assert "\\" + ['x'] == "\\x";
    } else if code <= 0xffff {
      HexReadsBack(code, 4);
      ReadHex('u', Hex(code, 4), rest, code);
      assert "\\" + ['u'] == "\\u";
    } else {
      HexReadsBack(code, 8);
      ReadHex('U', Hex(code, 8), rest, code);
      assert "\\" + ['U'] == "\\U";
    }
  }

  lemma {:induction false} ContentReadsBack(value: Points)
    requires Valid(value)
    ensures ReadContent(EscapedAll(value) + "\"") == Some(value)
    ensures forall k :: 0 <= k < |EscapedAll(value)| ==> Printable(EscapedAll(value)[k] as int)
  {
    if value == [] {
      assert [] + "\"" == "\"";
    } else {
      hide ReadContent, Escaped;
      var rest := EscapedAll(value[1..]) + "\"";
      ContentReadsBack(value[1..]);
      ReadEscaped(value[0], rest);
      Assoc(Escaped(value[0]), EscapedAll(value[1..]), "\"");
      assert value == [value[0]] + value[1..];
    }
  }

  /** Reading a quoted string gives the string, for every sequence of code points; the output is
      printable ASCII and closes at its last character only. */
  lemma QuotedReadsBack(value: Points)
    requires Valid(value)
    ensures ReadScalar(Quoted(value)) == Some(value)
    ensures forall k :: 0 <= k < |Quoted(value)| ==> Printable(Quoted(value)[k] as int)
  {
    ContentReadsBack(value);
    hide ReadContent, EscapedAll, Escaped;
    assert Quoted(value) == "\"" + (EscapedAll(value) + "\"");
    assert Quoted(value)[1..] == EscapedAll(value) + "\"";
  }

  lemma PlainStep(c: nat, rest: Points, env: Points -> Points)
    requires c != '$' as int
    ensures Interpolate([c] + rest, env) == Prefixed([c], [], Interpolate(rest, env))
  {
    assert ([c] + rest)[1..] == rest;
  }

  lemma DollarStep(rest: Points, env: Points -> Points)
    ensures var d := '$' as int; Interpolate([d, d] + rest, env) == Prefixed([d], [], Interpolate(rest, env))
  {
    var d := '$' as int;
    assert ([d, d] + rest)[2..] == rest;
  }

  lemma {:induction false} DoubledReadsBack(value: Points, env: Points -> Points)
    ensures Interpolate(Doubled(value), env) == Interpolated(value, [])
    ensures Valid(value) ==> Valid(Doubled(value))
  {
    if value != [] {
      hide Interpolate;
      var head, rest := value[0], Doubled(value[1..]);
      DoubledReadsBack(value[1..], env);
      assert value == [head] + value[1..];
      if head == '$' as int {
        DollarStep(rest, env);
      } else {
        PlainStep(head, rest, env);
      }
    }
  }

  /** Reading and then interpolating a Compose-quoted string gives the string, whatever the
      environment holds: no variable is ever substituted. */
  lemma ComposeReadsBack(value: Points, env: Points -> Points)
    requires Valid(value)
    ensures ReadScalar(ComposeQuote(value)).Some?
    ensures Interpolate(ReadScalar(ComposeQuote(value)).value, env) == Interpolated(value, [])
  {
    DoubledReadsBack(value, env);
    QuotedReadsBack(Doubled(value));
  }
}
