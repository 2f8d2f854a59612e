/**
 Decimal numbers and quoted strings as Go's encoding/json writes them, and the
 readers that undo the writers.

 A Go string that is valid UTF-8 is a sequence of Unicode scalar values, which is
 what a Dafny string is; so text stands for its own UTF-8 encoding.
 */
module JsonText {
  import opened Wrappers

  // ---------------------------------------------------------------- numbers

  predicate IsDigit(c: char) {
    '0' <= c <= '9'
  }

  predicate AllDigits(s: string) {
    forall i :: 0 <= i < |s| ==> IsDigit(s[i])
  }

  function DigitChar(d: nat): char
    requires d < 10
  {
    ('0' as int + d) as char
  }

  function Digits(n: nat): (s: string)
    ensures |s| > 0 && AllDigits(s)
  {
    if n < 10 then [DigitChar(n)] else Digits(n / 10) + [DigitChar(n % 10)]
  }

  function Number(n: int): string {
    if n < 0 then "-" + Digits(-n) else Digits(n)
  }

  // The value of a run of digits, read left to right.
  function DigitsValue(s: string): nat
    requires AllDigits(s)
  {
    if s == [] then 0 else DigitsValue(s[..|s| - 1]) * 10 + (s[|s| - 1] as int - '0' as int)
  }

  function DigitRun(t: string): (k: nat)
    ensures k <= |t| && AllDigits(t[..k])
    ensures k < |t| ==> !IsDigit(t[k])
  {
    if t == [] || !IsDigit(t[0]) then 0
    else
      var k := 1 + DigitRun(t[1..]);
      assert t[..k] == [t[0]] + t[1..][..k - 1];
      k
  }

  // A numeral has no leading zero.
  predicate IsNumeral(s: string) {
    s != [] && AllDigits(s) && (|s| > 1 ==> s[0] != '0')
  }

  function ReadDigits(t: string): Option<(nat, string)> {
    var k := DigitRun(t);
    if !IsNumeral(t[..k]) then None else Some((DigitsValue(t[..k]), t[k..]))
  }

  function ReadNumber(t: string): Option<(int, string)> {
    if t != [] && t[0] == '-' then
      match ReadDigits(t[1..])
      case None => None
      case Some((n, rest)) => Some((0 - n as int, rest))
    else
      match ReadDigits(t)
      case None => None
      case Some((n, rest)) => Some((n as int, rest))
  }

  // What may follow a number without becoming part of it.
  predicate EndsNumber(rest: string) {
    rest == [] || !IsDigit(rest[0])
  }

  lemma {:induction false} DigitsValueOfDigits(n: nat)
    ensures DigitsValue(Digits(n)) == n
  {
    if n < 10 {
      var s := Digits(n);
      assert s[..|s| - 1] == [];
    } else {
      DigitsValueOfDigits(n / 10);
      var s := Digits(n);
      assert s[..|s| - 1] == Digits(n / 10);
    }
  }

  // The digits printed for n are the one numeral of n, and no run of digits for n is shorter.
  lemma {:induction false} DigitsAreTheNumeral(n: nat, s: string)
    requires s != [] && AllDigits(s) && DigitsValue(s) == n
    ensures IsNumeral(Digits(n))
    ensures |Digits(n)| <= |s|
    ensures IsNumeral(s) <==> s == Digits(n)
  {
    var (front, last) := (s[..|s| - 1], s[|s| - 1]);
    assert s == front + [last];
    assert DigitChar(last as int - '0' as int) == last;
    if front == [] {
      assert DigitsValue(front) == 0;
    } else {
      assert n / 10 == DigitsValue(front) && DigitChar(n % 10) == last;
      DigitsAreTheNumeral(n / 10, front);
      ZeroHasOneDigit(front);
    }
  }

  lemma {:induction false} ZeroHasOneDigit(s: string)
    requires s != [] && AllDigits(s)
    ensures DigitsValue(s) == 0 ==> s[0] == '0'
  {
    if |s| > 1 {
      ZeroHasOneDigit(s[..|s| - 1]);
    } else {
      assert s[..|s| - 1] == [];
    }
  }

  lemma {:induction false} DigitRunStops(s: string, rest: string)
    requires AllDigits(s) && EndsNumber(rest)
    ensures DigitRun(s + rest) == |s|
  {
    if s == [] {
      assert s + rest == rest;
    } else {
      DigitRunStops(s[1..], rest);
      assert (s + rest)[1..] == s[1..] + rest;
    }
  }

  lemma ReadDigitsOfDigits(n: nat, rest: string)
    requires EndsNumber(rest)
    ensures ReadDigits(Digits(n) + rest) == Some((n, rest))
  {
    var d := Digits(n);
    DigitsValueOfDigits(n);
    DigitsAreTheNumeral(n, d);
    DigitRunStops(d, rest);
    assert (d + rest)[..|d|] == d && (d + rest)[|d|..] == rest;
  }

  lemma StartsWith(head: string, rest: string)
    requires head != []
    ensures (head + rest)[0] == head[0] && (head + rest)[1..] == head[1..] + rest
  {
  }

  lemma ReadNumberOfNumber(n: int, rest: string)
    requires EndsNumber(rest)
    ensures ReadNumber(Number(n) + rest) == Some((n, rest))
  {
    StartsWith(Number(n), rest);
    if n < 0 {
      ReadDigitsOfDigits(-n, rest);
      assert Number(n)[1..] == Digits(-n);
    } else {
      ReadDigitsOfDigits(n, rest);
      assert IsDigit(Digits(n)[0]);
    }
  }

  // ---------------------------------------------------------------- strings

  function HexChar(d: nat): char
    requires d < 16
  {
    if d < 10 then ('0' as int + d) as char else ('a' as int + (d - 10)) as char
  }

  function HexValue(c: char): (d: int)
    ensures -1 <= d < 16
  {
    if '0' <= c <= '9' then c as int - '0' as int
    else if 'a' <= c <= 'f' then c as int - 'a' as int + 10
    else -1
  }

  function Hex4(n: nat): string
    requires n < 0x1_0000
  {
    [HexChar(n / 4096), HexChar(n / 256 % 16), HexChar(n / 16 % 16), HexChar(n % 16)]
  }

  function UnicodeEscape(c: char): string
    requires c as int < 0x1_0000
  {
    ['\\', 'u'] + Hex4(c as int)
  }

  // U+2028 and U+2029 are escaped although JSON allows them; so are <, > and &.
  predicate NeedsUnicodeEscape(c: char) {
    c < ' ' || c == '<' || c == '>' || c == '&' || c as int == 0x2028 || c as int == 0x2029
  }

  function Escape(c: char): string {
    if c == '\"' then "\\\""
    else if c == '\\' then "\\\\"
    else if c as int == 8 then "\\b"
    else if c as int == 12 then "\\f"
    else if c == '\n' then "\\n"
    else if c == '\r' then "\\r"
    else if c == '\t' then "\\t"
    else if NeedsUnicodeEscape(c) then UnicodeEscape(c)
    else [c]
  }

  function EscapeAll(s: string): string {
    if s == [] then [] else Escape(s[0]) + EscapeAll(s[1..])
  }

  function Quote(s: string): string {
    "\"" + EscapeAll(s) + "\""
  }

  function ReadHex4(t: string): Option<char> {
    if |t| < 4 then None
    else
      var (a, b, c, d) := (HexValue(t[0]), HexValue(t[1]), HexValue(t[2]), HexValue(t[3]));
      if a < 0 || b < 0 || c < 0 || d < 0 then None
      else
        var n := a * 4096 + b * 256 + c * 16 + d;
        if 0xD800 <= n < 0xE000 then None else Some(n as char)
  }

  function ReadEscape(t: string): (r: Option<(char, string)>)
    ensures r.Some? ==> |r.value.1| < |t|
  {
    if t == [] then None
    else if t[0] == '\"' || t[0] == '\\' then Some((t[0], t[1..]))
    else if t[0] == 'b' then Some((8 as char, t[1..]))
    else if t[0] == 'f' then Some((12 as char, t[1..]))
    else if t[0] == 'n' then Some(('\n', t[1..]))
    else if t[0] == 'r' then Some(('\r', t[1..]))
    else if t[0] == 't' then Some(('\t', t[1..]))
    else if t[0] == 'u' then
      match ReadHex4(t[1..])
      case None => None
      case Some(c) => Some((c, t[5..]))
    else None
  }

  // Reads up to the closing quote; a raw control character is an error.
  function ReadStringBody(t: string): (r: Option<(string, string)>)
    ensures r.Some? ==> |r.value.1| < |t|
    decreases |t|
  {
    if t == [] || t[0] < ' ' then None
    else if t[0] == '\"' then Some(([], t[1..]))
    else
      var one := if t[0] == '\\' then ReadEscape(t[1..]) else Some((t[0], t[1..]));
      match one
      case None => None
      case Some((c, rest)) =>
        match ReadStringBody(rest)
        case None => None
        case Some((s, after)) => Some(([c] + s, after))
  }

  lemma Nibbles(n: nat)
    requires n < 0x1_0000
    ensures n == n / 4096 * 4096 + n / 256 % 16 * 256 + n / 16 % 16 * 16 + n % 16
  {
    var a := n / 16;
    var b := a / 16;
    assert b == n / 256;
    assert b / 16 == n / 4096;
    assert n == a * 16 + n % 16 && a == b * 16 + a % 16 && b == b / 16 * 16 + b % 16;
  }

  lemma ReadHex4OfHex4(n: nat, rest: string)
    requires n < 0xD800 || 0xE000 <= n < 0x1_0000
    ensures ReadHex4(Hex4(n) + rest) == Some(n as char)
  {
    Nibbles(n);
    HexRoundTrip(n / 4096);
    HexRoundTrip(n / 256 % 16);
    HexRoundTrip(n / 16 % 16);
    HexRoundTrip(n % 16);
    var t := Hex4(n) + rest;
    assert t[0] == HexChar(n / 4096) && t[1] == HexChar(n / 256 % 16)
        && t[2] == HexChar(n / 16 % 16) && t[3] == HexChar(n % 16);
  }

  lemma HexRoundTrip(d: nat)
    requires d < 16
    ensures HexValue(HexChar(d)) == d
  {
  }

  // One escaped character followed by `rest` is read back as that character.
  lemma ReadOneEscaped(c: char, rest: string)
    ensures Escape(c) != [] && Escape(c)[0] >= ' ' && Escape(c)[0] != '\"'
    ensures Escape(c)[0] == '\\' ==> ReadEscape((Escape(c) + rest)[1..]) == Some((c, rest))
    ensures Escape(c)[0] != '\\' ==> Escape(c) == [c]
  {
    var e := Escape(c);
    var t := (e + rest)[1..];
    if e[0] == '\\' {
      assert t == e[1..] + rest;
      if |e| == 2 {
        assert t[0] == e[1] && t[1..] == rest;
      } else {
        assert e == UnicodeEscape(c);
        ReadHex4OfHex4(c as int, rest);
        assert t[0] == 'u' && t[1..] == Hex4(c as int) + rest && t[5..] == rest;
      }
    }
  }

  lemma {:induction false} ReadStringBodyOfEscapeAll(s: string, rest: string)
    ensures ReadStringBody(EscapeAll(s) + "\"" + rest) == Some((s, rest))
  {
    var t := EscapeAll(s) + "\"" + rest;
    if s == [] {
      assert t == "\"" + rest;
    } else {
      var tail := EscapeAll(s[1..]) + "\"" + rest;
      ReadOneEscaped(s[0], tail);
      assert t == Escape(s[0]) + tail;
      if Escape(s[0])[0] != '\\' {
        assert t[1..] == tail;
      }
      ReadStringBodyOfEscapeAll(s[1..], rest);
      assert [s[0]] + s[1..] == s;
    }
  }

  // ---------------------------------------------------------------- what printed text consists of

  predicate NoControl(t: string) {
    forall i :: 0 <= i < |t| ==> t[i] >= ' '
  }

  // Nothing that a browser or a script would take for markup or for the end of a line.
  predicate HtmlSafe(t: string) {
    forall i :: 0 <= i < |t| ==> t[i] !in {'<', '>', '&'} && t[i] as int != 0x2028 && t[i] as int != 0x2029
  }

  // A character stands for itself unless it is a control character, a quote, a backslash or not safe in
  // HTML; seven have an escape of two characters, the others one of six.
  lemma EscapeShape(c: char)
    ensures Escape(c) == [c] <==>
              c >= ' ' && c != '\"' && c != '\\' && HtmlSafe([c])
    ensures |Escape(c)| == 2 <==> c == '\"' || c == '\\' || c as int in {8, 9, 10, 12, 13}
    ensures |Escape(c)| in {1, 2, 6} && (|Escape(c)| > 1 ==> Escape(c)[0] == '\\')
  {
    assert HtmlSafe([c]) <==> [c][0] !in {'<', '>', '&'} && [c][0] as int != 0x2028 && [c][0] as int != 0x2029;
  }

  predicate Plain(s: string) {
    NoControl(s) && HtmlSafe(s) && forall i :: 0 <= i < |s| ==> s[i] != '\"' && s[i] != '\\'
  }

  // Text without any of these is printed as it is.
  lemma {:induction false} PlainTextAsItIs(s: string)
    requires Plain(s)
    ensures EscapeAll(s) == s && Quote(s) == "\"" + s + "\""
  {
    if s != [] {
      var rest := s[1..];
      assert forall i :: 0 <= i < |rest| ==> rest[i] == s[i + 1];
      PlainTextAsItIs(rest);
      assert Escape(s[0]) == [s[0]] && [s[0]] + rest == s;
    }
  }

  lemma HexCharIsSafe(d: nat)
    requires d < 16
    ensures HexChar(d) >= '0' && HexChar(d) !in {'<', '>', '&'} && HexChar(d) as int < 128
  {
  }

  lemma EscapeIsSafe(c: char)
    ensures NoControl(Escape(c)) && HtmlSafe(Escape(c))
  {
    EscapeShape(c);
    if |Escape(c)| == 6 {
      HexCharIsSafe(c as int / 4096);
      HexCharIsSafe(c as int / 256 % 16);
      HexCharIsSafe(c as int / 16 % 16);
      HexCharIsSafe(c as int % 16);
    }
  }

  lemma {:induction false} QuoteIsSafe(s: string)
    ensures NoControl(EscapeAll(s)) && NoControl(Quote(s))
    ensures HtmlSafe(EscapeAll(s)) && HtmlSafe(Quote(s))
  {
    if s != [] {
      EscapeIsSafe(s[0]);
      QuoteIsSafe(s[1..]);
    }
  }
}
