/**
 Go values that encoding/json can be handed, the text it prints for them, and a
 reader for the same grammar (sections 4 and 5 of RFC 8259, without white space).
 */
module Json {
  import opened Wrappers
  import opened JsonText
  import opened Sequences

  /**
   A dynamically typed Go value (`any`). A map is given together with the order in
   which one `range` loop happens to visit it, so quantifying over GoMap values
   quantifies over every enumeration order as well.
   */
  datatype GoValue =
    | GoNil
    | GoBool(b: bool)
    | GoInt(n: int)
    | GoString(s: string)
    | GoSlice(items: seq<GoValue>)
    | GoMap(entries: seq<Entry>)
    | GoUnsupported // a channel, a function, NaN: json.Marshal returns an error

  datatype Entry = Entry(key: string, value: GoValue)

  /** The JSON value a text denotes; an object is a finite map. */
  datatype Json =
    | JNull
    | JBool(b: bool)
    | JNumber(n: int)
    | JString(s: string)
    | JArray(items: seq<Json>)
    | JObject(members: map<string, Json>)

  function Keys(es: seq<Entry>): set<string> {
    if es == [] then {} else {es[0].key} + Keys(es[1..])
  }

  // A Go map never holds a key twice.
  predicate WellFormed(v: GoValue)
    decreases v, 1
  {
    match v
    case GoSlice(items) => WellFormedItems(items)
    case GoMap(es) => WellFormedEntries(es)
    case _ => true
  }

  predicate WellFormedItems(xs: seq<GoValue>)
    decreases xs, 0
  {
    xs == [] || (WellFormed(xs[0]) && WellFormedItems(xs[1..]))
  }

  predicate WellFormedEntries(es: seq<Entry>)
    decreases es, 0
  {
    es == [] || (es[0].key !in Keys(es[1..]) && WellFormed(es[0].value) && WellFormedEntries(es[1..]))
  }

  // json.Marshal has a text for v.
  predicate Supported(v: GoValue)
    decreases v, 1
  {
    match v
    case GoUnsupported => false
    case GoSlice(items) => SupportedItems(items)
    case GoMap(es) => SupportedEntries(es)
    case _ => true
  }

  predicate SupportedItems(xs: seq<GoValue>)
    decreases xs, 0
  {
    xs == [] || (Supported(xs[0]) && SupportedItems(xs[1..]))
  }

  predicate SupportedEntries(es: seq<Entry>)
    decreases es, 0
  {
    es == [] || (Supported(es[0].value) && SupportedEntries(es[1..]))
  }

  // ---------------------------------------------------------------- meaning

  function Meaning(v: GoValue): Json
    requires Supported(v)
    decreases v, 1
  {
    match v
    case GoNil => JNull
    case GoBool(b) => JBool(b)
    case GoInt(n) => JNumber(n)
    case GoString(s) => JString(s)
    case GoSlice(items) => JArray(MeaningOfItems(items))
    case GoMap(es) => JObject(MeaningOfEntries(es))
  }

  function MeaningOfItems(xs: seq<GoValue>): (js: seq<Json>)
    requires SupportedItems(xs)
    ensures |js| == |xs|
    decreases xs, 0
  {
    if xs == [] then [] else [Meaning(xs[0])] + MeaningOfItems(xs[1..])
  }

  function MeaningOfEntries(es: seq<Entry>): (m: map<string, Json>)
    requires SupportedEntries(es)
    ensures m.Keys == Keys(es)
    decreases es, 0
  {
    if es == [] then map[]
    else MeaningOfEntries(es[1..])[es[0].key := Meaning(es[0].value)]
  }

  // ---------------------------------------------------------------- printing

  function Print(v: GoValue): string
    requires Supported(v)
    decreases v, 1
  {
    match v
    case GoNil => "null"
    case GoBool(b) => if b then "true" else "false"
    case GoInt(n) => Number(n)
    case GoString(s) => Quote(s)
    case GoSlice(items) => "[" + PrintItems(items, true)
    case GoMap(es) => "{" + PrintMembers(es, true)
  }

  function Comma(first: bool): string {
    if first then "" else ","
  }

  // The items that are left and the closing bracket.
  function PrintItems(xs: seq<GoValue>, first: bool): string
    requires SupportedItems(xs)
    decreases xs, 0
  {
    if xs == [] then "]" else Comma(first) + Print(xs[0]) + PrintItems(xs[1..], false)
  }

  function PrintMember(e: Entry): string
    requires Supported(e.value)
    decreases e, 2
  {
    Quote(e.key) + ":" + Print(e.value)
  }

  // The members that are left and the closing brace.
  function PrintMembers(es: seq<Entry>, first: bool): string
    requires SupportedEntries(es)
    decreases es, 0
  {
    if es == [] then "}" else Comma(first) + PrintMember(es[0]) + PrintMembers(es[1..], false)
  }

  // ---------------------------------------------------------------- reading

  function ReadWord(t: string, word: string, v: GoValue): (r: Option<(GoValue, string)>)
    requires word != []
    ensures r.Some? ==> |r.value.1| < |t|
  {
    if word <= t then Some((v, t[|word|..])) else None
  }

  function ReadValue(t: string): (r: Option<(GoValue, string)>)
    ensures r.Some? ==> |r.value.1| < |t|
    decreases |t|, 1
  {
    if t == [] then None
    else if t[0] == 'n' then ReadWord(t, "null", GoNil)
    else if t[0] == 't' then ReadWord(t, "true", GoBool(true))
    else if t[0] == 'f' then ReadWord(t, "false", GoBool(false))
    else if t[0] == '\"' then
      match ReadStringBody(t[1..])
      case None => None
      case Some((s, rest)) => Some((GoString(s), rest))
    else if t[0] == '[' then
      match ReadItems(t[1..], true)
      case None => None
      case Some((xs, rest)) => Some((GoSlice(xs), rest))
    else if t[0] == '{' then
      match ReadMembers(t[1..], true)
      case None => None
      case Some((es, rest)) => Some((GoMap(es), rest))
    else
      match ReadNumber(t)
      case None => None
      case Some((n, rest)) => Some((GoInt(n), rest))
  }

  // After the comma that every item but the first needs.
  function SkipComma(t: string, first: bool): (r: Option<string>)
    ensures r.Some? ==> |r.value| <= |t|
  {
    if first then Some(t)
    else if t != [] && t[0] == ',' then Some(t[1..])
    else None
  }

  function ReadItems(t: string, first: bool): (r: Option<(seq<GoValue>, string)>)
    ensures r.Some? ==> |r.value.1| < |t|
    decreases |t|, 2
  {
    if t == [] then None
    else if t[0] == ']' then Some(([], t[1..]))
    else
      match SkipComma(t, first)
      case None => None
      case Some(u) =>
        match ReadValue(u)
        case None => None
        case Some((x, rest)) =>
          match ReadItems(rest, false)
          case None => None
          case Some((xs, after)) => Some(([x] + xs, after))
  }

  function ReadMember(t: string): (r: Option<(Entry, string)>)
    ensures r.Some? ==> |r.value.1| < |t|
    decreases |t|, 2
  {
    if t == [] || t[0] != '\"' then None
    else
      match ReadStringBody(t[1..])
      case None => None
      case Some((key, rest)) =>
        if rest == [] || rest[0] != ':' then None
        else
          match ReadValue(rest[1..])
          case None => None
          case Some((v, after)) => Some((Entry(key, v), after))
  }

  function ReadMembers(t: string, first: bool): (r: Option<(seq<Entry>, string)>)
    ensures r.Some? ==> |r.value.1| < |t|
    decreases |t|, 3
  {
    if t == [] then None
    else if t[0] == '}' then Some(([], t[1..]))
    else
      match SkipComma(t, first)
      case None => None
      case Some(u) =>
        match ReadMember(u)
        case None => None
        case Some((e, rest)) =>
          match ReadMembers(rest, false)
          case None => None
          case Some((es, after)) => Some(([e] + es, after))
  }

  // ---------------------------------------------------------------- round trip

  lemma {:induction false} PrintStarts(v: GoValue)
    requires Supported(v)
    ensures Print(v) != []
    ensures Print(v)[0] != ']' && Print(v)[0] != '}' && Print(v)[0] != ','
  {
    if v.GoInt? && v.n >= 0 {
      assert IsDigit(Digits(v.n)[0]);
    }
  }

  // Reading undoes printing, whatever text follows.
  lemma {:induction false} ReadPrint(v: GoValue, rest: string)
    requires Supported(v) && EndsNumber(rest)
    ensures ReadValue(Print(v) + rest) == Some((v, rest))
    decreases v, 1
  {
    match v
    case GoNil => ReadPrintWord(v, rest);
    case GoBool(_) => ReadPrintWord(v, rest);
    case GoInt(n) => ReadPrintInt(n, rest);
    case GoString(s) => ReadPrintString(s, rest);
    case GoSlice(items) => ReadPrintSlice(items, rest);
    case GoMap(es) => ReadPrintMap(es, rest);
  }

  lemma ReadPrintWord(v: GoValue, rest: string)
    requires v.GoNil? || v.GoBool?
    ensures ReadValue(Print(v) + rest) == Some((v, rest))
  {
    var t := Print(v) + rest;
    assert t[0] == Print(v)[0] && Print(v) <= t && t[|Print(v)|..] == rest;
  }

  lemma ReadPrintString(s: string, rest: string)
    ensures ReadValue(Quote(s) + rest) == Some((GoString(s), rest))
  {
    QuoteTail(s, rest);
    ReadStringBodyOfEscapeAll(s, rest);
  }

  lemma Behind(c: char, body: string, rest: string)
    ensures ([c] + body + rest)[0] == c && ([c] + body + rest)[1..] == body + rest
  {
  }

  lemma {:induction false} ReadPrintSlice(items: seq<GoValue>, rest: string)
    requires SupportedItems(items)
    ensures ReadValue("[" + PrintItems(items, true) + rest) == Some((GoSlice(items), rest))
    decreases items, 1
  {
    Behind('[', PrintItems(items, true), rest);
    ReadPrintItems(items, true, rest);
  }

  lemma {:induction false} ReadPrintMap(es: seq<Entry>, rest: string)
    requires SupportedEntries(es)
    ensures ReadValue("{" + PrintMembers(es, true) + rest) == Some((GoMap(es), rest))
    decreases es, 1
  {
    Behind('{', PrintMembers(es, true), rest);
    ReadPrintMembers(es, true, rest);
  }

  lemma ReadPrintInt(n: int, rest: string)
    requires EndsNumber(rest)
    ensures ReadValue(Number(n) + rest) == Some((GoInt(n), rest))
  {
    ReadNumberOfNumber(n, rest);
    assert n >= 0 ==> IsDigit(Digits(n)[0]);
    assert (Number(n) + rest)[0] == Number(n)[0];
  }

  lemma CommaThen(first: bool, u: string)
    requires u != []
    ensures SkipComma(Comma(first) + u, first) == Some(u)
    ensures (Comma(first) + u)[0] == if first then u[0] else ','
  {
    assert (Comma(first) + u)[|Comma(first)|..] == u;
  }

  lemma {:induction false} ReadPrintItems(xs: seq<GoValue>, first: bool, rest: string)
    requires SupportedItems(xs)
    ensures ReadItems(PrintItems(xs, first) + rest, first) == Some((xs, rest))
    decreases xs, 0
  {
    if xs == [] {
      StartsWith("]", rest);
    } else {
      var tail := PrintItems(xs[1..], false) + rest;
      RegroupFour(Comma(first), Print(xs[0]), PrintItems(xs[1..], false), rest);
      PrintStarts(xs[0]);
      StartsWith(Print(xs[0]), tail);
      CommaThen(first, Print(xs[0]) + tail);
      ReadPrint(xs[0], tail);
      ReadPrintItems(xs[1..], false, rest);
      assert [xs[0]] + xs[1..] == xs;
    }
  }

  lemma QuoteTail(s: string, after: string)
    ensures (Quote(s) + after)[0] == '\"'
    ensures (Quote(s) + after)[1..] == EscapeAll(s) + "\"" + after
  {
    assert Quote(s) + after == "\"" + (EscapeAll(s) + "\"" + after);
  }

  lemma {:induction false} ReadPrintMember(e: Entry, rest: string)
    requires Supported(e.value) && EndsNumber(rest)
    ensures ReadMember(PrintMember(e) + rest) == Some((e, rest))
    decreases e, 2
  {
    var after := ":" + (Print(e.value) + rest);
    RegroupFour(Quote(e.key), ":", Print(e.value), rest);
    QuoteTail(e.key, after);
    ReadStringBodyOfEscapeAll(e.key, after);
    StartsWith(":", Print(e.value) + rest);
    ReadPrint(e.value, rest);
  }

  lemma {:induction false} ReadPrintMembers(es: seq<Entry>, first: bool, rest: string)
    requires SupportedEntries(es)
    ensures ReadMembers(PrintMembers(es, first) + rest, first) == Some((es, rest))
    decreases es, 0
  {
    if es == [] {
      StartsWith("}", rest);
    } else {
      var tail := PrintMembers(es[1..], false) + rest;
      RegroupFour(Comma(first), PrintMember(es[0]), PrintMembers(es[1..], false), rest);
      StartsWith(PrintMember(es[0]), tail);
      CommaThen(first, PrintMember(es[0]) + tail);
      MemberStarts(es[0]);
      ReadPrintMember(es[0], tail);
      ReadPrintMembers(es[1..], false, rest);
      assert [es[0]] + es[1..] == es;
    }
  }

  lemma MemberStarts(e: Entry)
    requires Supported(e.value)
    ensures PrintMember(e) != [] && PrintMember(e)[0] == '\"'
  {
    assert PrintMember(e)[0] == Quote(e.key)[0];
  }

  // Two values with the same text are the same value, enumeration order included.
  lemma PrintInjective(v: GoValue, w: GoValue)
    requires Supported(v) && Supported(w) && Print(v) == Print(w)
    ensures v == w
  {
    ReadPrint(v, []);
    ReadPrint(w, []);
    assert Print(v) + [] == Print(v) && Print(w) + [] == Print(w);
  }

  // ---------------------------------------------------------------- what printed text consists of

  lemma {:induction false} DigitsAreSafe(n: nat)
    ensures NoControl(Digits(n)) && HtmlSafe(Digits(n))
  {
    assert forall i :: 0 <= i < |Digits(n)| ==> IsDigit(Digits(n)[i]);
  }

  lemma {:induction false} PrintIsSafe(v: GoValue)
    requires Supported(v)
    ensures NoControl(Print(v)) && HtmlSafe(Print(v))
    decreases v, 1
  {
    match v
    case GoInt(n) => DigitsAreSafe(if n < 0 then -n else n);
    case GoString(s) => QuoteIsSafe(s);
    case GoSlice(items) => ItemsAreSafe(items, true);
    case GoMap(es) => MembersAreSafe(es, true);
    case _ =>
  }

  lemma {:induction false} ItemsAreSafe(xs: seq<GoValue>, first: bool)
    requires SupportedItems(xs)
    ensures NoControl(PrintItems(xs, first)) && HtmlSafe(PrintItems(xs, first))
    decreases xs, 0
  {
    if xs != [] {
      PrintIsSafe(xs[0]);
      ItemsAreSafe(xs[1..], false);
    }
  }

  lemma {:induction false} MembersAreSafe(es: seq<Entry>, first: bool)
    requires SupportedEntries(es)
    ensures NoControl(PrintMembers(es, first)) && HtmlSafe(PrintMembers(es, first))
    decreases es, 0
  {
    if es != [] {
      QuoteIsSafe(es[0].key);
      PrintIsSafe(es[0].value);
      MembersAreSafe(es[1..], false);
    }
  }
}
