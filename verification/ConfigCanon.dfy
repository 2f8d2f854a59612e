/**
 The canonical serialization of managed config sections
 (internal/configcanon/configcanon.go) and its hash.
 */
module ConfigCanon {
  import opened Wrappers
  import opened JsonText
  import opened Json
  import opened Sequences

  // ---------------------------------------------------------------- key order

  // sort.Strings compares bytes; on valid UTF-8 that is the order of code points.
  predicate Le(a: string, b: string) {
    a == [] || (b != [] && (a[0] < b[0] || (a[0] == b[0] && Le(a[1..], b[1..]))))
  }

  lemma {:induction false} LeTotal(a: string, b: string)
    ensures Le(a, b) || Le(b, a)
  {
    if a != [] && b != [] {
      LeTotal(a[1..], b[1..]);
    }
  }

  lemma {:induction false} LeAntisymmetric(a: string, b: string)
    requires Le(a, b) && Le(b, a)
    ensures a == b
  {
    if a != [] && b != [] {
      LeAntisymmetric(a[1..], b[1..]);
      assert a == [a[0]] + a[1..] && b == [b[0]] + b[1..];
    }
  }

  lemma {:induction false} LeTransitive(a: string, b: string, c: string)
    requires Le(a, b) && Le(b, c)
    ensures Le(a, c)
  {
    if a != [] && a[0] == b[0] && b[0] == c[0] {
      LeTransitive(a[1..], b[1..], c[1..]);
    }
  }

  // The first difference decides, and a key comes before its extensions.
  lemma {:induction false} FirstDifferenceDecides(p: string, c: char, x: string, d: char, y: string)
    requires c < d
    ensures Le(p + ([c] + x), p + ([d] + y)) && !Le(p + ([d] + y), p + ([c] + x))
    ensures Le(p, p + ([c] + x)) && !Le(p + ([c] + x), p)
  {
    if p == [] {
      assert p + ([c] + x) == [c] + x && p + ([d] + y) == [d] + y;
    } else {
      FirstDifferenceDecides(p[1..], c, x, d, y);
      assert (p + ([c] + x))[1..] == p[1..] + ([c] + x) && (p + ([d] + y))[1..] == p[1..] + ([d] + y);
    }
  }

  // Every key is strictly before the keys that follow it.
  predicate Sorted(es: seq<Entry>) {
    es == [] || ((forall k :: k in Keys(es[1..]) ==> Le(es[0].key, k) && k != es[0].key) && Sorted(es[1..]))
  }

  function InsertByKey(e: Entry, es: seq<Entry>): (r: seq<Entry>)
    ensures Keys(r) == Keys(es) + {e.key}
    ensures SupportedEntries(r) <==> SupportedEntries(es) && Supported(e.value)
  {
    if es == [] || Le(e.key, es[0].key) then [e] + es
    else [es[0]] + InsertByKey(e, es[1..])
  }

  function SortByKey(es: seq<Entry>): (r: seq<Entry>)
    ensures Keys(r) == Keys(es)
    ensures SupportedEntries(r) <==> SupportedEntries(es)
  {
    if es == [] then [] else InsertByKey(es[0], SortByKey(es[1..]))
  }

  // ---------------------------------------------------------------- canonicalize

  function Canonicalize(v: GoValue): (c: GoValue)
    ensures Supported(c) <==> Supported(v)
    decreases v, 1
  {
    match v
    case GoMap(es) => GoMap(SortByKey(CanonicalizeEntries(es)))
    case GoSlice(items) => GoSlice(CanonicalizeItems(items))
    case _ => v
  }

  function CanonicalizeItems(xs: seq<GoValue>): (r: seq<GoValue>)
    ensures |r| == |xs|
    ensures SupportedItems(r) <==> SupportedItems(xs)
    decreases xs, 0
  {
    if xs == [] then [] else [Canonicalize(xs[0])] + CanonicalizeItems(xs[1..])
  }

  function CanonicalizeEntries(es: seq<Entry>): (r: seq<Entry>)
    ensures Keys(r) == Keys(es)
    ensures SupportedEntries(r) <==> SupportedEntries(es)
    decreases es, 0
  {
    if es == [] then [] else [Entry(es[0].key, Canonicalize(es[0].value))] + CanonicalizeEntries(es[1..])
  }

  // The error of json.Marshal is swallowed: the text is then "null".
  function CanonicalBytes(v: GoValue): string {
    var c := Canonicalize(v);
    if Supported(c) then Print(c) else "null"
  }

  // A nil map hashes like an empty one.
  function Sections(m: Option<seq<Entry>>): GoValue {
    match m
    case None => GoMap([])
    case Some(es) => GoMap(es)
  }

  function Hash(sha: string -> string, m: Option<seq<Entry>>): string {
    sha(CanonicalBytes(Sections(m)))
  }

  // An ordered map prints as an object whose members keep its order.
  method MarshalJSON(o: seq<Entry>) returns (text: Option<string>)
    ensures text.Some? <==> SupportedEntries(o)
    ensures text.Some? ==> text.value == Print(GoMap(o))
  {
    var buf := "{";
    for i := 0 to |o|
      invariant SupportedEntries(o[i..]) <==> SupportedEntries(o)
      invariant SupportedEntries(o) ==> buf + PrintMembers(o[i..], i == 0) == Print(GoMap(o))
    {
      assert o[i..][1..] == o[i + 1..];
      ghost var before := buf;
      if i > 0 {
        buf := buf + ",";
      }
      if !Supported(o[i].value) {
        return None;
      }
      buf := buf + Quote(o[i].key);
      buf := buf + ":";
      buf := buf + Print(o[i].value);
      assert buf == before + (Comma(i == 0) + PrintMember(o[i]));
      if SupportedEntries(o) {
        Regroup(before, Comma(i == 0) + PrintMember(o[i]), PrintMembers(o[i + 1..], false));
      }
    }
    text := Some(buf + "}");
  }

  // ---------------------------------------------------------------- canonical form

  predicate Canonical(v: GoValue)
    decreases v, 1
  {
    match v
    case GoSlice(items) => CanonicalItems(items)
    case GoMap(es) => Sorted(es) && CanonicalEntries(es)
    case _ => true
  }

  predicate CanonicalItems(xs: seq<GoValue>)
    decreases xs, 0
  {
    xs == [] || (Canonical(xs[0]) && CanonicalItems(xs[1..]))
  }

  predicate CanonicalEntries(es: seq<Entry>)
    decreases es, 0
  {
    es == [] || (Canonical(es[0].value) && CanonicalEntries(es[1..]))
  }

  lemma {:induction false} InsertIsCanonical(e: Entry, es: seq<Entry>)
    requires Sorted(es) && CanonicalEntries(es) && Canonical(e.value) && e.key !in Keys(es)
    ensures Sorted(InsertByKey(e, es)) && CanonicalEntries(InsertByKey(e, es))
  {
    if es != [] {
      if Le(e.key, es[0].key) {
        forall k | k in Keys(es[1..])
          ensures Le(e.key, k)
        {
          LeTransitive(e.key, es[0].key, k);
        }
      } else {
        LeTotal(e.key, es[0].key);
        InsertIsCanonical(e, es[1..]);
      }
    }
  }

  lemma {:induction false} SortIsCanonical(es: seq<Entry>)
    requires WellFormedEntries(es) && CanonicalEntries(es)
    ensures Sorted(SortByKey(es)) && CanonicalEntries(SortByKey(es))
  {
    if es != [] {
      SortIsCanonical(es[1..]);
      InsertIsCanonical(es[0], SortByKey(es[1..]));
    }
  }

  // The result of canonicalize is in canonical form.
  lemma {:induction false} CanonicalizeIsCanonical(v: GoValue)
    requires WellFormed(v)
    ensures WellFormed(Canonicalize(v)) && Canonical(Canonicalize(v))
    decreases v, 1
  {
    match v
    case GoSlice(items) => ItemsAreCanonical(items);
    case GoMap(es) =>
      EntriesAreCanonical(es);
      SortIsCanonical(CanonicalizeEntries(es));
      SortIsWellFormed(CanonicalizeEntries(es));
    case _ =>
  }

  lemma {:induction false} ItemsAreCanonical(xs: seq<GoValue>)
    requires WellFormedItems(xs)
    ensures WellFormedItems(CanonicalizeItems(xs)) && CanonicalItems(CanonicalizeItems(xs))
    decreases xs, 0
  {
    if xs != [] {
      CanonicalizeIsCanonical(xs[0]);
      ItemsAreCanonical(xs[1..]);
    }
  }

  lemma {:induction false} EntriesAreCanonical(es: seq<Entry>)
    requires WellFormedEntries(es)
    ensures WellFormedEntries(CanonicalizeEntries(es)) && CanonicalEntries(CanonicalizeEntries(es))
    decreases es, 0
  {
    if es != [] {
      CanonicalizeIsCanonical(es[0].value);
      EntriesAreCanonical(es[1..]);
    }
  }

  lemma {:induction false} InsertIsWellFormed(e: Entry, es: seq<Entry>)
    requires WellFormedEntries(es) && WellFormed(e.value) && e.key !in Keys(es)
    ensures WellFormedEntries(InsertByKey(e, es))
  {
    if es != [] && !Le(e.key, es[0].key) {
      InsertIsWellFormed(e, es[1..]);
    }
  }

  lemma {:induction false} SortIsWellFormed(es: seq<Entry>)
    requires WellFormedEntries(es)
    ensures WellFormedEntries(SortByKey(es))
  {
    if es != [] {
      SortIsWellFormed(es[1..]);
      InsertIsWellFormed(es[0], SortByKey(es[1..]));
    }
  }

  // ---------------------------------------------------------------- meaning is kept

  lemma {:induction false} InsertKeepsMeaning(e: Entry, es: seq<Entry>)
    requires SupportedEntries(es) && Supported(e.value) && e.key !in Keys(es)
    ensures MeaningOfEntries(InsertByKey(e, es)) == MeaningOfEntries(es)[e.key := Meaning(e.value)]
  {
    if es != [] && !Le(e.key, es[0].key) {
      InsertKeepsMeaning(e, es[1..]);
    }
  }

  lemma {:induction false} SortKeepsMeaning(es: seq<Entry>)
    requires WellFormedEntries(es) && SupportedEntries(es)
    ensures MeaningOfEntries(SortByKey(es)) == MeaningOfEntries(es)
  {
    if es != [] {
      SortKeepsMeaning(es[1..]);
      InsertKeepsMeaning(es[0], SortByKey(es[1..]));
    }
  }

  // canonicalize only reorders: the JSON value stays the same.
  lemma {:induction false} CanonicalizeKeepsMeaning(v: GoValue)
    requires WellFormed(v) && Supported(v)
    ensures Meaning(Canonicalize(v)) == Meaning(v)
    decreases v, 1
  {
    match v
    case GoSlice(items) => ItemsKeepMeaning(items);
    case GoMap(es) =>
      EntriesAreCanonical(es);
      EntriesKeepMeaning(es);
      SortKeepsMeaning(CanonicalizeEntries(es));
    case _ =>
  }

  lemma {:induction false} ItemsKeepMeaning(xs: seq<GoValue>)
    requires WellFormedItems(xs) && SupportedItems(xs)
    ensures MeaningOfItems(CanonicalizeItems(xs)) == MeaningOfItems(xs)
    decreases xs, 0
  {
    if xs != [] {
      CanonicalizeKeepsMeaning(xs[0]);
      ItemsKeepMeaning(xs[1..]);
    }
  }

  lemma {:induction false} EntriesKeepMeaning(es: seq<Entry>)
    requires WellFormedEntries(es) && SupportedEntries(es)
    ensures MeaningOfEntries(CanonicalizeEntries(es)) == MeaningOfEntries(es)
    decreases es, 0
  {
    if es != [] {
      CanonicalizeKeepsMeaning(es[0].value);
      EntriesKeepMeaning(es[1..]);
    }
  }

  // ---------------------------------------------------------------- one form per meaning

  lemma {:induction false} SameMeaningSameForm(v: GoValue, w: GoValue)
    requires Supported(v) && Canonical(v) && Supported(w) && Canonical(w)
    requires Meaning(v) == Meaning(w)
    ensures v == w
    decreases v, 1
  {
    match v
    case GoSlice(items) => SameMeaningSameItems(items, w.items);
    case GoMap(es) => SameMeaningSameEntries(es, w.entries);
    case _ =>
  }

  lemma {:induction false} SameMeaningSameItems(xs: seq<GoValue>, ys: seq<GoValue>)
    requires SupportedItems(xs) && CanonicalItems(xs) && SupportedItems(ys) && CanonicalItems(ys)
    requires MeaningOfItems(xs) == MeaningOfItems(ys)
    ensures xs == ys
    decreases xs, 0
  {
    if xs != [] {
      var (a, b) := (MeaningOfItems(xs), MeaningOfItems(ys));
      assert a[0] == b[0] && a[1..] == b[1..];
      SameMeaningSameForm(xs[0], ys[0]);
      SameMeaningSameItems(xs[1..], ys[1..]);
      assert xs == [xs[0]] + xs[1..] && ys == [ys[0]] + ys[1..];
    }
  }

  lemma {:induction false} SameMeaningSameEntries(es: seq<Entry>, fs: seq<Entry>)
    requires SupportedEntries(es) && Sorted(es) && CanonicalEntries(es)
    requires SupportedEntries(fs) && Sorted(fs) && CanonicalEntries(fs)
    requires MeaningOfEntries(es) == MeaningOfEntries(fs)
    ensures es == fs
    decreases es, 0
  {
    if es == [] {
      assert Keys(fs) == {};
    } else {
      assert Keys(es) == Keys(fs);
      SameFirstKey(es, fs);
      SameMeaningTail(es);
      SameMeaningTail(fs);
      SameMeaningSameForm(es[0].value, fs[0].value);
      SameMeaningSameEntries(es[1..], fs[1..]);
      assert es == [es[0]] + es[1..] && fs == [fs[0]] + fs[1..];
    }
  }

  lemma SameFirstKey(es: seq<Entry>, fs: seq<Entry>)
    requires es != [] && Sorted(es) && fs != [] && Sorted(fs) && Keys(es) == Keys(fs)
    ensures es[0].key == fs[0].key
  {
    assert es[0].key in Keys(fs) && fs[0].key in Keys(es);
    LeReflexive(es[0].key);
    LeReflexive(fs[0].key);
    LeAntisymmetric(es[0].key, fs[0].key);
  }

  lemma SameMeaningTail(es: seq<Entry>)
    requires es != [] && Sorted(es) && SupportedEntries(es)
    ensures MeaningOfEntries(es[1..]) == MeaningOfEntries(es) - {es[0].key}
    ensures MeaningOfEntries(es)[es[0].key] == Meaning(es[0].value)
  {
    assert es[0].key !in Keys(es[1..]);
  }

  lemma {:induction false} LeReflexive(a: string)
    ensures Le(a, a)
  {
    if a != [] {
      LeReflexive(a[1..]);
    }
  }

  // ---------------------------------------------------------------- main results

  // What a receiver of the canonical text is told; a value that cannot be marshalled reads as null.
  function JsonOf(v: GoValue): Json {
    if Supported(v) then Meaning(v) else JNull
  }

  // The value that is printed in the end.
  function Printed(v: GoValue): (c: GoValue)
    ensures Supported(c)
  {
    if Supported(v) then Canonicalize(v) else GoNil
  }

  lemma PrintedFacts(v: GoValue)
    requires WellFormed(v)
    ensures CanonicalBytes(v) == Print(Printed(v))
    ensures Meaning(Printed(v)) == JsonOf(v) && Canonical(Printed(v)) && WellFormed(Printed(v))
  {
    if Supported(v) {
      CanonicalizeIsCanonical(v);
      CanonicalizeKeepsMeaning(v);
    }
  }

  // Equal canonical text means the same JSON value, for every order in which the maps are visited.
  lemma CanonicalBytesEqualIffSameJson(v: GoValue, w: GoValue)
    requires WellFormed(v) && WellFormed(w)
    ensures CanonicalBytes(v) == CanonicalBytes(w) <==> JsonOf(v) == JsonOf(w)
  {
    PrintedFacts(v);
    PrintedFacts(w);
    if CanonicalBytes(v) == CanonicalBytes(w) {
      PrintInjective(Printed(v), Printed(w));
    }
    if JsonOf(v) == JsonOf(w) {
      SameMeaningSameForm(Printed(v), Printed(w));
    }
  }

  // The canonical text can be read back: all of it, to a value of the same meaning with sorted keys.
  lemma CanonicalBytesReadBack(v: GoValue)
    requires WellFormed(v)
    ensures ReadValue(CanonicalBytes(v)).Some?
    ensures var (w, rest) := ReadValue(CanonicalBytes(v)).value;
            rest == [] && Supported(w) && Meaning(w) == JsonOf(v) && Canonical(w)
  {
    PrintedFacts(v);
    ReadPrint(Printed(v), []);
    assert Print(Printed(v)) + [] == Print(Printed(v));
  }

  ghost predicate Injective<A(!new), B(!new)>(f: A -> B) {
    forall x, y :: f(x) == f(y) ==> x == y
  }

  // Configs hash alike exactly when they are the same config; nil counts as the empty map.
  lemma HashEqualIffSameConfig(sha: string -> string, m: Option<seq<Entry>>, n: Option<seq<Entry>>)
    requires Injective(sha)
    requires WellFormed(Sections(m)) && WellFormed(Sections(n))
    ensures Hash(sha, m) == Hash(sha, n) <==> JsonOf(Sections(m)) == JsonOf(Sections(n))
    ensures Hash(sha, None) == Hash(sha, Some([]))
  {
    CanonicalBytesEqualIffSameJson(Sections(m), Sections(n));
  }

  // The text "null" stands for nil and for every value that cannot be marshalled, and for nothing else.
  lemma NullTextIff(v: GoValue)
    ensures CanonicalBytes(v) == "null" <==> !Supported(v) || v == GoNil
  {
    if Supported(v) && CanonicalBytes(v) == "null" {
      PrintInjective(Canonicalize(v), GoNil);
    }
  }

  // So one config with a value that cannot be marshalled hashes like every other such config, and like no
  // config that can be marshalled.
  lemma UnmarshallableHashIff(sha: string -> string, m: Option<seq<Entry>>, n: Option<seq<Entry>>)
    requires Injective(sha) && !Supported(Sections(m))
    ensures Hash(sha, m) == Hash(sha, n) <==> !Supported(Sections(n))
  {
    NullTextIff(Sections(m));
    NullTextIff(Sections(n));
  }

  lemma DifferentConfigsHashAlike(sha: string -> string)
    requires Injective(sha)
    ensures var (m, n) := ([Entry("tls", GoUnsupported)], [Entry("port", GoUnsupported)]);
            Keys(m) != Keys(n) && Hash(sha, Some(m)) == Hash(sha, Some(n))
  {
    var (m, n) := ([Entry("tls", GoUnsupported)], [Entry("port", GoUnsupported)]);
    assert Keys(m) == {"tls"} && "tls" !in Keys(n);
    UnmarshallableHashIff(sha, Some(m), Some(n));
  }
}
