/** Redaction of environment lists and nested mappings (skiff/validators.py).

    `sensitive` is the search for a sensitive word in a name; nothing is assumed of it. */
module Redaction {
  import opened Text

  type Words = string -> bool

  // A dict key with the text `str(k)` gives for it.
  datatype Key = Key(id: nat, text: string)

  datatype Value =
    | Str(s: string)
    | Scalar(id: int)           // a number, a boolean or None
    | List(items: seq<Value>)
    | Dict(entries: map<Key, Value>)

  const REDACTED := "[REDACTED]"
  const MAX_DEPTH := 10

  function Truncated(): Value { Dict(map[Key(0, "[truncated]") := Str("...")]) }

  // ---------------------------------------------------------------- NAME=VALUE lists

  predicate SensitiveEntry(entry: string, sensitive: Words) {
    EqualsAt(entry) < |entry| && sensitive(entry[..EqualsAt(entry)])
  }

  function RedactEntry(entry: string, sensitive: Words): string {
    if SensitiveEntry(entry, sensitive) then entry[..EqualsAt(entry)] + "=" + REDACTED else entry
  }

  function RedactEntries(entries: seq<string>, sensitive: Words): (r: seq<string>)
    ensures |r| == |entries|
    ensures forall i :: 0 <= i < |r| ==> r[i] == RedactEntry(entries[i], sensitive)
  {
    if entries == [] then []
    else [RedactEntry(entries[0], sensitive)] + RedactEntries(entries[1..], sensitive)
  }

  // `_redact_env`
  method RedactEnv(entries: seq<string>, sensitive: Words) returns (redacted: seq<string>)
    ensures redacted == RedactEntries(entries, sensitive)
  {
    redacted := [];
    for i := 0 to |entries|
      invariant |redacted| == i
      invariant forall j :: 0 <= j < i ==> redacted[j] == RedactEntry(entries[j], sensitive)
    {
      var entry := entries[i];
      var n := EqualsAt(entry);
      if n < |entry| && sensitive(entry[..n]) {
        redacted := redacted + [entry[..n] + "=" + REDACTED];
      } else {
        redacted := redacted + [entry];
      }
    }
  }

  // ---------------------------------------------------------------- nested mappings

  predicate AllStrings(items: seq<Value>) { forall i :: 0 <= i < |items| ==> items[i].Str? }

  function Texts(items: seq<Value>): (r: seq<string>)
    requires AllStrings(items)
    ensures |r| == |items| && forall i :: 0 <= i < |r| ==> r[i] == items[i].s
  {
    if items == [] then [] else [items[0].s] + Texts(items[1..])
  }

  function Strs(texts: seq<string>): (r: seq<Value>)
    ensures |r| == |texts| && AllStrings(r) && forall i :: 0 <= i < |r| ==> r[i].s == texts[i]
  {
    if texts == [] then [] else [Str(texts[0])] + Strs(texts[1..])
  }

  function RedactList(items: seq<Value>, sensitive: Words): seq<Value>
    requires AllStrings(items)
  {
    Strs(RedactEntries(Texts(items), sensitive))
  }

  // `_redact_value`
  function RedactValue(k: Key, v: Value, depth: nat, sensitive: Words): Value
    decreases v, 1
  {
    if sensitive(k.text) then Str(REDACTED)
    else match v
         case Dict(_) => RedactDict(v, depth + 1, sensitive)
         case List(items) =>
           if AllStrings(items) then List(RedactList(items, sensitive)) else v
         case _ => v
  }

  // `_redact_dict`
  function RedactDict(d: Value, depth: nat, sensitive: Words): Value
    requires d.Dict?
    decreases d, 0
  {
    if depth > MAX_DEPTH then Truncated()
    else Dict(map k | k in d.entries :: RedactValue(k, d.entries[k], depth, sensitive))
  }

  // ---------------------------------------------------------------- what may differ

  // The same text, or two values of one sensitive name.
  predicate SameEntry(a: string, b: string, sensitive: Words) {
    a == b ||
    (SensitiveEntry(a, sensitive) && SensitiveEntry(b, sensitive) && a[..EqualsAt(a)] == b[..EqualsAt(b)])
  }

  // `a` and `b`, both under key `k`, differ only in what redaction is meant to hide.
  predicate SameButSecrets(k: Key, a: Value, b: Value, depth: nat, sensitive: Words)
    decreases a, 1
  {
    || sensitive(k.text)
    || (a.Dict? && b.Dict? && SameDicts(a, b, depth + 1, sensitive))
    || (a.List? && b.List? && AllStrings(a.items) && AllStrings(b.items) && |a.items| == |b.items| &&
        forall i :: 0 <= i < |a.items| ==> SameEntry(a.items[i].s, b.items[i].s, sensitive))
    || (a == b && !a.Dict?)
  }

  predicate SameDicts(a: Value, b: Value, depth: nat, sensitive: Words)
    requires a.Dict? && b.Dict?
    decreases a, 0
  {
    depth > MAX_DEPTH ||
    (a.entries.Keys == b.entries.Keys &&
     forall k :: k in a.entries ==> SameButSecrets(k, a.entries[k], b.entries[k], depth, sensitive))
  }

  // ---------------------------------------------------------------- entries

  // A redacted entry keeps its name.
  lemma {:induction false} RedactedName(entry: string, sensitive: Words)
    requires SensitiveEntry(entry, sensitive)
    ensures var r := RedactEntry(entry, sensitive);
            EqualsAt(r) == EqualsAt(entry) && EqualsAt(r) < |r| && r[..EqualsAt(r)] == entry[..EqualsAt(entry)]
  {
    var r, n := RedactEntry(entry, sensitive), EqualsAt(entry);
    assert r[n] == '=' && r[..n] == entry[..n];
    FirstEquals(r, n);
  }

  // An entry shows everything but the value of a sensitive name.
  lemma EntryNoninterference(a: string, b: string, sensitive: Words)
    ensures RedactEntry(a, sensitive) == RedactEntry(b, sensitive) <==> SameEntry(a, b, sensitive)
  {
    if SensitiveEntry(a, sensitive) { RedactedName(a, sensitive); }
    if SensitiveEntry(b, sensitive) { RedactedName(b, sensitive); }
  }

  // What becomes of an entry: the value after a sensitive name goes, all else stays.
  lemma EntryMeans(name: string, value: string, sensitive: Words)
    requires '=' !in name
    ensures RedactEntry(name + "=" + value, sensitive) ==
            if sensitive(name) then name + "=[REDACTED]" else name + "=" + value
    ensures RedactEntry(name, sensitive) == name
  {
    var entry := name + "=" + value;
    assert entry[..|name|] == name;
    FirstEquals(entry, |name|);
    assert name + "=" + REDACTED == name + "=[REDACTED]";
  }

  lemma EntryIdempotent(entry: string, sensitive: Words)
    ensures RedactEntry(RedactEntry(entry, sensitive), sensitive) == RedactEntry(entry, sensitive)
  {
    if SensitiveEntry(entry, sensitive) { RedactedName(entry, sensitive); }
  }

  // ---------------------------------------------------------------- noninterference

  lemma ListNoninterference(a: seq<Value>, b: seq<Value>, sensitive: Words)
    requires AllStrings(a) && AllStrings(b)
    ensures RedactList(a, sensitive) == RedactList(b, sensitive) <==>
            |a| == |b| && forall i :: 0 <= i < |a| ==> SameEntry(a[i].s, b[i].s, sensitive)
  {
    var ra, rb := RedactList(a, sensitive), RedactList(b, sensitive);
    forall i | 0 <= i < |a| && i < |b|
      ensures ra[i] == rb[i] <==> SameEntry(a[i].s, b[i].s, sensitive)
    {
      EntryNoninterference(a[i].s, b[i].s, sensitive);
    }
  }

  lemma {:induction false} ValueNoninterference(k: Key, a: Value, b: Value, depth: nat, sensitive: Words)
    ensures RedactValue(k, a, depth, sensitive) == RedactValue(k, b, depth, sensitive)
            <==> SameButSecrets(k, a, b, depth, sensitive)
    decreases a, 1
  {
    if !sensitive(k.text) {
      if a.Dict? && b.Dict? {
        DictNoninterference(a, b, depth + 1, sensitive);
      } else if a.List? && b.List? && AllStrings(a.items) && AllStrings(b.items) {
        ListNoninterference(a.items, b.items, sensitive);
      }
    }
  }

  // Two mappings redact to the same result exactly when they differ only under
  // sensitive keys, in the values of sensitive NAME=VALUE entries, or in what lies
  // deeper than the cut.
  lemma {:induction false} DictNoninterference(a: Value, b: Value, depth: nat, sensitive: Words)
    requires a.Dict? && b.Dict?
    ensures RedactDict(a, depth, sensitive) == RedactDict(b, depth, sensitive)
            <==> SameDicts(a, b, depth, sensitive)
    decreases a, 0
  {
    if depth <= MAX_DEPTH {
      var ra, rb := RedactDict(a, depth, sensitive).entries, RedactDict(b, depth, sensitive).entries;
      assert ra.Keys == a.entries.Keys && rb.Keys == b.entries.Keys;
      forall k | k in a.entries && k in b.entries
        ensures ra[k] == rb[k] <==> SameButSecrets(k, a.entries[k], b.entries[k], depth, sensitive)
      {
        ValueNoninterference(k, a.entries[k], b.entries[k], depth, sensitive);
      }
      if a.entries.Keys == b.entries.Keys && (forall k :: k in a.entries ==> ra[k] == rb[k]) {
        assert ra == rb;
      }
    }
  }

  // ---------------------------------------------------------------- shape of the result

  lemma ListIdempotent(items: seq<Value>, sensitive: Words)
    requires AllStrings(items)
    ensures RedactList(RedactList(items, sensitive), sensitive) == RedactList(items, sensitive)
  {
    var r := RedactList(items, sensitive);
    forall i | 0 <= i < |items| ensures RedactList(r, sensitive)[i] == r[i] {
      EntryIdempotent(items[i].s, sensitive);
    }
  }

  lemma {:induction false} ValueIdempotent(k: Key, v: Value, depth: nat, sensitive: Words)
    ensures var r := RedactValue(k, v, depth, sensitive);
            RedactValue(k, r, depth, sensitive) == r
    decreases v, 1
  {
    if !sensitive(k.text) {
      match v
      case Dict(_) => DictIdempotent(v, depth + 1, sensitive);
      case List(items) => if AllStrings(items) { ListIdempotent(items, sensitive); }
      case _ =>
    }
  }

  // Redacting again changes nothing.
  lemma {:induction false} DictIdempotent(d: Value, depth: nat, sensitive: Words)
    requires d.Dict?
    ensures RedactDict(d, depth, sensitive).Dict?
    ensures RedactDict(RedactDict(d, depth, sensitive), depth, sensitive) == RedactDict(d, depth, sensitive)
    decreases d, 0
  {
    if depth <= MAX_DEPTH {
      var r := RedactDict(d, depth, sensitive);
      forall k | k in d.entries
        ensures RedactValue(k, r.entries[k], depth, sensitive) == r.entries[k]
      {
        ValueIdempotent(k, d.entries[k], depth, sensitive);
      }
    }
  }

  // A mapping that is not cut off keeps its keys; what its sensitive keys held is gone.
  lemma {:induction false} KeysKept(d: Value, depth: nat, sensitive: Words)
    requires d.Dict? && depth <= 10
    ensures var r := RedactDict(d, depth, sensitive);
            && r.Dict? && r.entries.Keys == d.entries.Keys
            && forall k :: k in r.entries && sensitive(k.text) ==> r.entries[k] == Str("[REDACTED]")
  {
  }

  // Under a harmless key texts and numbers stay, and a list of texts is redacted text by text.
  lemma HarmlessKept(d: Value, depth: nat, k: Key, sensitive: Words)
    requires d.Dict? && depth <= 10 && k in d.entries && !sensitive(k.text)
    ensures RedactDict(d, depth, sensitive).Dict? && k in RedactDict(d, depth, sensitive).entries
    ensures var v, r := d.entries[k], RedactDict(d, depth, sensitive).entries[k];
            && (v.Str? || v.Scalar? ==> r == v)
            && (v.List? && (exists i :: 0 <= i < |v.items| && !v.items[i].Str?) ==> r == v)
            && (v.List? && (forall i :: 0 <= i < |v.items| ==> v.items[i].Str?) ==>
                  && r.List? && |r.items| == |v.items|
                  && forall i :: 0 <= i < |v.items| ==> r.items[i] == Str(RedactEntry(v.items[i].s, sensitive)))
            && (v.Dict? ==> r == RedactDict(v, depth + 1, sensitive))
  {
  }

  // Beyond ten levels a mapping is replaced as a whole.
  lemma DeepIsCut(d: Value, depth: nat, sensitive: Words)
    requires d.Dict? && depth > 10
    ensures RedactDict(d, depth, sensitive) == Dict(map[Key(0, "[truncated]") := Str("...")])
  {
  }

  // `v` is at most `n` mappings deep, not counting what sits inside lists.
  predicate NestsWithin(v: Value, n: nat)
    decreases v
  {
    v.Dict? ==> n > 0 && forall k :: k in v.entries ==> NestsWithin(v.entries[k], n - 1)
  }

  function Levels(depth: nat): nat { if depth > MAX_DEPTH then 1 else MAX_DEPTH + 2 - depth }

  lemma {:induction false} ValueNesting(k: Key, v: Value, depth: nat, sensitive: Words)
    ensures NestsWithin(RedactValue(k, v, depth, sensitive), Levels(depth + 1))
    decreases v, 1
  {
    if v.Dict? && !sensitive(k.text) { DictNesting(v, depth + 1, sensitive); }
  }

  // The result of `_redact_dict(d)` is at most 12 mappings deep.
  lemma {:induction false} DictNesting(d: Value, depth: nat, sensitive: Words)
    requires d.Dict?
    ensures NestsWithin(RedactDict(d, depth, sensitive), Levels(depth))
    decreases d, 0
  {
    if depth <= MAX_DEPTH {
      var r := RedactDict(d, depth, sensitive);
      forall k | k in r.entries ensures NestsWithin(r.entries[k], Levels(depth) - 1) {
        ValueNesting(k, d.entries[k], depth, sensitive);
      }
    }
  }

  // Under a harmless key a list is redacted entry by entry if all its items are strings,
  // and not at all otherwise: a secret next to a number stays readable.
  lemma {:induction false} MixedListStaysReadable(k: Key, secret: string, sensitive: Words)
    requires !sensitive(k.text) && sensitive("PASSWORD")
    ensures var entry := Str("PASSWORD=" + secret);
            && RedactValue(k, List([entry, Scalar(1)]), 0, sensitive) == List([entry, Scalar(1)])
            && RedactValue(k, List([entry]), 0, sensitive) == List([Str("PASSWORD=[REDACTED]")])
  {
    var entry := "PASSWORD=" + secret;
    assert entry[8] == '=' && entry[..8] == "PASSWORD";
    FirstEquals(entry, 8);
    assert !AllStrings([Str(entry), Scalar(1)]) by { assert [Str(entry), Scalar(1)][1] == Scalar(1); }
    assert RedactEntry(entry, sensitive) == "PASSWORD=[REDACTED]";
    assert RedactList([Str(entry)], sensitive) == [Str("PASSWORD=[REDACTED]")];
  }
}
