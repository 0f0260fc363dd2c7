/** The audit event tables of skiff/logging_setup.py: registration from the routes, and
    the choice of the label for a request. */
module AuditEvents {
  import opened Text
  import opened PathTemplate

  // A leaf route; `audit` is the event its decorator declared, if any.
  datatype Route = Route(path: string, methods: seq<string>, audit: Option<string>)

  datatype Entry = Entry(verb: string, parts: seq<string>, event: string)

  datatype PrefixEntry = PrefixEntry(verb: string, prefix: string, event: string)

  const FALLBACK := "api.request"

  // Length that `re.escape` gives one character.
  function EscapedLength(c: char): nat {
    if c in "()[]{}?*+-|^$\\.&~# \t\n\r\U{B}\U{C}" then 2 else 1
  }

  function TextLength(s: string): nat {
    if s == [] then 0 else EscapedLength(s[0]) + TextLength(s[1..])
  }

  // Length of the literal parts joined by `[^/]+`, five characters each.
  function PartsLength(parts: seq<string>): nat
    requires parts != []
  {
    if |parts| == 1 then TextLength(parts[0]) else TextLength(parts[0]) + 5 + PartsLength(parts[1..])
  }

  // `len(pattern)`, with the anchors.
  function PatternLength(e: Entry): nat { if e.parts == [] then 2 else 2 + PartsLength(e.parts) }

  // What `re.escape` makes of a text.
  function Escaped(s: string): string {
    if s == [] then [] else (if EscapedLength(s[0]) == 2 then ['\\', s[0]] else [s[0]]) + Escaped(s[1..])
  }

  // The pattern between its anchors.
  function Pattern(parts: seq<string>): string
    requires parts != []
  {
    if |parts| == 1 then Escaped(parts[0]) else Escaped(parts[0]) + "[^/]+" + Pattern(parts[1..])
  }

  lemma {:induction false} TextLengthIsLength(s: string)
    ensures TextLength(s) == |Escaped(s)|
  {
    if s != [] { TextLengthIsLength(s[1..]); }
  }

  lemma {:induction false} PartsLengthIsLength(parts: seq<string>)
    requires parts != []
    ensures PartsLength(parts) == |Pattern(parts)|
  {
    TextLengthIsLength(parts[0]);
    if |parts| > 1 { PartsLengthIsLength(parts[1..]); }
  }

  // The sort key is the length of the pattern as it is written.
  lemma {:induction false} PatternLengthIsLength(e: Entry)
    requires e.parts != []
    ensures PatternLength(e) == |"^" + Pattern(e.parts) + "$"|
  {
    PartsLengthIsLength(e.parts);
  }

  // ---------------------------------------------------------------- registration

  function EntriesOf(r: Route): seq<Entry> {
    if r.audit.None? || r.audit.value == "" || r.path == "" then []
    else WithMethods(if r.methods == [] then ["*"] else r.methods, SplitTemplate(r.path), r.audit.value)
  }

  function WithMethods(methods: seq<string>, parts: seq<string>, event: string): seq<Entry> {
    if methods == [] then []
    else [Entry(methods[0], parts, event)] + WithMethods(methods[1..], parts, event)
  }

  function AllEntries(routes: seq<Route>): seq<Entry> {
    if routes == [] then [] else AllEntries(routes[..|routes| - 1]) + EntriesOf(routes[|routes| - 1])
  }

  lemma {:induction false} WithMethodsMeans(methods: seq<string>, parts: seq<string>, event: string)
    ensures |WithMethods(methods, parts, event)| == |methods|
    ensures forall i :: 0 <= i < |methods| ==> WithMethods(methods, parts, event)[i] == Entry(methods[i], parts, event)
  {
    if methods != [] { WithMethodsMeans(methods[1..], parts, event); }
  }

  // A route that declares an event and has a path registers it once for each of its methods,
  // or once for any method if it names none; another route registers nothing.
  lemma {:induction false} EntriesOfRoute(r: Route)
    ensures r.audit in {None, Some("")} || r.path == "" ==> EntriesOf(r) == []
    ensures r.audit !in {None, Some("")} && r.path != "" ==>
              && |EntriesOf(r)| == (if r.methods == [] then 1 else |r.methods|)
              && forall i :: 0 <= i < |EntriesOf(r)| ==>
                   EntriesOf(r)[i] ==
                   Entry(if r.methods == [] then "*" else r.methods[i], SplitTemplate(r.path), r.audit.value)
  {
    if r.audit.Some? { WithMethodsMeans(if r.methods == [] then ["*"] else r.methods, SplitTemplate(r.path), r.audit.value); }
  }

  lemma OneMoreRoute(routes: seq<Route>, r: Route)
    ensures AllEntries(routes + [r]) == AllEntries(routes) + EntriesOf(r)
  {
    assert (routes + [r])[..|routes|] == routes;
  }

  lemma Regroup(a: seq<Entry>, b: seq<Entry>, c: seq<Entry>)
    ensures (a + b) + c == a + (b + c)
  {
  }

  lemma SplitLast(routes: seq<Route>) returns (before: seq<Route>, r: Route)
    requires routes != []
    ensures routes == before + [r] && |before| == |routes| - 1
  {
    before, r := routes[..|routes| - 1], routes[|routes| - 1];
  }

  lemma {:induction false} OneRoute(r: Route)
    ensures AllEntries([r]) == EntriesOf(r)
  {
    assert [r] == [] + [r];
    OneMoreRoute([], r);
  }

  // The entries of all routes, in the order of the routes.
  lemma {:induction false} EntriesInOrder(first: seq<Route>, others: seq<Route>)
    ensures AllEntries(first + others) == AllEntries(first) + AllEntries(others)
    decreases |others|
  {
    if others == [] {
      assert first + others == first;
    } else {
      var before, r := SplitLast(others);
      EntriesInOrder(first, before);
      OneMoreRoute(before, r);
      OneMoreRoute(first + before, r);
      assert first + others == first + before + [r];
      Regroup(AllEntries(first), AllEntries(before), EntriesOf(r));
    }
  }

  // Longest pattern first; an entry goes in front of those of its own length.
  function Insert(e: Entry, table: seq<Entry>): (r: seq<Entry>)
    ensures |r| == |table| + 1
  {
    if table == [] || PatternLength(e) >= PatternLength(table[0]) then [e] + table
    else [table[0]] + Insert(e, table[1..])
  }

  // `derived.sort(key=lambda t: -len(t[1].pattern))`, a stable sort.
  function SortByLength(entries: seq<Entry>): (table: seq<Entry>)
    ensures |table| == |entries|
  {
    if entries == [] then [] else Insert(entries[0], SortByLength(entries[1..]))
  }

  predicate LongestFirst(table: seq<Entry>) {
    forall i, j :: 0 <= i < j < |table| ==> PatternLength(table[i]) >= PatternLength(table[j])
  }

  // The entries of one pattern length, in table order.
  function OfLength(table: seq<Entry>, n: nat): seq<Entry> {
    if table == [] then [] else IfLength(table[0], n) + OfLength(table[1..], n)
  }

  function IfLength(e: Entry, n: nat): seq<Entry> { if PatternLength(e) == n then [e] else [] }

  lemma {:induction false} InsertContents(e: Entry, table: seq<Entry>)
    ensures multiset(Insert(e, table)) == multiset(table) + multiset{e}
  {
    if table != [] && PatternLength(e) < PatternLength(table[0]) {
      InsertContents(e, table[1..]);
      assert table == [table[0]] + table[1..];
    }
  }

  predicate NoneLonger(table: seq<Entry>, n: nat) {
    forall i :: 0 <= i < |table| ==> PatternLength(table[i]) <= n
  }

  lemma {:induction false} InsertKeepsBound(e: Entry, table: seq<Entry>, n: nat)
    requires NoneLonger(table, n) && PatternLength(e) <= n
    ensures NoneLonger(Insert(e, table), n)
  {
    if table != [] && PatternLength(e) < PatternLength(table[0]) { InsertKeepsBound(e, table[1..], n); }
  }

  lemma PrependSorts(e: Entry, table: seq<Entry>)
    requires LongestFirst(table) && NoneLonger(table, PatternLength(e))
    ensures LongestFirst([e] + table)
  {
  }

  lemma {:induction false} InsertSorts(e: Entry, table: seq<Entry>)
    requires LongestFirst(table)
    ensures LongestFirst(Insert(e, table))
  {
    if table != [] && PatternLength(e) < PatternLength(table[0]) {
      InsertSorts(e, table[1..]);
      InsertKeepsBound(e, table[1..], PatternLength(table[0]));
      PrependSorts(table[0], Insert(e, table[1..]));
    } else {
      PrependSorts(e, table);
    }
  }

  lemma OfLengthPrepend(e: Entry, table: seq<Entry>, n: nat)
    ensures OfLength([e] + table, n) == IfLength(e, n) + OfLength(table, n)
  {
    assert ([e] + table)[1..] == table;
  }

  lemma {:induction false} InsertKeepsOrder(e: Entry, table: seq<Entry>, n: nat)
    ensures OfLength(Insert(e, table), n) == IfLength(e, n) + OfLength(table, n)
  {
    if table != [] && PatternLength(e) < PatternLength(table[0]) {
      var rest := OfLength(table[1..], n);
      InsertKeepsOrder(e, table[1..], n);
      OfLengthPrepend(table[0], Insert(e, table[1..]), n);
      assert IfLength(table[0], n) + (IfLength(e, n) + rest) == IfLength(e, n) + (IfLength(table[0], n) + rest);
    } else {
      OfLengthPrepend(e, table, n);
    }
  }

  lemma {:induction false} SortSorts(entries: seq<Entry>)
    ensures LongestFirst(SortByLength(entries))
  {
    if entries != [] {
      SortSorts(entries[1..]);
      InsertSorts(entries[0], SortByLength(entries[1..]));
    }
  }

  lemma FirstAndRest(entries: seq<Entry>)
    requires entries != []
    ensures multiset(entries) == multiset(entries[1..]) + multiset{entries[0]}
  {
    assert entries == [entries[0]] + entries[1..];
  }

  lemma {:induction false} SortContents(entries: seq<Entry>)
    ensures multiset(SortByLength(entries)) == multiset(entries)
  {
    if entries != [] {
      SortContents(entries[1..]);
      InsertContents(entries[0], SortByLength(entries[1..]));
      FirstAndRest(entries);
    }
  }

  lemma {:induction false} SortKeepsOrder(entries: seq<Entry>, n: nat)
    ensures OfLength(SortByLength(entries), n) == OfLength(entries, n)
  {
    if entries != [] {
      SortKeepsOrder(entries[1..], n);
      InsertKeepsOrder(entries[0], SortByLength(entries[1..]), n);
    }
  }

  // The sort orders by decreasing pattern length, keeps every entry, and keeps entries
  // of one length in the order of registration.
  lemma {:induction false} SortIsStable(entries: seq<Entry>, n: nat)
    ensures LongestFirst(SortByLength(entries))
    ensures multiset(SortByLength(entries)) == multiset(entries)
    ensures OfLength(SortByLength(entries), n) == OfLength(entries, n)
  {
    SortSorts(entries);
    SortContents(entries);
    SortKeepsOrder(entries, n);
  }

  // ---------------------------------------------------------------- the order of trial

  // Where `e` goes: behind all that are longer.
  function InsertAt(e: Entry, table: seq<Entry>): (k: nat)
    ensures k <= |table|
  {
    if table == [] || PatternLength(e) >= PatternLength(table[0]) then 0 else 1 + InsertAt(e, table[1..])
  }

  // Where the i-th registered entry stands in the sorted table.
  function Place(entries: seq<Entry>, i: nat): (k: nat)
    requires i < |entries|
    ensures k < |entries|
  {
    var at := InsertAt(entries[0], SortByLength(entries[1..]));
    if i == 0 then at
    else
      var k := Place(entries[1..], i - 1);
      if k < at then k else k + 1
  }

  lemma {:induction false} InsertedAt(e: Entry, table: seq<Entry>)
    ensures Insert(e, table)[InsertAt(e, table)] == e
  {
    if table != [] && PatternLength(e) < PatternLength(table[0]) { InsertedAt(e, table[1..]); }
  }

  lemma {:induction false} InsertShifts(e: Entry, table: seq<Entry>, k: nat)
    requires k < |table|
    ensures Insert(e, table)[if k < InsertAt(e, table) then k else k + 1] == table[k]
  {
    if k > 0 && PatternLength(e) < PatternLength(table[0]) { InsertShifts(e, table[1..], k - 1); }
  }

  lemma {:induction false} InsertAtSplits(e: Entry, table: seq<Entry>, k: nat)
    requires LongestFirst(table) && k < |table|
    ensures k < InsertAt(e, table) <==> PatternLength(table[k]) > PatternLength(e)
  {
    if k > 0 && PatternLength(e) < PatternLength(table[0]) { InsertAtSplits(e, table[1..], k - 1); }
  }

  lemma {:induction false} PlaceHolds(entries: seq<Entry>, i: nat)
    requires i < |entries|
    ensures SortByLength(entries)[Place(entries, i)] == entries[i]
  {
    var rest := SortByLength(entries[1..]);
    if i == 0 {
      InsertedAt(entries[0], rest);
    } else {
      PlaceHolds(entries[1..], i - 1);
      InsertShifts(entries[0], rest, Place(entries[1..], i - 1));
    }
  }

  lemma {:induction false} FirstsPlace(entries: seq<Entry>, j: nat)
    requires 0 < j < |entries|
    ensures Place(entries, 0) != Place(entries, j)
    ensures Place(entries, j) < Place(entries, 0) <==> PatternLength(entries[j]) > PatternLength(entries[0])
  {
    SortSorts(entries[1..]);
    PlaceHolds(entries[1..], j - 1);
    InsertAtSplits(entries[0], SortByLength(entries[1..]), Place(entries[1..], j - 1));
  }

  // The later of two entries is tried first exactly if its pattern is the longer one.
  lemma {:induction false} PlaceOrder(entries: seq<Entry>, i: nat, j: nat)
    requires i < j < |entries|
    ensures Place(entries, i) != Place(entries, j)
    ensures Place(entries, j) < Place(entries, i) <==> PatternLength(entries[j]) > PatternLength(entries[i])
  {
    if i == 0 {
      FirstsPlace(entries, j);
    } else {
      PlaceOrder(entries[1..], i - 1, j - 1);
    }
  }

  // The i-th pattern is longer than the j-th, or as long and registered earlier.
  predicate TriedBefore(entries: seq<Entry>, i: nat, j: nat)
    requires i < |entries| && j < |entries|
  {
    || PatternLength(entries[i]) > PatternLength(entries[j])
    || (PatternLength(entries[i]) == PatternLength(entries[j]) && i < j)
  }

  // The sorted table has entry i before entry j exactly then.
  lemma {:induction false} TrialOrder(entries: seq<Entry>, i: nat, j: nat)
    requires i < |entries| && j < |entries| && i != j
    ensures SortByLength(entries)[Place(entries, i)] == entries[i]
    ensures SortByLength(entries)[Place(entries, j)] == entries[j]
    ensures Place(entries, i) != Place(entries, j)
    ensures Place(entries, i) < Place(entries, j) <==> TriedBefore(entries, i, j)
  {
    PlaceHolds(entries, i);
    PlaceHolds(entries, j);
    PlaceOrder(entries, if i < j then i else j, if i < j then j else i);
  }

  // ---------------------------------------------------------------- choosing a label

  predicate Hits(e: Entry, verb: string, path: string) {
    (e.verb == "*" || e.verb == verb) && e.parts != [] && Matches(e.parts, path)
  }

  predicate HitsPrefix(e: PrefixEntry, verb: string, path: string) {
    (e.verb == "*" || e.verb == verb) && e.prefix <= path
  }

  // The event is that of an entry with the method of the request, or with any, whose pattern
  // matches the path.
  ghost predicate FromRoute(table: seq<Entry>, verb: string, path: string, event: string) {
    exists k :: 0 <= k < |table| && table[k].event == event
                && table[k].verb in {"*", verb} && table[k].parts != [] && Matches(table[k].parts, path)
  }

  ghost predicate NoRoute(table: seq<Entry>, verb: string, path: string) {
    forall k :: 0 <= k < |table| && table[k].verb in {"*", verb} && table[k].parts != [] ==>
                  !Matches(table[k].parts, path)
  }

  ghost predicate FromPrefix(table: seq<PrefixEntry>, verb: string, path: string, event: string) {
    exists k :: 0 <= k < |table| && table[k].event == event && table[k].verb in {"*", verb} && table[k].prefix <= path
  }

  ghost predicate NoPrefix(table: seq<PrefixEntry>, verb: string, path: string) {
    forall k :: 0 <= k < |table| && table[k].verb in {"*", verb} ==> !(table[k].prefix <= path)
  }

  // The entry of a template hits exactly the requests with its method whose path it accepts.
  lemma TemplateHits(segs: seq<Segment>, own: string, event: string, verb: string, path: string)
    requires AllWellFormed(segs)
    ensures Hits(Entry(own, Parts(segs), event), verb, path) <==> own in {"*", verb} && Accepts(segs, path)
  {
    PartsMatchSegments(segs, path);
  }

  // Entry k of the table is the first that hits.
  predicate Decides(table: seq<Entry>, verb: string, path: string, k: nat) {
    k < |table| && Hits(table[k], verb, path) && forall j :: 0 <= j < k ==> !Hits(table[j], verb, path)
  }

  lemma OnlyOneDecides(table: seq<Entry>, verb: string, path: string, i: nat)
    requires Decides(table, verb, path, i)
    ensures forall k: nat :: Decides(table, verb, path, k) ==> k == i
  {
  }

  class Classifier {
    const prefixes: seq<PrefixEntry>  // `_AUDIT_EVENT_MAP`
    var regexes: seq<Entry>           // `_AUDIT_EVENT_REGEXES`

    constructor (prefixes: seq<PrefixEntry>)
      ensures this.prefixes == prefixes && regexes == []
    {
      this.prefixes := prefixes;
      regexes := [];
    }

    method RegisterRouteAuditEvents(routes: seq<Route>)
      modifies this
      ensures regexes == SortByLength(AllEntries(routes))
    {
      var derived: seq<Entry> := [];
      for i := 0 to |routes|
        invariant derived == AllEntries(routes[..i])
      {
        var r := routes[i];
        assert routes[..i + 1][..i] == routes[..i];
        if r.audit.None? || r.audit.value == "" {
          continue;
        }
        if r.path == "" {
          continue;
        }
        var parts := SplitTemplate(r.path);
        var methods := if r.methods == [] then ["*"] else r.methods;
        derived := derived + WithMethods(methods, parts, r.audit.value);
      }
      assert routes[..|routes|] == routes;
      regexes := SortByLength(derived);
    }

    // The first entry that hits decides; the prefix table only if no route entry hits.
    method MatchAuditEvent(verb: string, path: string) returns (event: string)
      ensures FromRoute(regexes, verb, path, event)
              || (NoRoute(regexes, verb, path) && FromPrefix(prefixes, verb, path, event))
              || (NoRoute(regexes, verb, path) && NoPrefix(prefixes, verb, path) && event == "api.request")
      ensures forall k: nat :: Decides(regexes, verb, path, k) ==> event == regexes[k].event
      ensures (forall j :: 0 <= j < |regexes| ==> !Hits(regexes[j], verb, path)) ==>
                && (forall i :: 0 <= i < |prefixes| && HitsPrefix(prefixes[i], verb, path)
                            && (forall j :: 0 <= j < i ==> !HitsPrefix(prefixes[j], verb, path))
                      ==> event == prefixes[i].event)
                && ((forall j :: 0 <= j < |prefixes| ==> !HitsPrefix(prefixes[j], verb, path)) ==> event == FALLBACK)
    {
      for i := 0 to |regexes|
        invariant forall j :: 0 <= j < i ==> !Hits(regexes[j], verb, path)
      {
        if Hits(regexes[i], verb, path) {
          OnlyOneDecides(regexes, verb, path, i);
          return regexes[i].event;
        }
      }
      for i := 0 to |prefixes|
        invariant forall j :: 0 <= j < i ==> !HitsPrefix(prefixes[j], verb, path)
      {
        if HitsPrefix(prefixes[i], verb, path) {
          return prefixes[i].event;
        }
      }
      return FALLBACK;
    }
  }

  // In a registered table the first entry that hits has the longest pattern of all the
  // entries that do.
  lemma {:induction false} FirstHitIsLongest(routes: seq<Route>, verb: string, path: string, k: nat, e: Entry)
    requires Decides(SortByLength(AllEntries(routes)), verb, path, k)
    requires e in AllEntries(routes) && Hits(e, verb, path)
    ensures SortByLength(AllEntries(routes))[k] in AllEntries(routes)
    ensures PatternLength(SortByLength(AllEntries(routes))[k]) >= PatternLength(e)
  {
    var all, table := AllEntries(routes), SortByLength(AllEntries(routes));
    SortIsStable(all, 0);
    assert table[k] in multiset(table) && e in multiset(all);
    assert e in table && table[k] in all;
    var j :| 0 <= j < |table| && table[j] == e;
  }

  lemma {:induction false} PlaceOnto(entries: seq<Entry>, k: nat) returns (i: nat)
    requires k < |entries|
    ensures i < |entries| && Place(entries, i) == k
  {
    var at := InsertAt(entries[0], SortByLength(entries[1..]));
    if k == at {
      i := 0;
    } else {
      var j := PlaceOnto(entries[1..], if k < at then k else k - 1);
      i := j + 1;
    }
  }

  lemma {:induction false} DeciderIsBefore(entries: seq<Entry>, verb: string, path: string, i: nat, j: nat)
    requires i < |entries| && j < |entries| && i != j
    requires Decides(SortByLength(entries), verb, path, Place(entries, i)) && Hits(entries[j], verb, path)
    ensures TriedBefore(entries, i, j)
  {
    TrialOrder(entries, i, j);
  }

  // Entry i hits, and is tried before every other entry that does.
  predicate FirstOfHits(entries: seq<Entry>, verb: string, path: string, i: nat)
    requires i < |entries|
  {
    && Hits(entries[i], verb, path)
    && forall j :: 0 <= j < |entries| && j != i && Hits(entries[j], verb, path) ==> TriedBefore(entries, i, j)
  }

  lemma {:induction false} FirstOfHitsAt(entries: seq<Entry>, verb: string, path: string, i: nat, k: nat)
    requires i < |entries| && FirstOfHits(entries, verb, path, i) && k < Place(entries, i)
    ensures !Hits(SortByLength(entries)[k], verb, path)
  {
    var j := PlaceOnto(entries, k);
    TrialOrder(entries, i, j);
  }

  // Which registered entry decides: the one with the longest pattern of those that hit, and
  // of several as long the one registered first.
  lemma {:induction false} WhoDecides(entries: seq<Entry>, verb: string, path: string, i: nat)
    requires i < |entries|
    ensures SortByLength(entries)[Place(entries, i)] == entries[i]
    ensures Decides(SortByLength(entries), verb, path, Place(entries, i)) <==> FirstOfHits(entries, verb, path, i)
  {
    var table, at := SortByLength(entries), Place(entries, i);
    PlaceHolds(entries, i);
    if Decides(table, verb, path, at) {
      forall j | 0 <= j < |entries| && j != i && Hits(entries[j], verb, path) ensures TriedBefore(entries, i, j) {
        DeciderIsBefore(entries, verb, path, i, j);
      }
    } else if FirstOfHits(entries, verb, path, i) {
      forall k | 0 <= k < at ensures !Hits(table[k], verb, path) { FirstOfHitsAt(entries, verb, path, i, k); }
    }
  }

  // ---------------------------------------------------------------- longest is not most specific

  function SegmentLength(seg: Segment): nat {
    match seg case Literal(text) => TextLength(text) case Placeholder(_) => 5
  }

  function SegmentsLength(segs: seq<Segment>): nat
    requires segs != []
  {
    SegmentLength(segs[0]) + if |segs| == 1 then 0 else 1 + SegmentsLength(segs[1..])
  }

  lemma {:induction false} TextLengthConcat(a: string, b: string)
    ensures TextLength(a + b) == TextLength(a) + TextLength(b)
  {
    if a == [] {
      assert a + b == b;
    } else {
      assert (a + b)[1..] == a[1..] + b;
      TextLengthConcat(a[1..], b);
    }
  }

  lemma {:induction false} PrependLength(text: string, parts: seq<string>)
    requires parts != []
    ensures PartsLength(PrependToFirst(text, parts)) == TextLength(text) + PartsLength(parts)
  {
    TextLengthConcat(text, parts[0]);
    assert PrependToFirst(text, parts)[1..] == parts[1..];
  }

  // The parts of a segment, put in front of those of the rest.
  function InFront(seg: Segment, rest: seq<string>): seq<string>
    requires rest != []
  {
    match seg case Literal(text) => PrependToFirst(text, rest) case Placeholder(_) => [[]] + rest
  }

  lemma {:induction false} InFrontLength(seg: Segment, rest: seq<string>)
    requires rest != []
    ensures PartsLength(InFront(seg, rest)) == SegmentLength(seg) + PartsLength(rest)
  {
    match seg
    case Literal(text) => PrependLength(text, rest);
    case Placeholder(_) => assert ([[]] + rest)[1..] == rest;
  }

  // The parts that follow the first segment, with the slash between.
  function PartsAfter(segs: seq<Segment>): (rest: seq<string>)
    requires segs != []
    ensures rest != []
  {
    if |segs| == 1 then [[]] else PrependToFirst("/", Parts(segs[1..]))
  }

  lemma {:induction false} PartsAreInFront(segs: seq<Segment>)
    requires segs != []
    ensures Parts(segs) == InFront(segs[0], PartsAfter(segs))
  {
  }

  lemma {:induction false} AfterSlashLength(segs: seq<Segment>)
    requires |segs| > 1
    ensures PartsLength(PartsAfter(segs)) == 1 + PartsLength(Parts(segs[1..]))
  {
    PrependLength("/", Parts(segs[1..]));
    assert "/"[1..] == "";
    assert TextLength("/") == 1;
  }

  lemma {:induction false} LengthBySegments(segs: seq<Segment>)
    requires segs != []
    ensures PartsLength(Parts(segs)) == SegmentsLength(segs)
  {
    PartsAreInFront(segs);
    InFrontLength(segs[0], PartsAfter(segs));
    if |segs| > 1 {
      LengthBySegments(segs[1..]);
      AfterSlashLength(segs);
    }
  }

  lemma {:induction false} SegmentsLengthReplace(segs: seq<Segment>, i: nat, seg: Segment)
    requires i < |segs|
    ensures SegmentsLength(segs[i := seg]) - SegmentLength(seg) == SegmentsLength(segs) - SegmentLength(segs[i])
  {
    if i > 0 {
      SegmentsLengthReplace(segs[1..], i - 1, seg);
      assert segs[i := seg][1..] == segs[1..][i - 1 := seg];
    }
  }

  lemma LengthOfPlaceholder(segs: seq<Segment>, x: nat, name: string)
    requires x < |segs| && segs[x].Literal?
    ensures PartsLength(Parts(segs[x := Placeholder(name)])) - 5 == PartsLength(Parts(segs)) - TextLength(segs[x].text)
  {
    LengthBySegments(segs);
    LengthBySegments(segs[x := Placeholder(name)]);
    SegmentsLengthReplace(segs, x, Placeholder(name));
  }

  // Two registered templates that differ in one segment, a placeholder against a literal:
  // the placeholder's is tried first exactly when the literal is escaped to fewer than five
  // characters, or to five and registered later.
  lemma PlaceholderBeatsShortLiteral(entries: seq<Entry>, i: nat, j: nat, segs: seq<Segment>, x: nat, name: string)
    requires i < |entries| && j < |entries| && i != j && x < |segs| && segs[x].Literal?
    requires entries[i].parts == Parts(segs[x := Placeholder(name)]) && entries[j].parts == Parts(segs)
    ensures SortByLength(entries)[Place(entries, i)] == entries[i]
    ensures SortByLength(entries)[Place(entries, j)] == entries[j]
    ensures Place(entries, i) < Place(entries, j) <==>
              TextLength(segs[x].text) < 5 || (TextLength(segs[x].text) == 5 && i < j)
  {
    LengthOfPlaceholder(segs, x, name);
    TrialOrder(entries, i, j);
  }

  // ... although every path that fits the literal template fits the other one too.
  lemma LiteralPathFitsBoth(segs: seq<Segment>, i: nat, name: string, path: string)
    requires i < |segs| && segs[i].Literal? && segs[i].text != "" && FitsPath(segs, path)
    ensures FitsPath(segs[i := Placeholder(name)], path)
  {
    var pieces := Split(path, '/');
    assert FitsSegment(segs[i], pieces[i]);
    forall j | 0 <= j < |segs| ensures FitsSegment(segs[i := Placeholder(name)][j], pieces[j]) {
      assert FitsSegment(segs[j], pieces[j]);
    }
  }

  // The entry of a route with one method.
  function RouteOf(segs: seq<Segment>, verb: string, event: string): Route
    requires segs != []
  {
    Route(Template(segs), [verb], Some(event))
  }

  lemma EntryOfRoute(segs: seq<Segment>, verb: string, event: string)
    requires AllWellFormed(segs) && Template(segs) != "" && event != ""
    ensures EntriesOf(RouteOf(segs, verb, event)) == [Entry(verb, Parts(segs), event)]
  {
    SplitGivesParts(segs);
    var r := RouteOf(segs, verb, event);
    assert [verb][1..] == [] && WithMethods([], Parts(segs), event) == [];
    assert EntriesOf(r) == WithMethods([verb], Parts(segs), event);
  }

  lemma EntriesOfTwo(r: Route, s: Route)
    ensures AllEntries([r, s]) == EntriesOf(r) + EntriesOf(s)
  {
    assert [r, s][..1] == [r] && [r][..0] == [];
    assert AllEntries([r]) == AllEntries([]) + EntriesOf(r) == EntriesOf(r);
  }

  // So when these two routes are registered, a request for the literal's own path gets the
  // placeholder's event exactly under that condition, and the literal's otherwise.
  lemma {:induction false} LabelOfLiteralPath(segs: seq<Segment>, x: nat, name: string, verb: string, a: string, b: string,
                           path: string, placeholderFirst: bool)
    requires AllWellFormed(segs) && x < |segs| && segs[x].Literal? && segs[x].text != ""
    requires WellFormed(Placeholder(name)) && FitsPath(segs, path)
    requires a != "" && b != "" && Template(segs) != "" && Template(segs[x := Placeholder(name)]) != ""
    ensures var p, l := RouteOf(segs[x := Placeholder(name)], verb, a), RouteOf(segs, verb, b);
            var table := SortByLength(AllEntries(if placeholderFirst then [p, l] else [l, p]));
            var beaten := TextLength(segs[x].text) < 5 || (TextLength(segs[x].text) == 5 && placeholderFirst);
            Decides(table, verb, path, 0) && table[0].event == if beaten then a else b
  {
    var open := segs[x := Placeholder(name)];
    var p, l := RouteOf(open, verb, a), RouteOf(segs, verb, b);
    assert AllWellFormed(open);
    EntryOfRoute(open, verb, a);
    EntryOfRoute(segs, verb, b);
    LiteralPathFitsBoth(segs, x, name, path);
    PartsMatchSegments(open, path);
    PartsMatchSegments(segs, path);
    EntriesOfTwo(if placeholderFirst then p else l, if placeholderFirst then l else p);
    LengthOfPlaceholder(segs, x, name);
    var e, f := Entry(verb, Parts(open), a), Entry(verb, Parts(segs), b);
    SortTwo(if placeholderFirst then e else f, if placeholderFirst then f else e);
  }

  lemma {:induction false} SortTwo(e: Entry, f: Entry)
    ensures SortByLength([e] + [f]) == if PatternLength(e) >= PatternLength(f) then [e, f] else [f, e]
  {
    assert ([e] + [f])[1..] == [f] && [f][1..] == [];
    assert SortByLength([f]) == Insert(f, SortByLength([])) == [f];
    assert Insert(e, []) == [e] && [f] + [e] == [f, e];
  }

  // Of two routes with one template and different methods, each request gets the event of
  // the route with its own method, and a third method gets neither.
  lemma {:induction false} OwnMethodDecides(segs: seq<Segment>, v: string, w: string, a: string, b: string,
                                            verb: string, path: string)
    requires AllWellFormed(segs) && FitsPath(segs, path) && Template(segs) != "" && a != "" && b != ""
    requires v != w && v != "*" && w != "*"
    ensures var table := SortByLength(AllEntries([RouteOf(segs, v, a), RouteOf(segs, w, b)]));
            && (verb == v ==> Decides(table, verb, path, 0) && table[0].event == a)
            && (verb == w ==> Decides(table, verb, path, 1) && table[1].event == b)
            && (verb != v && verb != w ==> forall k: nat :: !Decides(table, verb, path, k))
  {
    EntryOfRoute(segs, v, a);
    EntryOfRoute(segs, w, b);
    EntriesOfTwo(RouteOf(segs, v, a), RouteOf(segs, w, b));
    SortTwo(Entry(v, Parts(segs), a), Entry(w, Parts(segs), b));
    TemplateHits(segs, v, a, verb, path);
    TemplateHits(segs, w, b, verb, path);
  }
}
