/** Route path templates as patterns: `_path_template_to_regex` of skiff/logging_setup.py.

    A compiled pattern is the list of its literal parts; between two of them stands one
    `[^/]+`, around all of them `^` and `$`. */
module PathTemplate {
  import opened Text

  // ---------------------------------------------------------------- from template to pattern

  // A closing brace at k, with no slash from j - 1 on.
  predicate ClosesAt(s: string, j: nat, k: nat)
    requires 1 <= j <= k < |s|
  {
    s[k] == '}' && '/' !in s[j - 1..k]
  }

  // Where a placeholder that opens at s[0] ends: the first '}' from position `j` on with no
  // slash before it.  The pattern \{[^/]+?\} wants at least one character in between.
  function FindClose(s: string, j: nat): (r: Option<nat>)
    requires j >= 1
    ensures r.Some? ==> j <= r.value < |s|
    decreases |s| - j
  {
    if j >= |s| || s[j - 1] == '/' then None
    else if s[j] == '}' then Some(j)
    else FindClose(s, j + 1)
  }

  lemma ClosesFurther(s: string, j: nat, k: nat)
    requires 1 <= j < k < |s|
    ensures ClosesAt(s, j, k) <==> s[j - 1] != '/' && ClosesAt(s, j + 1, k)
  {
    assert s[j - 1..k] == [s[j - 1]] + s[j..k];
  }

  lemma {:induction false} FindCloseMeans(s: string, j: nat, k: nat)
    requires 1 <= j <= k < |s|
    ensures FindClose(s, j).None? ==> !ClosesAt(s, j, k)
    ensures FindClose(s, j) == Some(k) <==> ClosesAt(s, j, k) && '}' !in s[j..k]
    decreases |s| - j
  {
    if s[j - 1] == '/' {
      assert k > j ==> s[j - 1..k][0] == '/';
      assert k == j ==> s[j - 1..k] == ['/'];
      assert '/' in s[j - 1..k];
    } else if k == j {
      assert s[j - 1..k] == [s[j - 1]];
    } else {
      ClosesFurther(s, j, k);
      FindCloseMeans(s, j + 1, k);
      assert s[j..k] == [s[j]] + s[j + 1..k];
    }
  }

  function PrependToFirst(s: string, parts: seq<string>): (r: seq<string>)
    requires parts != []
    ensures |r| == |parts|
  {
    [s + parts[0]] + parts[1..]
  }

  // `re.split(r"\{[^/]+?\}", template)`
  function SplitTemplate(t: string): (parts: seq<string>)
    ensures parts != []
    decreases |t|
  {
    if t == [] then [[]]
    else if t[0] == '{' && FindClose(t, 2).Some?
    then [[]] + SplitTemplate(t[FindClose(t, 2).value + 1..])
    else PrependToFirst([t[0]], SplitTemplate(t[1..]))
  }

  predicate NoSlash(s: string) { '/' !in s }

  // An opening brace at i and a closing one at k, with something and no slash between them.
  predicate BracesAt(t: string, i: nat, k: nat) {
    i + 2 <= k < |t| && t[i] == '{' && t[k] == '}' && NoSlash(t[i + 1..k])
  }

  lemma BracesBelow(t: string, i: nat, k: nat)
    requires t != [] && BracesAt(t[1..], i, k)
    ensures BracesAt(t, i + 1, k + 1)
  {
    assert t[1..][i + 1..k] == t[i + 2..k + 1];
  }

  // A text without a placeholder is not split.
  lemma {:induction false} NoPlaceholderStays(t: string)
    requires forall i, k :: !BracesAt(t, i, k)
    ensures SplitTemplate(t) == [t]
  {
    if t != [] {
      forall i, k ensures !BracesAt(t[1..], i, k) { if BracesAt(t[1..], i, k) { BracesBelow(t, i, k); } }
      NoPlaceholderStays(t[1..]);
      if t[0] == '{' && FindClose(t, 2).Some? {
        FindCloseMeans(t, 2, FindClose(t, 2).value);
        assert BracesAt(t, 0, FindClose(t, 2).value);
      }
      assert [t[0]] + t[1..] == t && [t[1..]][1..] == [];
    }
  }

  // `pattern.match(path)`: every way to split the path is tried; `$` also matches before
  // a final newline.
  predicate Matches(parts: seq<string>, s: string)
    requires parts != []
    decreases |parts|, 0
  {
    if |parts| == 1 then s == parts[0] || s == parts[0] + "\n"
    else parts[0] <= s && MatchesAfter(parts[1..], s[|parts[0]|..])
  }

  // A non-empty run without slash, then the remaining parts.
  predicate MatchesAfter(parts: seq<string>, s: string)
    requires parts != []
    decreases |parts|, 1
  {
    exists k :: 1 <= k <= |s| && NoSlash(s[..k]) && Matches(parts, s[k..])
  }

  // ---------------------------------------------------------------- the meaning by segments

  datatype Segment = Literal(text: string) | Placeholder(name: string)

  predicate WellFormed(seg: Segment) {
    match seg
    case Literal(text) => NoSlash(text) && '{' !in text
    case Placeholder(name) => name != "" && NoSlash(name) && '}' !in name
  }

  predicate AllWellFormed(segs: seq<Segment>) {
    segs != [] && forall i :: 0 <= i < |segs| ==> WellFormed(segs[i])
  }

  function Write(seg: Segment): string {
    match seg case Literal(text) => text case Placeholder(name) => "{" + name + "}"
  }

  // The template as it is written in the route.
  function Template(segs: seq<Segment>): string
    requires segs != []
  {
    if |segs| == 1 then Write(segs[0]) else Write(segs[0]) + ("/" + Template(segs[1..]))
  }

  predicate FitsSegment(seg: Segment, piece: string) {
    match seg case Literal(text) => piece == text case Placeholder(_) => piece != ""
  }

  // As many segments, literal ones equal, placeholder ones not empty.
  predicate FitsPath(segs: seq<Segment>, path: string) {
    var pieces := Split(path, '/');
    |pieces| == |segs| && forall i :: 0 <= i < |segs| ==> FitsSegment(segs[i], pieces[i])
  }

  // ---------------------------------------------------------------- splitting at a slash

  lemma {:induction false} SplitNoSlash(s: string)
    requires NoSlash(s)
    ensures Split(s, '/') == [s]
  {
    if s != [] {
      assert s[0] in s;
      SplitNoSlash(s[1..]);
      assert [s[0]] + s[1..] == s;
    }
  }

  lemma {:induction false} SplitAtSlash(a: string, b: string)
    requires NoSlash(a)
    ensures Split(a + "/" + b, '/') == [a] + Split(b, '/')
  {
    var s := a + "/" + b;
    if a == [] {
      assert s[1..] == b;
    } else {
      assert a[0] in a && s[0] == a[0];
      assert s[1..] == a[1..] + "/" + b;
      SplitAtSlash(a[1..], b);
      assert [a[0]] + a[1..] == a;
    }
  }

  lemma {:induction false} FirstSlash(s: string) returns (k: nat)
    requires !NoSlash(s)
    ensures k < |s| && s[k] == '/' && NoSlash(s[..k])
    ensures Split(s, '/') == [s[..k]] + Split(s[k + 1..], '/')
  {
    if s[0] == '/' {
      k := 0;
    } else {
      k := FirstSlash(s[1..]);
      k := k + 1;
      assert s[..k] == [s[0]] + s[1..][..k - 1];
    }
    assert s == s[..k] + "/" + s[k + 1..];
    SplitAtSlash(s[..k], s[k + 1..]);
  }

  lemma FitsOne(seg: Segment, s: string)
    requires WellFormed(seg)
    ensures FitsPath([seg], s) <==> NoSlash(s) && FitsSegment(seg, s)
  {
    if NoSlash(s) {
      SplitNoSlash(s);
      assert FitsPath([seg], s) ==> FitsSegment([seg][0], Split(s, '/')[0]);
    } else {
      var k := FirstSlash(s);
    }
  }

  // With more segments to come, the first one takes what stands before the first slash.
  lemma FitsMore(segs: seq<Segment>, s: string)
    requires |segs| >= 2
    ensures FitsPath(segs, s) ==> !NoSlash(s)
    ensures forall k :: 0 <= k < |s| && s[k] == '/' && NoSlash(s[..k]) ==>
              (FitsPath(segs, s) <==> FitsSegment(segs[0], s[..k]) && FitsPath(segs[1..], s[k + 1..]))
  {
    if NoSlash(s) { SplitNoSlash(s); }
    forall k | 0 <= k < |s| && s[k] == '/' && NoSlash(s[..k])
      ensures FitsPath(segs, s) <==> FitsSegment(segs[0], s[..k]) && FitsPath(segs[1..], s[k + 1..])
    {
      assert s == s[..k] + "/" + s[k + 1..];
      SplitAtSlash(s[..k], s[k + 1..]);
      var pieces := Split(s, '/');
      assert pieces[0] == s[..k] && pieces[1..] == Split(s[k + 1..], '/');
      if FitsSegment(segs[0], s[..k]) && FitsPath(segs[1..], s[k + 1..]) {
        forall i | 0 <= i < |segs| ensures FitsSegment(segs[i], pieces[i]) {
          if i > 0 { assert FitsSegment(segs[1..][i - 1], pieces[1..][i - 1]); }
        }
      }
      if FitsPath(segs, s) {
        forall i | 0 <= i < |segs| - 1 ensures FitsSegment(segs[1..][i], pieces[1..][i]) {
          assert FitsSegment(segs[i + 1], pieces[i + 1]);
        }
      }
    }
  }

  // ---------------------------------------------------------------- the literal parts

  // The parts of a template, read off its segments.
  function Parts(segs: seq<Segment>): (parts: seq<string>)
    requires segs != []
    ensures parts != []
  {
    var rest := if |segs| == 1 then [[]] else PrependToFirst("/", Parts(segs[1..]));
    match segs[0]
    case Literal(text) => PrependToFirst(text, rest)
    case Placeholder(_) => [[]] + rest
  }

  lemma PrependTwice(a: string, b: string, parts: seq<string>)
    requires parts != []
    ensures PrependToFirst(a, PrependToFirst(b, parts)) == PrependToFirst(a + b, parts)
  {
    assert a + (b + parts[0]) == (a + b) + parts[0];
  }

  lemma {:induction false} SplitAfterLiteral(text: string, t: string)
    requires '{' !in text
    ensures SplitTemplate(text + t) == PrependToFirst(text, SplitTemplate(t))
  {
    if text == [] {
      assert text + t == t;
      assert text + SplitTemplate(t)[0] == SplitTemplate(t)[0];
    } else {
      assert (text + t)[1..] == text[1..] + t;
      SplitAfterLiteral(text[1..], t);
      PrependTwice([text[0]], text[1..], SplitTemplate(t));
      assert [text[0]] + text[1..] == text;
    }
  }

  lemma {:induction false} CloseOfPlaceholder(name: string, t: string, j: nat)
    requires NoSlash(name) && '}' !in name && 2 <= j <= |name| + 1
    ensures FindClose("{" + name + "}" + t, j) == Some(|name| + 1)
    decreases |name| + 1 - j
  {
    var s := "{" + name + "}" + t;
    assert s[j - 1] == name[j - 2] && s[j - 1] in name;
    if j <= |name| {
      assert s[j] == name[j - 1] && s[j] in name;
      CloseOfPlaceholder(name, t, j + 1);
    }
  }

  lemma {:induction false} SplitAfterPlaceholder(name: string, t: string)
    requires name != "" && NoSlash(name) && '}' !in name
    ensures SplitTemplate("{" + name + "}" + t) == [[]] + SplitTemplate(t)
  {
    var s := "{" + name + "}" + t;
    CloseOfPlaceholder(name, t, 2);
    assert s[|name| + 2..] == t;
  }

  // Splitting the written template gives the parts its segments call for.
  lemma {:induction false} SplitGivesParts(segs: seq<Segment>)
    requires AllWellFormed(segs)
    ensures SplitTemplate(Template(segs)) == Parts(segs)
  {
    var tail := if |segs| == 1 then "" else "/" + Template(segs[1..]);
    assert Template(segs) == Write(segs[0]) + tail;
    if |segs| > 1 {
      SplitGivesParts(segs[1..]);
      SplitAfterLiteral("/", Template(segs[1..]));
    }
    assert WellFormed(segs[0]);
    match segs[0]
    case Literal(text) => SplitAfterLiteral(text, tail);
    case Placeholder(name) => SplitAfterPlaceholder(name, tail);
  }

  // ---------------------------------------------------------------- the two meanings agree

  predicate EndsWithNewline(s: string) { s != [] && s[|s| - 1] == '\n' }

  // The path fits the segments, or it does without a newline at its end.
  predicate Accepts(segs: seq<Segment>, s: string) {
    FitsPath(segs, s) || (EndsWithNewline(s) && FitsPath(segs, s[..|s| - 1]))
  }

  // A literal text in front of the parts must stand in front of the path.
  lemma {:induction false} MatchesPrepend(text: string, parts: seq<string>, s: string)
    requires parts != []
    ensures Matches(PrependToFirst(text, parts), s) <==> text <= s && Matches(parts, s[|text|..])
  {
    var all := PrependToFirst(text, parts);
    assert all[1..] == parts[1..];
    if text <= s {
      var rest := s[|text|..];
      assert s == text + rest;
      assert text + parts[0] <= s <==> parts[0] <= rest;
      if parts[0] <= rest { assert s[|text + parts[0]|..] == rest[|parts[0]|..]; }
      assert |parts| == 1 ==> (s == all[0] <==> rest == parts[0]);
      assert |parts| == 1 ==> all[0] + "\n" == text + (parts[0] + "\n");
    } else {
      assert !(text + parts[0] <= s);
    }
  }

  lemma {:induction false} LiteralEnd(text: string, s: string)
    requires WellFormed(Literal(text))
    ensures Matches([text], s) <==> Accepts([Literal(text)], s)
  {
    FitsOne(Literal(text), s);
    if EndsWithNewline(s) {
      FitsOne(Literal(text), s[..|s| - 1]);
      assert s == s[..|s| - 1] + "\n";
    }
  }

  lemma {:induction false} PlaceholderEnd(name: string, s: string)
    requires WellFormed(Placeholder(name))
    ensures Matches([[], []], s) <==> Accepts([Placeholder(name)], s)
  {
    FitsOne(Placeholder(name), s);
    if EndsWithNewline(s) { FitsOne(Placeholder(name), s[..|s| - 1]); }
    var parts: seq<string> := [[], []];
    assert parts[1..] == [[]] && s[|parts[0]|..] == s;
    if s != [] && NoSlash(s) {
      assert s[..|s|] == s && Matches([[]], s[|s|..]);
      assert MatchesAfter([[]], s);
    }
    if MatchesAfter([[]], s) {
      var k :| 1 <= k <= |s| && NoSlash(s[..k]) && Matches([[]], s[k..]);
      assert s == s[..k] + s[k..];
    }
  }

  // Accepting a path whose first slash is at `k`, with more segments to come.
  lemma AcceptsMore(segs: seq<Segment>, s: string, k: nat)
    requires |segs| >= 2 && k < |s| && s[k] == '/' && NoSlash(s[..k])
    ensures Accepts(segs, s) <==> FitsSegment(segs[0], s[..k]) && Accepts(segs[1..], s[k + 1..])
  {
    FitsMore(segs, s);
    if EndsWithNewline(s) {
      var t := s[..|s| - 1];
      assert k < |t| && t[k] == '/' && t[..k] == s[..k];
      FitsMore(segs, t);
      assert t[k + 1..] == s[k + 1..][..|s[k + 1..]| - 1];
    }
  }

  lemma AcceptsNoSlash(segs: seq<Segment>, s: string)
    requires |segs| >= 2 && NoSlash(s)
    ensures !Accepts(segs, s)
  {
    FitsMore(segs, s);
    if EndsWithNewline(s) { FitsMore(segs, s[..|s| - 1]); }
  }

  lemma LiteralBeforeSlash(text: string, s: string, k: nat)
    requires NoSlash(text) && k < |s| && s[k] == '/' && NoSlash(s[..k])
    ensures text + "/" <= s <==> s[..k] == text
  {
    assert s[..k + 1] == s[..k] + "/";
    if text + "/" <= s {
      assert s[|text|] == '/' && s[..|text|] == text;
      SlashIsFirst(s, k, |text|);
    }
  }

  lemma {:induction false} LiteralStep(text: string, segs: seq<Segment>, s: string)
    requires |segs| >= 2 && segs[0] == Literal(text) && NoSlash(text)
    requires forall t :: Matches(Parts(segs[1..]), t) <==> Accepts(segs[1..], t)
    ensures Matches(Parts(segs), s) <==> Accepts(segs, s)
  {
    var rest := Parts(segs[1..]);
    PrependTwice(text, "/", rest);
    MatchesPrepend(text + "/", rest, s);
    if NoSlash(s) {
      AcceptsNoSlash(segs, s);
      if text + "/" <= s { assert s[|text|] == (text + "/")[|text|]; }
    } else {
      var k := FirstSlash(s);
      AcceptsMore(segs, s, k);
      LiteralBeforeSlash(text, s, k);
    }
  }

  // Two ways to stop right before a slash with none before it are the same.
  lemma SlashIsFirst(s: string, k: nat, m: nat)
    requires k < |s| && s[k] == '/' && NoSlash(s[..k])
    requires m < |s| && s[m] == '/' && NoSlash(s[..m])
    ensures k == m
  {
    assert forall i :: 0 <= i < k ==> s[..k][i] != '/';
    assert forall i :: 0 <= i < m ==> s[..m][i] != '/';
  }

  lemma {:induction false} PlaceholderStep(segs: seq<Segment>, s: string)
    requires |segs| >= 2 && segs[0].Placeholder?
    requires forall t :: Matches(Parts(segs[1..]), t) <==> Accepts(segs[1..], t)
    ensures Matches(Parts(segs), s) <==> Accepts(segs, s)
  {
    var rest := Parts(segs[1..]);
    var slashed := PrependToFirst("/", rest);
    assert Parts(segs)[1..] == slashed && s[0..] == s;
    assert Matches(Parts(segs), s) <==> MatchesAfter(slashed, s);
    if MatchesAfter(slashed, s) {
      var m :| 1 <= m <= |s| && NoSlash(s[..m]) && Matches(slashed, s[m..]);
      MatchesPrepend("/", rest, s[m..]);
      assert s[m..][0] == "/"[0];
      assert s[m..][1..] == s[m + 1..];
      AcceptsMore(segs, s, m);
    }
    if Accepts(segs, s) {
      if NoSlash(s) { AcceptsNoSlash(segs, s); }
      var k := FirstSlash(s);
      AcceptsMore(segs, s, k);
      MatchesPrepend("/", rest, s[k..]);
      assert s[k..][1..] == s[k + 1..] && "/" <= s[k..];
      assert Matches(slashed, s[k..]);
    }
  }

  lemma {:induction false} PartsMatchSegments(segs: seq<Segment>, s: string)
    requires AllWellFormed(segs)
    ensures Matches(Parts(segs), s) <==> Accepts(segs, s)
    decreases |segs|
  {
    assert WellFormed(segs[0]);
    if |segs| == 1 {
      assert segs == [segs[0]];
      match segs[0]
      case Literal(text) =>
        assert Parts(segs) == [text] by { assert text + "" == text; }
        LiteralEnd(text, s);
      case Placeholder(name) => PlaceholderEnd(name, s);
    } else {
      forall t ensures Matches(Parts(segs[1..]), t) <==> Accepts(segs[1..], t) {
        PartsMatchSegments(segs[1..], t);
      }
      match segs[0]
      case Literal(text) => LiteralStep(text, segs, s);
      case Placeholder(_) => PlaceholderStep(segs, s);
    }
  }

  // The compiled pattern of a template whose placeholders fill whole segments matches a
  // path exactly when the path fits the segments, up to one newline at its end.
  lemma {:induction false} PatternMeansSegments(segs: seq<Segment>, path: string)
    requires AllWellFormed(segs)
    ensures Matches(SplitTemplate(Template(segs)), path) <==> Accepts(segs, path)
    ensures !EndsWithNewline(path) ==>
              (Matches(SplitTemplate(Template(segs)), path) <==> FitsPath(segs, path))
  {
    SplitGivesParts(segs);
    PartsMatchSegments(segs, path);
  }
}
