/** The two parsers of `key=value` lists: `_parse_kv_list` of skiff/routers/volumes.py and
    `_parse_net_labels` of skiff/routers/networks.py. */
module KvList {
  import opened Text

  datatype KvError = MissingEquals(entry: string) | BadKey(key: string) | BadValue(key: string)

  datatype Entry = Blank | Pair(key: string, value: string) | Bad(error: KvError)

  // ---------------------------------------------------------------- the label grammar

  predicate IsAlnum(c: char) { 'A' <= c <= 'Z' || 'a' <= c <= 'z' || '0' <= c <= '9' }

  // `DOCKER_LABEL_KEY_RE`, matched in full.
  predicate LabelKey(k: string) {
    && 1 <= |k| <= 128
    && IsAlnum(k[0])
    && forall i :: 0 <= i < |k| ==> IsAlnum(k[i]) || k[i] == '.' || k[i] == '_' || k[i] == '-'
  }

  // `DOCKER_LABEL_VAL_RE`, matched in full.
  predicate LabelValue(v: string) {
    |v| <= 255 && forall i :: 0 <= i < |v| ==> ' ' <= v[i] <= '~'
  }

  // How long a key and a value may be.
  lemma LabelLimits(n: nat)
    ensures LabelKey(seq(n, _ => 'a')) <==> 1 <= n <= 128
    ensures LabelValue(seq(n, _ => 'a')) <==> n <= 255
  {
  }

  // ---------------------------------------------------------------- cutting up the input

  // `raw.replace(",", "\n")`
  function CommasToBreaks(raw: string): (r: string)
    ensures |r| == |raw| && forall i :: 0 <= i < |r| ==> r[i] == if raw[i] == ',' then '\n' else raw[i]
    ensures ',' !in r
    ensures ',' !in raw ==> r == raw
  {
    if raw == [] then []
    else [if raw[0] == ',' then '\n' else raw[0]] + CommasToBreaks(raw[1..])
  }

  function Clip(s: string): (r: string)
    ensures r <= s && |r| == if |s| < 64 then |s| else 64
  {
    if |s| <= 64 then s else s[..64]
  }

  function ParseEntry(raw: string, keyOk: string -> bool, valueOk: string -> bool): Entry {
    var entry := Strip(raw);
    if entry == [] then Blank
    else if '=' !in entry then Bad(MissingEquals(Clip(entry)))
    else
      var at := EqualsAt(entry);
      var k, v := Strip(entry[..at]), Strip(entry[at + 1..]);
      if !keyOk(k) then Bad(BadKey(Clip(k)))
      else if !valueOk(v) then Bad(BadValue(Clip(k)))
      else Pair(k, v)
  }

  // What the entries add to what is collected so far.
  function Collect(entries: seq<string>, out: map<string, string>, keyOk: string -> bool, valueOk: string -> bool)
    : Result<map<string, string>, KvError>
  {
    if entries == [] then Ok(out)
    else match ParseEntry(entries[0], keyOk, valueOk)
         case Blank => Collect(entries[1..], out, keyOk, valueOk)
         case Bad(e) => Err(e)
         case Pair(k, v) => Collect(entries[1..], out[k := v], keyOk, valueOk)
  }

  function Parsed(raw: string, keyOk: string -> bool, valueOk: string -> bool): Result<map<string, string>, KvError> {
    Collect(Lines(raw), map[], keyOk, valueOk)
  }

  // ---------------------------------------------------------------- an entry by its characters

  // The line's first '=' stands between a text that strips to `k` and one that strips to `v`.
  ghost predicate Gives(line: string, k: string, v: string) {
    exists n :: 0 <= n < |line| && line[n] == '=' && '=' !in line[..n]
                && Strip(line[..n]) == k && Strip(line[n + 1..]) == v
  }

  // The line gives no pair that passes, and this is the error for it.
  ghost predicate Breaks(line: string, e: KvError, keyOk: string -> bool, valueOk: string -> bool) {
    match e
    case MissingEquals(entry) => '=' !in line && !AllSpace(line) && entry == Clip(Strip(line))
    case BadKey(key) => exists k, v :: Gives(line, k, v) && !keyOk(k) && key == Clip(k)
    case BadValue(key) => exists k, v :: Gives(line, k, v) && keyOk(k) && !valueOk(v) && key == Clip(k)
  }

  // Blank, or a pair that passes.
  ghost predicate Passes(line: string, keyOk: string -> bool, valueOk: string -> bool) {
    AllSpace(line) || exists k, v :: Gives(line, k, v) && keyOk(k) && valueOk(v)
  }

  // A side of the entry without the white space on its outer end.
  lemma TrimBefore(a: string) returns (left: string, x: string)
    ensures a == left + x && AllSpace(left) && Strip(x) == Strip(a)
    ensures x != [] ==> !IsSpace(x[0])
  {
    var l, r := StripMeans(a);
    if Strip(a) == [] {
      BlankStrips(a);
      left, x := a, [];
    } else {
      left, x := l, Strip(a) + r;
      assert x == [] + Strip(a) + r;
      StripUndoesPadding([], Strip(a), r);
    }
  }

  lemma TrimAfter(b: string) returns (y: string, right: string)
    ensures b == y + right && AllSpace(right) && Strip(y) == Strip(b)
    ensures y != [] ==> !IsSpace(y[|y| - 1])
  {
    var l, r := StripMeans(b);
    if Strip(b) == [] {
      BlankStrips(b);
      y, right := [], b;
    } else {
      y, right := l + Strip(b), r;
      assert y == l + Strip(b) + [];
      StripUndoesPadding(l, Strip(b), []);
    }
  }

  // White space around the whole entry makes no difference to its two sides.
  lemma StripAround(a: string, b: string)
    requires '=' !in a
    ensures var entry := Strip(a + "=" + b);
            && EqualsAt(entry) < |entry|
            && Strip(entry[..EqualsAt(entry)]) == Strip(a) && Strip(entry[EqualsAt(entry) + 1..]) == Strip(b)
  {
    var left, x := TrimBefore(a);
    var y, right := TrimAfter(b);
    var entry := x + "=" + y;
    assert a + "=" + b == left + entry + right;
    assert Stripped(entry);
    StripUndoesPadding(left, entry, right);
    assert entry[..|x|] == x && entry[|x| + 1..] == y;
    FirstEquals(entry, |x|);
  }

  lemma EntryWithEquals(line: string, n: nat, keyOk: string -> bool, valueOk: string -> bool)
    requires n < |line| && line[n] == '=' && '=' !in line[..n]
    ensures var k, v := Strip(line[..n]), Strip(line[n + 1..]);
            ParseEntry(line, keyOk, valueOk) ==
            if !keyOk(k) then Bad(BadKey(Clip(k))) else if !valueOk(v) then Bad(BadValue(Clip(k))) else Pair(k, v)
  {
    assert line == line[..n] + "=" + line[n + 1..];
    StripAround(line[..n], line[n + 1..]);
  }

  lemma EntryWithoutEquals(line: string, keyOk: string -> bool, valueOk: string -> bool)
    requires '=' !in line
    ensures ParseEntry(line, keyOk, valueOk) == if AllSpace(line) then Blank else Bad(MissingEquals(Clip(Strip(line))))
  {
    BlankStrips(line);
    StripIsSlice(line);
  }

  lemma GivesOne(line: string, k: string, v: string, n: nat)
    requires n < |line| && line[n] == '=' && '=' !in line[..n]
    ensures Gives(line, k, v) <==> k == Strip(line[..n]) && v == Strip(line[n + 1..])
    ensures !AllSpace(line)
  {
    FirstEquals(line, n);
    assert !IsSpace(line[n]);
    if Gives(line, k, v) {
      var m :| 0 <= m < |line| && line[m] == '=' && '=' !in line[..m]
               && Strip(line[..m]) == k && Strip(line[m + 1..]) == v;
      FirstEquals(line, m);
    }
  }

  lemma GivesAll(line: string, n: nat)
    requires n < |line| && line[n] == '=' && '=' !in line[..n]
    ensures forall k, v :: Gives(line, k, v) <==> k == Strip(line[..n]) && v == Strip(line[n + 1..])
    ensures !AllSpace(line)
  {
    GivesOne(line, [], [], n);
    forall k, v ensures Gives(line, k, v) <==> k == Strip(line[..n]) && v == Strip(line[n + 1..]) {
      GivesOne(line, k, v, n);
    }
  }

  lemma NoneGiven(line: string)
    requires '=' !in line
    ensures forall k, v :: !Gives(line, k, v)
  {
  }

  lemma PassesWithEquals(line: string, n: nat, keyOk: string -> bool, valueOk: string -> bool)
    requires n < |line| && line[n] == '=' && '=' !in line[..n]
    ensures Passes(line, keyOk, valueOk) <==> keyOk(Strip(line[..n])) && valueOk(Strip(line[n + 1..]))
  {
    GivesAll(line, n);
    assert Gives(line, Strip(line[..n]), Strip(line[n + 1..]));
  }

  // What an entry comes to, in terms of the characters of its line: a pair ...
  lemma PairMeans(line: string, k: string, v: string, keyOk: string -> bool, valueOk: string -> bool)
    ensures ParseEntry(line, keyOk, valueOk) == Pair(k, v) <==> Gives(line, k, v) && keyOk(k) && valueOk(v)
  {
    if '=' in line {
      EntryWithEquals(line, EqualsAt(line), keyOk, valueOk);
      GivesOne(line, k, v, EqualsAt(line));
    } else {
      EntryWithoutEquals(line, keyOk, valueOk);
      NoneGiven(line);
    }
  }

  // ... no error ...
  lemma PassMeans(line: string, keyOk: string -> bool, valueOk: string -> bool)
    ensures !ParseEntry(line, keyOk, valueOk).Bad? <==> Passes(line, keyOk, valueOk)
  {
    if '=' in line {
      EntryWithEquals(line, EqualsAt(line), keyOk, valueOk);
      PassesWithEquals(line, EqualsAt(line), keyOk, valueOk);
    } else {
      EntryWithoutEquals(line, keyOk, valueOk);
      NoneGiven(line);
    }
  }

  // ... or which error.
  lemma ErrorMeans(line: string, e: KvError, keyOk: string -> bool, valueOk: string -> bool)
    ensures ParseEntry(line, keyOk, valueOk) == Bad(e) <==> Breaks(line, e, keyOk, valueOk)
  {
    if '=' in line {
      EntryWithEquals(line, EqualsAt(line), keyOk, valueOk);
      BreaksWithEquals(line, e, EqualsAt(line), keyOk, valueOk);
    } else {
      EntryWithoutEquals(line, keyOk, valueOk);
      NoneGiven(line);
    }
  }

  lemma BreaksWithEquals(line: string, e: KvError, n: nat, keyOk: string -> bool, valueOk: string -> bool)
    requires n < |line| && line[n] == '=' && '=' !in line[..n]
    ensures var k, v := Strip(line[..n]), Strip(line[n + 1..]);
            Breaks(line, e, keyOk, valueOk) <==>
              || (e == BadKey(Clip(k)) && !keyOk(k)) || (e == BadValue(Clip(k)) && keyOk(k) && !valueOk(v))
  {
    GivesAll(line, n);
    assert Gives(line, Strip(line[..n]), Strip(line[n + 1..]));
  }

  // ---------------------------------------------------------------- the two parsers

  function Lines(raw: string): seq<string> { SplitLines(CommasToBreaks(raw)) }

  // The result in terms of the lines: accepted exactly if all of them pass, and otherwise
  // the error of the first that does not.
  ghost predicate Judges(lines: seq<string>, r: Result<map<string, string>, KvError>,
                   keyOk: string -> bool, valueOk: string -> bool) {
    && (r.Ok? <==> forall i :: 0 <= i < |lines| ==> Passes(lines[i], keyOk, valueOk))
    && (r.Ok? ==> forall k :: k in r.value ==> keyOk(k) && valueOk(r.value[k]))
    && (r.Err? ==> exists i :: 0 <= i < |lines| && Breaks(lines[i], r.error, keyOk, valueOk)
                     && forall j :: 0 <= j < i ==> Passes(lines[j], keyOk, valueOk))
  }

  // `_parse_kv_list`
  method ParseKvList(raw: string, keyOk: string -> bool, valueOk: string -> bool)
    returns (r: Result<map<string, string>, KvError>)
    ensures r == Parsed(raw, keyOk, valueOk)
  {
    if raw == [] {
      return Ok(map[]);
    }
    var out := map[];
    var entries := Lines(raw);
    for i := 0 to |entries|
      invariant Collect(entries[i..], out, keyOk, valueOk) == Parsed(raw, keyOk, valueOk)
    {
      assert entries[i..][1..] == entries[i + 1..];
      var entry := Strip(entries[i]);
      if entry == [] {
        continue;
      }
      if '=' !in entry {
        return Err(MissingEquals(Clip(entry)));
      }
      var at := EqualsAt(entry);
      var k, v := Strip(entry[..at]), Strip(entry[at + 1..]);
      if !keyOk(k) {
        return Err(BadKey(Clip(k)));
      }
      if !valueOk(v) {
        return Err(BadValue(Clip(k)));
      }
      out := out[k := v];
    }
    return Ok(out);
  }

  // `_parse_net_labels`: the same answer as the volume parser given the label patterns.
  method ParseNetLabels(raw: string) returns (r: Result<map<string, string>, KvError>)
    ensures r == Parsed(raw, LabelKey, LabelValue)
  {
    if raw == [] {
      return Ok(map[]);
    }
    var out := map[];
    var entries := Lines(raw);
    for i := 0 to |entries|
      invariant Collect(entries[i..], out, LabelKey, LabelValue) == Parsed(raw, LabelKey, LabelValue)
    {
      assert entries[i..][1..] == entries[i + 1..];
      var entry := Strip(entries[i]);
      if entry == [] {
        continue;
      }
      if '=' !in entry {
        return Err(MissingEquals(Clip(entry)));
      }
      var at := EqualsAt(entry);
      var k, v := Strip(entry[..at]), Strip(entry[at + 1..]);
      if !LabelKey(k) {
        return Err(BadKey(Clip(k)));
      }
      if !LabelValue(v) {
        return Err(BadValue(Clip(k)));
      }
      out := out[k := v];
    }
    return Ok(out);
  }

  // ---------------------------------------------------------------- what is accepted

  // The input is accepted exactly if no entry is bad, and otherwise the first bad entry is
  // the error.
  lemma {:induction false} AcceptedWhenNoneBad(entries: seq<string>, out: map<string, string>,
                                               keyOk: string -> bool, valueOk: string -> bool)
    ensures var r := Collect(entries, out, keyOk, valueOk);
            && (r.Ok? <==> forall i :: 0 <= i < |entries| ==> !ParseEntry(entries[i], keyOk, valueOk).Bad?)
            && (r.Err? ==> exists i :: 0 <= i < |entries| && ParseEntry(entries[i], keyOk, valueOk) == Bad(r.error)
                             && forall j :: 0 <= j < i ==> !ParseEntry(entries[j], keyOk, valueOk).Bad?)
  {
    if entries != [] {
      var rest := entries[1..];
      var e := ParseEntry(entries[0], keyOk, valueOk);
      if !e.Bad? {
        var out' := if e.Pair? then out[e.key := e.value] else out;
        AcceptedWhenNoneBad(rest, out', keyOk, valueOk);
        var r := Collect(rest, out', keyOk, valueOk);
        assert forall i :: 1 <= i < |entries| ==> entries[i] == rest[i - 1];
        if r.Err? {
          var i :| 0 <= i < |rest| && ParseEntry(rest[i], keyOk, valueOk) == Bad(r.error)
                   && forall j :: 0 <= j < i ==> !ParseEntry(rest[j], keyOk, valueOk).Bad?;
          assert ParseEntry(entries[i + 1], keyOk, valueOk) == Bad(r.error);
        }
      } else {
        assert ParseEntry(entries[0], keyOk, valueOk) == Bad(e.error);
      }
    }
  }

  lemma {:induction false} CollectedPasses(entries: seq<string>, out: map<string, string>,
                                           keyOk: string -> bool, valueOk: string -> bool)
    requires forall k :: k in out ==> keyOk(k) && valueOk(out[k])
    requires Collect(entries, out, keyOk, valueOk).Ok?
    ensures var m := Collect(entries, out, keyOk, valueOk).value; forall k :: k in m ==> keyOk(k) && valueOk(m[k])
  {
    if entries != [] {
      var e := ParseEntry(entries[0], keyOk, valueOk);
      CollectedPasses(entries[1..], if e.Pair? then out[e.key := e.value] else out, keyOk, valueOk);
    }
  }

  // What the parser says of an input, line by line and character by character.
  lemma ParsedIsJudged(raw: string, keyOk: string -> bool, valueOk: string -> bool)
    ensures Judges(Lines(raw), Parsed(raw, keyOk, valueOk), keyOk, valueOk)
  {
    var lines, r := Lines(raw), Parsed(raw, keyOk, valueOk);
    AcceptedWhenNoneBad(lines, map[], keyOk, valueOk);
    forall i | 0 <= i < |lines|
      ensures !ParseEntry(lines[i], keyOk, valueOk).Bad? <==> Passes(lines[i], keyOk, valueOk)
    {
      PassMeans(lines[i], keyOk, valueOk);
    }
    if r.Ok? {
      CollectedPasses(lines, map[], keyOk, valueOk);
    } else {
      var i :| 0 <= i < |lines| && ParseEntry(lines[i], keyOk, valueOk) == Bad(r.error)
               && forall j :: 0 <= j < i ==> !ParseEntry(lines[j], keyOk, valueOk).Bad?;
      ErrorMeans(lines[i], r.error, keyOk, valueOk);
    }
  }

  function Get(m: map<string, string>, k: string): Option<string> { if k in m then Some(m[k]) else None }

  // The value given by the last entry with this key.
  function LastValue(entries: seq<string>, k: string, keyOk: string -> bool, valueOk: string -> bool): Option<string> {
    if entries == [] then None
    else
      var later := LastValue(entries[1..], k, keyOk, valueOk);
      var e := ParseEntry(entries[0], keyOk, valueOk);
      if later.Some? then later else if e.Pair? && e.key == k then Some(e.value) else None
  }

  // The result has the keys of the entries, each with the value given last.
  lemma {:induction false} LaterEntriesWin(entries: seq<string>, out: map<string, string>, k: string,
                                           keyOk: string -> bool, valueOk: string -> bool)
    requires Collect(entries, out, keyOk, valueOk).Ok?
    ensures var m, last := Collect(entries, out, keyOk, valueOk).value, LastValue(entries, k, keyOk, valueOk);
            Get(m, k) == if last.Some? then last else Get(out, k)
  {
    if entries != [] {
      var e := ParseEntry(entries[0], keyOk, valueOk);
      LaterEntriesWin(entries[1..], if e.Pair? then out[e.key := e.value] else out, k, keyOk, valueOk);
    }
  }

  // Line i gives `k` the value `v`, and no later line gives `k` a value.
  ghost predicate LastGives(lines: seq<string>, k: string, v: string) {
    exists i :: 0 <= i < |lines| && Gives(lines[i], k, v) && NoneGives(lines[i + 1..], k)
  }

  ghost predicate NoneGives(lines: seq<string>, k: string) {
    forall j, w :: 0 <= j < |lines| ==> !Gives(lines[j], k, w)
  }

  lemma LastGivesStep(lines: seq<string>, k: string, v: string)
    requires lines != []
    ensures NoneGives(lines, k) <==> NoneGives(lines[1..], k) && forall w :: !Gives(lines[0], k, w)
    ensures LastGives(lines, k, v) <==>
              LastGives(lines[1..], k, v) || (Gives(lines[0], k, v) && NoneGives(lines[1..], k))
  {
    var rest := lines[1..];
    assert forall j :: 1 <= j < |lines| ==> lines[j] == rest[j - 1];
    if LastGives(rest, k, v) {
      var i :| 0 <= i < |rest| && Gives(rest[i], k, v) && NoneGives(rest[i + 1..], k);
      assert lines[i + 1..][1..] == rest[i + 1..] && lines[i + 1] == rest[i];
      assert lines[i + 1 + 1..] == rest[i + 1..];
    }
    if LastGives(lines, k, v) {
      var i :| 0 <= i < |lines| && Gives(lines[i], k, v) && NoneGives(lines[i + 1..], k);
      if i > 0 { assert rest[i - 1 + 1..] == lines[i + 1..]; }
    }
    if NoneGives(lines, k) {
      forall j, w | 0 <= j < |rest| ensures !Gives(rest[j], k, w) { assert rest[j] == lines[j + 1]; }
    }
  }

  // A key has in the result exactly the value that the last line with this key gives it.
  lemma {:induction false} ResultMeans(lines: seq<string>, out: map<string, string>, k: string, v: string,
                                       keyOk: string -> bool, valueOk: string -> bool)
    requires Collect(lines, out, keyOk, valueOk).Ok?
    ensures Get(Collect(lines, out, keyOk, valueOk).value, k) == Some(v) <==>
              LastGives(lines, k, v) || (NoneGives(lines, k) && Get(out, k) == Some(v))
  {
    if lines != [] {
      var e := ParseEntry(lines[0], keyOk, valueOk);
      forall w ensures Gives(lines[0], k, w) <==> e == Pair(k, w) { GivenPair(lines[0], k, w, keyOk, valueOk); }
      ResultMeans(lines[1..], if e.Pair? then out[e.key := e.value] else out, k, v, keyOk, valueOk);
      LastGivesStep(lines, k, v);
    }
  }

  lemma GivenPair(line: string, k: string, v: string, keyOk: string -> bool, valueOk: string -> bool)
    requires !ParseEntry(line, keyOk, valueOk).Bad?
    ensures Gives(line, k, v) <==> ParseEntry(line, keyOk, valueOk) == Pair(k, v)
  {
    PairMeans(line, k, v, keyOk, valueOk);
    if Gives(line, k, v) {
      var n :| 0 <= n < |line| && line[n] == '=' && '=' !in line[..n]
               && Strip(line[..n]) == k && Strip(line[n + 1..]) == v;
      EntryWithEquals(line, n, keyOk, valueOk);
    }
  }

  // ---------------------------------------------------------------- what comes out is clean

  predicate CommaFree(lines: seq<string>) { forall i :: 0 <= i < |lines| ==> ',' !in lines[i] }

  lemma {:induction false} PiecesAreCommaFree(s: string)
    requires ',' !in s
    ensures CommaFree(SplitLines(s))
  {
    if s != [] {
      if |s| > 1 && s[0] == '\r' && s[1] == '\n' {
        PiecesAreCommaFree(s[2..]);
      } else {
        PiecesAreCommaFree(s[1..]);
      }
    }
  }

  predicate Clean(v: string) { ',' !in v && Stripped(v) }

  lemma StripIsClean(s: string)
    requires ',' !in s
    ensures Clean(Strip(s))
  {
    StripIsSlice(s);
    StripIsStripped(s);
  }

  lemma PairIsClean(raw: string, keyOk: string -> bool, valueOk: string -> bool)
    requires ',' !in raw && ParseEntry(raw, keyOk, valueOk).Pair?
    ensures Clean(ParseEntry(raw, keyOk, valueOk).value)
  {
    StripIsClean(raw);
    var entry := Strip(raw);
    var value := entry[EqualsAt(entry) + 1..];
    assert ',' !in value;
    StripIsClean(value);
    assert ParseEntry(raw, keyOk, valueOk).value == Strip(value);
  }

  lemma {:induction false} CollectedIsClean(entries: seq<string>, out: map<string, string>,
                                            keyOk: string -> bool, valueOk: string -> bool)
    requires CommaFree(entries) && forall k :: k in out ==> Clean(out[k])
    requires Collect(entries, out, keyOk, valueOk).Ok?
    ensures var m := Collect(entries, out, keyOk, valueOk).value; forall k :: k in m ==> Clean(m[k])
  {
    if entries != [] {
      var e := ParseEntry(entries[0], keyOk, valueOk);
      if e.Pair? { PairIsClean(entries[0], keyOk, valueOk); }
      CollectedIsClean(entries[1..], if e.Pair? then out[e.key := e.value] else out, keyOk, valueOk);
    }
  }

  // No accepted input yields a value with a comma or with white space at its ends.
  lemma ParsedIsClean(raw: string, keyOk: string -> bool, valueOk: string -> bool)
    requires Parsed(raw, keyOk, valueOk).Ok?
    ensures var m := Parsed(raw, keyOk, valueOk).value; forall k :: k in m ==> Clean(m[k])
  {
    PiecesAreCommaFree(CommasToBreaks(raw));
    CollectedIsClean(SplitLines(CommasToBreaks(raw)), map[], keyOk, valueOk);
  }

  // ---------------------------------------------------------------- print, then parse

  // A map with every key and value allowed as a label.
  predicate IsLabels(m: map<string, string>) { forall k :: k in m ==> LabelKey(k) && LabelValue(m[k]) }

  function Line(k: string, v: string): string { k + "=" + v }

  // One line for each of these keys.
  function PrintLines(keys: seq<string>, m: map<string, string>): string
    requires forall k :: k in keys ==> k in m
  {
    if keys == [] then [] else Line(keys[0], m[keys[0]]) + ['\n'] + PrintLines(keys[1..], m)
  }

  lemma LineParses(k: string, v: string)
    requires LabelKey(k) && LabelValue(v) && Stripped(v)
    ensures ParseEntry(Line(k, v), LabelKey, LabelValue) == Pair(k, v)
  {
    var line := Line(k, v);
    assert forall i :: 0 <= i < |k| ==> !IsSpace(k[i]) && k[i] != '=';
    assert line[0] == k[0];
    assert line[|line| - 1] == if v == [] then '=' else v[|v| - 1];
    StrippedIsFixed(line);
    assert line[|k|] == '=' && line[..|k|] == k;
    FirstEquals(line, |k|);
    assert line[..|k|] == k && line[|k| + 1..] == v;
    StrippedIsFixed(k);
    StrippedIsFixed(v);
  }

  lemma {:induction false} PrintedHasNoComma(keys: seq<string>, m: map<string, string>)
    requires (forall k :: k in keys ==> k in m) && IsLabels(m) && forall k :: k in m ==> Clean(m[k])
    ensures ',' !in PrintLines(keys, m)
  {
    if keys != [] {
      var k := keys[0];
      PrintedHasNoComma(keys[1..], m);
      assert k in m && LabelKey(k) && Clean(m[k]);
      assert forall i :: 0 <= i < |k| ==> k[i] != ',';
      assert ',' !in Line(k, m[k]);
    }
  }

  lemma {:induction false} FirstLineIsCollected(k: string, v: string, rest: string, out: map<string, string>)
    requires LabelKey(k) && LabelValue(v) && Clean(v)
    ensures Collect(SplitLines(Line(k, v) + ['\n'] + rest), out, LabelKey, LabelValue) ==
            Collect(SplitLines(rest), out[k := v], LabelKey, LabelValue)
  {
    LineIsSplitOff(Line(k, v), "\n", rest);
    var lines := SplitLines(rest);
    assert ([Line(k, v)] + lines)[1..] == lines;
    LineParses(k, v);
  }

  // `r` is `out` with the values of these keys taken from `m`.
  ghost predicate Overlay(r: Result<map<string, string>, KvError>, keys: seq<string>,
                          m: map<string, string>, out: map<string, string>) {
    r.Ok? && forall k :: Get(r.value, k) == if k in keys then Get(m, k) else Get(out, k)
  }

  lemma {:induction false} PrintedIsCollected(keys: seq<string>, m: map<string, string>, out: map<string, string>)
    requires (forall k :: k in keys ==> k in m) && IsLabels(m) && forall k :: k in m ==> Clean(m[k])
    ensures Overlay(Collect(SplitLines(PrintLines(keys, m)), out, LabelKey, LabelValue), keys, m, out)
  {
    if keys != [] {
      var k, v := keys[0], m[keys[0]];
      FirstLineIsCollected(k, v, PrintLines(keys[1..], m), out);
      PrintedIsCollected(keys[1..], m, out[k := v]);
      assert forall l :: l in keys <==> l == k || l in keys[1..];
    }
  }

  lemma SameGets(m: map<string, string>, n: map<string, string>)
    requires forall k :: Get(m, k) == Get(n, k)
    ensures m == n
  {
    forall k ensures k in m <==> k in n { assert Get(m, k) == Get(n, k); }
    forall k | k in m ensures m[k] == n[k] { assert Get(m, k) == Get(n, k); }
  }

  lemma {:induction false} PrintedParses(keys: seq<string>, m: map<string, string>)
    requires (forall k :: k in keys <==> k in m) && IsLabels(m) && forall k :: k in m ==> Clean(m[k])
    ensures Parsed(PrintLines(keys, m), LabelKey, LabelValue) == Ok(m)
  {
    PrintedHasNoComma(keys, m);
    PrintedIsCollected(keys, m, map[]);
    var r := Collect(SplitLines(PrintLines(keys, m)), map[], LabelKey, LabelValue);
    assert Overlay(r, keys, m, map[]);
    SameGets(r.value, m);
  }

  // Printing a label map, one line a key in any order, and parsing it gives the map back
  // exactly if no value has a comma or white space at its ends.
  lemma {:induction false} RoundTrip(keys: seq<string>, m: map<string, string>)
    requires (forall k :: k in keys <==> k in m) && IsLabels(m)
    ensures Parsed(PrintLines(keys, m), LabelKey, LabelValue) == Ok(m) <==> forall k :: k in m ==> Clean(m[k])
  {
    if forall k :: k in m ==> Clean(m[k]) {
      PrintedParses(keys, m);
    } else if Parsed(PrintLines(keys, m), LabelKey, LabelValue).Ok? {
      ParsedIsClean(PrintLines(keys, m), LabelKey, LabelValue);
    }
  }
}
