/** The tail read of the audit log in skiff/routers/audit.py, against a read of the whole
    file.  A file is a sequence of one-byte characters in which only a newline ends a line. */
module AuditTail {
  import opened Text

  const NEWLINE := '\n'
  const BYTES_PER_LINE := 600

  // ---------------------------------------------------------------- lines

  // One more character in front of these lines.
  function Push(c: char, lines: seq<string>): (r: seq<string>)
    ensures r != []
  {
    if c == NEWLINE then [[]] + lines
    else if lines == [] then [[c]]
    else [[c] + lines[0]] + lines[1..]
  }

  // `splitlines` on such a text, as LinesAreSplitLines shows.
  function Lines(s: string): (lines: seq<string>)
    ensures lines == [] <==> s == []
  {
    if s == [] then [] else Push(s[0], Lines(s[1..]))
  }

  lemma {:induction false} LinesAreSplitLines(s: string)
    requires forall i :: 0 <= i < |s| && IsBreak(s[i]) ==> s[i] == NEWLINE
    ensures Lines(s) == SplitLines(s)
  {
    if s != [] { LinesAreSplitLines(s[1..]); }
  }

  // Every line with its newline.
  function Unlines(lines: seq<string>): string {
    if lines == [] then [] else lines[0] + [NEWLINE] + Unlines(lines[1..])
  }

  lemma {:induction false} PushText(c: char, lines: seq<string>)
    ensures Unlines(Push(c, lines)) ==
            if c != NEWLINE && lines == [] then [c, NEWLINE] else [c] + Unlines(lines)
  {
    var r := Push(c, lines);
    if c != NEWLINE && lines != [] {
      assert r[1..] == lines[1..];
      assert r[0] + [NEWLINE] == [c] + (lines[0] + [NEWLINE]);
    } else if c == NEWLINE {
      assert r[1..] == lines;
    } else {
      assert r[1..] == [];
    }
  }

  predicate NewlineFree(lines: seq<string>) { forall i :: 0 <= i < |lines| ==> NEWLINE !in lines[i] }

  lemma {:induction false} LinesAreNewlineFree(s: string)
    ensures NewlineFree(Lines(s))
  {
    if s != [] {
      LinesAreNewlineFree(s[1..]);
      var rest := Lines(s[1..]);
      assert forall i :: 1 <= i < |Push(s[0], rest)| ==>
               Push(s[0], rest)[i] == rest[if s[0] == NEWLINE then i - 1 else i];
    }
  }

  lemma {:induction false} LinesSpellTheText(s: string)
    ensures Unlines(Lines(s)) == if s == [] || s[|s| - 1] == NEWLINE then s else s + [NEWLINE]
  {
    if s != [] {
      LinesSpellTheText(s[1..]);
      PushText(s[0], Lines(s[1..]));
      assert s == [s[0]] + s[1..];
      assert s + [NEWLINE] == [s[0]] + (s[1..] + [NEWLINE]);
    }
  }

  // The lines are the text between newlines; only the last newline may be missing.
  lemma {:induction false} LinesMakeUpTheText(s: string)
    ensures NewlineFree(Lines(s))
    ensures Unlines(Lines(s)) == if s == [] || s[|s| - 1] == NEWLINE then s else s + [NEWLINE]
  {
    LinesAreNewlineFree(s);
    LinesSpellTheText(s);
  }

  // The offset at which line k starts.
  function LineStart(lines: seq<string>, k: nat): nat
    requires k <= |lines|
  {
    if k == 0 then 0 else |lines[0]| + 1 + LineStart(lines[1..], k - 1)
  }

  lemma PushStart(c: char, lines: seq<string>, k: nat)
    requires k <= |Push(c, lines)|
    ensures LineStart(Push(c, lines), k) ==
            if k == 0 then 0
            else if c == NEWLINE then 1 + LineStart(lines, k - 1)
            else if lines == [] then 2
            else 1 + LineStart(lines, k)
  {
    var r := Push(c, lines);
    if c == NEWLINE {
      assert r[1..] == lines;
    } else if lines != [] {
      assert r[1..] == lines[1..];
    }
  }

  // `kept` are the lines that start after the offset.
  ghost predicate StartAfter(lines: seq<string>, off: nat, kept: seq<string>) {
    && |kept| < |lines| && kept == lines[|lines| - |kept|..]
    && forall k {:trigger LineStart(lines, k)} :: 0 <= k <= |lines| ==>
         (k >= |lines| - |kept| <==> LineStart(lines, k) > off)
  }

  lemma PushKeeps(c: char, lines: seq<string>, off: nat, kept: seq<string>)
    requires StartAfter(lines, off, kept)
    ensures StartAfter(Push(c, lines), off + 1, kept)
  {
    var r := Push(c, lines);
    assert r[|r| - |kept|..] == lines[|lines| - |kept|..];
    forall k | 0 <= k <= |r| ensures k >= |r| - |kept| <==> LineStart(r, k) > off + 1 {
      PushStart(c, lines, k);
      assert LineStart(lines, 0) == 0;
    }
  }

  lemma AllButTheFirst(lines: seq<string>)
    requires lines != []
    ensures StartAfter(lines, 0, lines[1..])
  {
  }

  // What is left when the split starts at an offset and its first piece is dropped.
  function From(s: string, off: nat): seq<string>
    requires off < |s|
  {
    Lines(s[off..])[1..]
  }

  // These are exactly the lines that start after that offset.
  lemma {:induction false} DroppedLines(s: string, off: nat)
    requires off < |s|
    ensures StartAfter(Lines(s), off, From(s, off))
  {
    if off == 0 {
      assert s[off..] == s;
      AllButTheFirst(Lines(s));
    } else {
      assert s[off..] == s[1..][off - 1..];
      DroppedLines(s[1..], off - 1);
      PushKeeps(s[0], Lines(s[1..]), off - 1, From(s, off));
    }
  }

  // ---------------------------------------------------------------- the chunk

  function SeekTo(size: nat, chunk: nat): nat { if size > chunk then size - chunk else 0 }

  function TailLines(file: string, chunk: nat): seq<string>
    requires chunk > 0
  {
    var seekTo := SeekTo(|file|, chunk);
    var lines := Lines(file[seekTo..]);
    if seekTo > 0 then lines[1..] else lines
  }

  // What is read is always a suffix of the list of all lines, and every line that starts
  // after the chunk does is in it.
  lemma {:induction false} TailIsSuffix(file: string, chunk: nat, k: nat)
    requires chunk > 0 && k <= |Lines(file)|
    ensures var all, kept := Lines(file), TailLines(file, chunk);
            && |kept| <= |all| && kept == all[|all| - |kept|..]
            && (k >= |all| - |kept| <==> |file| <= chunk || LineStart(all, k) > |file| - chunk)
  {
    TailStarts(file, chunk);
    SuffixByStart(|file|, chunk, Lines(file), TailLines(file, chunk), k);
  }

  lemma {:induction false} TailStarts(file: string, chunk: nat)
    requires chunk > 0
    ensures if |file| > chunk then StartAfter(Lines(file), |file| - chunk, TailLines(file, chunk))
            else TailLines(file, chunk) == Lines(file)
  {
    TailIsFrom(file, chunk);
    if |file| > chunk { DroppedLines(file, |file| - chunk); }
  }

  lemma {:induction false} SuffixByStart(size: nat, chunk: nat, all: seq<string>, kept: seq<string>, k: nat)
    requires k <= |all| && if size > chunk then StartAfter(all, size - chunk, kept) else kept == all
    ensures |kept| <= |all| && kept == all[|all| - |kept|..]
    ensures k >= |all| - |kept| <==> size <= chunk || LineStart(all, k) > size - chunk
  {
    if size > chunk { StartAfterAt(all, size - chunk, kept, k); }
  }

  lemma {:induction false} TailIsFrom(file: string, chunk: nat)
    requires chunk > 0
    ensures TailLines(file, chunk) == if |file| > chunk then From(file, |file| - chunk) else Lines(file)
  {
    assert file[0..] == file;
  }

  // `kept` are all the lines if the chunk is the whole file, else those that start after it does.
  ghost predicate IsTail(file: string, chunk: nat, kept: seq<string>) {
    var all := Lines(file);
    && |kept| <= |all| && kept == all[|all| - |kept|..]
    && forall k {:trigger LineStart(all, k)} :: 0 <= k <= |all| ==>
         (k >= |all| - |kept| <==> |file| <= chunk || LineStart(all, k) > |file| - chunk)
  }

  lemma {:induction false} TailLinesAreTail(file: string, chunk: nat)
    requires chunk > 0
    ensures IsTail(file, chunk, TailLines(file, chunk))
  {
    TailIsSuffix(file, chunk, 0);
    forall k: nat | k <= |Lines(file)|
      ensures k >= |Lines(file)| - |TailLines(file, chunk)| <==>
              |file| <= chunk || LineStart(Lines(file), k) > |file| - chunk
    {
      TailIsSuffix(file, chunk, k);
    }
  }

  lemma {:induction false} TailIsUnique(file: string, chunk: nat, kept: seq<string>)
    requires chunk > 0 && IsTail(file, chunk, kept)
    ensures kept == TailLines(file, chunk)
  {
    TailIsSuffix(file, chunk, |Lines(file)| - |kept|);
    TailIsSuffix(file, chunk, |Lines(file)| - |TailLines(file, chunk)|);
    assert IsTail(file, chunk, kept);
    assert LineStart(Lines(file), |Lines(file)| - |TailLines(file, chunk)|) >= 0;
    assert LineStart(Lines(file), |Lines(file)| - |kept|) >= 0;
  }

  // `_read_last_chunk`; None is a file that cannot be read.
  method ReadLastChunk(file: Option<string>, chunk: nat) returns (lines: seq<string>)
    requires chunk > 0
    ensures file.None? ==> lines == []
    ensures file.Some? ==> IsTail(file.value, chunk, lines)
  {
    if file.None? {
      return [];
    }
    var seekTo := SeekTo(|file.value|, chunk);
    lines := Lines(file.value[seekTo..]);
    if seekTo > 0 {
      lines := lines[1..];
    }
    TailLinesAreTail(file.value, chunk);
  }

  lemma {:induction false} StartAfterAt(lines: seq<string>, off: nat, kept: seq<string>, k: nat)
    requires StartAfter(lines, off, kept) && k <= |lines|
    ensures |kept| <= |lines| && kept == lines[|lines| - |kept|..]
    ensures k >= |lines| - |kept| <==> LineStart(lines, k) > off
  {
  }

  // `lines[-tail:]` for a positive tail.
  function Last(lines: seq<string>, tail: nat): (r: seq<string>)
    ensures |r| <= tail
  {
    if |lines| <= tail then lines else lines[|lines| - tail..]
  }

  // As many lines as wanted, or all there are, and the last of them.
  lemma LastMeans(lines: seq<string>, tail: nat)
    ensures |Last(lines, tail)| == Min(tail, |lines|)
    ensures Last(lines, tail) == lines[|lines| - Min(tail, |lines|)..]
  {
  }

  function Min(a: nat, b: nat): nat { if a <= b then a else b }

  lemma LastOfSuffix(lines: seq<string>, kept: seq<string>, tail: nat)
    requires |kept| <= |lines| && kept == lines[|lines| - |kept|..]
    ensures Last(kept, tail) == Last(lines, tail) <==> |kept| >= Min(tail, |lines|)
  {
    if |kept| >= tail {
      assert kept[|kept| - tail..] == lines[|lines| - tail..];
    } else if |kept| == |lines| {
      assert kept == lines;
    }
  }

  // The last `tail` lines of the chunk are the last `tail` lines of the file exactly when
  // the chunk is the whole file, or the first wanted line starts after the chunk does.
  lemma {:induction false} TailIsExactWhen(file: string, tail: nat, chunk: nat)
    requires tail > 0 && chunk > 0
    ensures var lines := Lines(file);
            Last(TailLines(file, chunk), tail) == Last(lines, tail) <==>
              |file| <= chunk || LineStart(lines, |lines| - Min(tail, |lines|)) > |file| - chunk
  {
    var lines, kept := Lines(file), TailLines(file, chunk);
    TailIsSuffix(file, chunk, |lines| - Min(tail, |lines|));
    LastOfSuffix(lines, kept, tail);
  }

  lemma {:induction false} StartOfSuffix(lines: seq<string>, k: nat)
    requires k <= |lines|
    ensures LineStart(lines, k) + |Unlines(lines[k..])| == |Unlines(lines)|
  {
    if k == 0 {
      assert lines[0..] == lines;
    } else {
      assert lines[k..] == lines[1..][k - 1..];
      StartOfSuffix(lines[1..], k - 1);
    }
  }

  lemma {:induction false} ShortLines(lines: seq<string>, width: nat)
    requires forall l :: l in lines ==> |l| < width
    ensures |Unlines(lines)| <= |lines| * width
  {
    if lines != [] {
      ShortLines(lines[1..], width);
      assert |lines| * width == width + (|lines| - 1) * width;
    }
  }

  // The endpoint reads 600 bytes for each line it wants, which is enough if none of the
  // wanted lines is longer than 598.
  lemma {:induction false} BudgetSuffices(file: string, tail: nat)
    requires tail > 0
    requires forall l :: l in Last(Lines(file), tail) ==> |l| < 599
    ensures Last(TailLines(file, tail * 600), tail) == Last(Lines(file), tail)
  {
    var lines, chunk := Lines(file), tail * BYTES_PER_LINE;
    var n := Min(tail, |lines|);
    TailIsExactWhen(file, tail, chunk);
    if |file| > chunk {
      LinesMakeUpTheText(file);
      StartOfSuffix(lines, |lines| - n);
      assert Last(lines, tail) == lines[|lines| - n..];
      ShortLines(lines[|lines| - n..], BYTES_PER_LINE - 1);
    }
  }

  // One long line is enough to lose records: here the second of two lines fills the budget.
  lemma LongLineLosesRecords(a: string, b: string)
    requires NEWLINE !in a && NEWLINE !in b && |b| >= 599
    ensures var file := a + [NEWLINE] + (b + [NEWLINE] + []);
            Lines(file) == [a, b] && Last(TailLines(file, 600), 1) != Last(Lines(file), 1)
  {
    var file := a + [NEWLINE] + (b + [NEWLINE] + []);
    LineThenRest(a, b + [NEWLINE] + []);
    LineThenRest(b, []);
    assert [a, b] == [a] + [b];
    assert LineStart([a, b], 1) == |a| + 1;
    TailIsExactWhen(file, 1, BYTES_PER_LINE);
  }

  lemma {:induction false} LineThenRest(line: string, rest: string)
    requires NEWLINE !in line
    ensures Lines(line + [NEWLINE] + rest) == [line] + Lines(rest)
  {
    var s := line + [NEWLINE] + rest;
    if line == [] {
      assert s[1..] == rest;
    } else {
      assert s[1..] == line[1..] + [NEWLINE] + rest;
      LineThenRest(line[1..], rest);
      var below := [line[1..]] + Lines(rest);
      assert below[1..] == Lines(rest);
      assert [line[0]] + line[1..] == line;
    }
  }

  // ---------------------------------------------------------------- the entries

  // Numbers, NaN among them, and Booleans as they are written.
  datatype Json =
    | Null
    | Scalar(literal: string)
    | Str(text: string)
    | Array(items: seq<Json>)
    | Object(fields: map<string, Json>)

  // `json.loads`: a value, a JSONDecodeError, or any other exception.
  datatype Decoded = Parsed(value: Json) | NotJson | Raises

  type Decoder = string -> Decoded

  datatype Failure = DecoderError | TypeError | AttributeError | RenderError

  const RAW := "raw"

  predicate Contains(s: string, t: string) { exists i :: 0 <= i <= |s| && t <= s[i..] }

  // `_parse_audit_line`: what is decoded, where Null stands for Python's None.
  function ParseAuditLine(raw: string, decode: Decoder): Result<Json, Failure> {
    var stripped := Strip(raw);
    if stripped == [] then Ok(Null)
    else match decode(stripped)
         case Parsed(j) => Ok(j)
         case NotJson => Ok(Object(map[RAW := Str(stripped)]))
         case Raises => Err(DecoderError)
  }

  // `"raw" in parsed and set(parsed.keys()) == {"raw"}` is not defined on every value.
  function CountsAsError(parsed: Json): Result<bool, Failure>
    requires !parsed.Null?
  {
    match parsed
    case Scalar(_) => Err(TypeError)
    case Str(s) => if Contains(s, RAW) then Err(AttributeError) else Ok(false)
    case Array(items) => if Str(RAW) in items then Err(AttributeError) else Ok(false)
    case Object(fields) => Ok(fields.Keys == {RAW})
  }

  predicate IsRawObject(j: Json) { j.Object? && j.fields.Keys == {RAW} }

  // A value that the "raw" test is not defined on, and what the test raises.
  predicate FailsRawTest(j: Json, f: Failure) {
    || (f == TypeError && j.Scalar?)
    || (f == AttributeError && j.Str? && Contains(j.text, RAW))
    || (f == AttributeError && j.Array? && Str(RAW) in j.items)
  }

  // The line ends the loop with this exception.
  predicate LineRaises(raw: string, decode: Decoder, f: Failure) {
    && Strip(raw) != []
    && match decode(Strip(raw))
       case Parsed(j) => FailsRawTest(j, f)
       case NotJson => false
       case Raises => f == DecoderError
  }

  predicate LineFails(raw: string, decode: Decoder) { exists f :: LineRaises(raw, decode, f) }

  predicate NoneFails(lines: seq<string>, decode: Decoder) {
    forall i :: 0 <= i < |lines| ==> !LineFails(lines[i], decode)
  }

  // What the lines decode to, without the empty ones and without JSON nulls.
  function Entries(lines: seq<string>, decode: Decoder): (entries: seq<Json>)
    ensures |entries| <= |lines|
  {
    if lines == [] then [] else Entries(lines[..|lines| - 1], decode) + Entry(lines[|lines| - 1], decode)
  }

  function Entry(line: string, decode: Decoder): (entry: seq<Json>)
    ensures |entry| <= 1
  {
    var parsed := ParseAuditLine(line, decode);
    if parsed.Err? || parsed.value.Null? then [] else [parsed.value]
  }

  // A non-blank line that decodes to something else than null, or does not decode.
  predicate IsShown(line: string, decode: Decoder) {
    var stripped := Strip(line);
    stripped != [] && (decode(stripped) == NotJson || (decode(stripped).Parsed? && decode(stripped).value != Null))
  }

  // The entry that such a line gives: what it decodes to, or the line itself.
  predicate IsEntryOf(line: string, decode: Decoder, j: Json) {
    var stripped := Strip(line);
    decode(stripped) == Parsed(j) || (decode(stripped) == NotJson && j == Object(map["raw" := Str(stripped)]))
  }

  predicate Ascending(at: seq<nat>, n: nat) {
    && (forall i :: 0 <= i < |at| ==> at[i] < n)
    && forall i, j :: 0 <= i < j < |at| ==> at[i] < at[j]
  }

  // The entries are those of the lines at these places, which are all the shown ones.
  ghost predicate ShownAt(lines: seq<string>, decode: Decoder, entries: seq<Json>, at: seq<nat>) {
    && |at| == |entries| && Ascending(at, |lines|)
    && (forall i :: 0 <= i < |at| ==> IsEntryOf(lines[at[i]], decode, entries[i]))
    && forall k: nat :: k < |lines| ==> (k in at <==> IsShown(lines[k], decode))
  }

  // Line by line, in order, each shown line gives its entry, and nothing else is there.
  ghost predicate Shows(lines: seq<string>, decode: Decoder, entries: seq<Json>) {
    exists at: seq<nat> :: ShownAt(lines, decode, entries, at)
  }

  lemma EntryIsShown(line: string, decode: Decoder)
    ensures IsShown(line, decode) <==> Entry(line, decode) != []
    ensures Entry(line, decode) != [] ==> IsEntryOf(line, decode, Entry(line, decode)[0])
  {
  }

  lemma ShownAtSkip(lines: seq<string>, line: string, decode: Decoder, entries: seq<Json>, at: seq<nat>)
    requires ShownAt(lines, decode, entries, at) && !IsShown(line, decode)
    ensures ShownAt(lines + [line], decode, entries, at)
  {
  }

  lemma ShownAtAppend(lines: seq<string>, line: string, decode: Decoder, entries: seq<Json>, j: Json, at: seq<nat>)
    requires ShownAt(lines, decode, entries, at) && IsShown(line, decode) && IsEntryOf(line, decode, j)
    ensures ShownAt(lines + [line], decode, entries + [j], at + [|lines|])
  {
    var lines', at' := lines + [line], at + [|lines|];
    forall k: nat | k < |lines'| ensures k in at' <==> IsShown(lines'[k], decode) {
      if k < |lines| {
        assert lines'[k] == lines[k];
      } else {
        assert at'[|at|] == k;
      }
    }
  }

  lemma {:induction false} EntriesAreShownAt(lines: seq<string>, decode: Decoder) returns (at: seq<nat>)
    ensures ShownAt(lines, decode, Entries(lines, decode), at)
  {
    at := [];
    if lines != [] {
      var before, line := lines[..|lines| - 1], lines[|lines| - 1];
      assert lines == before + [line];
      at := EntriesAreShownAt(before, decode);
      EntryIsShown(line, decode);
      var entry := Entry(line, decode);
      if entry == [] {
        ShownAtSkip(before, line, decode, Entries(before, decode), at);
        assert Entries(lines, decode) == Entries(before, decode);
      } else {
        ShownAtAppend(before, line, decode, Entries(before, decode), entry[0], at);
        assert entry == [entry[0]];
        at := at + [|before|];
      }
    }
  }

  // What comes back of these lines, in terms of the decoder alone.
  lemma EntriesAreShown(lines: seq<string>, decode: Decoder)
    ensures Shows(lines, decode, Entries(lines, decode))
  {
    var at := EntriesAreShownAt(lines, decode);
  }

  function RawObjects(entries: seq<Json>): nat {
    if entries == [] then 0
    else RawObjects(entries[..|entries| - 1]) + if IsRawObject(entries[|entries| - 1]) then 1 else 0
  }

  lemma EntriesStep(lines: seq<string>, k: nat, decode: Decoder)
    requires k < |lines|
    ensures Entries(lines[..k + 1], decode) == Entries(lines[..k], decode) + Entry(lines[k], decode)
  {
    assert lines[..k + 1][..k] == lines[..k];
  }

  lemma RawObjectsStep(entries: seq<Json>, j: Json)
    ensures RawObjects(entries + [j]) == RawObjects(entries) + if IsRawObject(j) then 1 else 0
  {
    assert (entries + [j])[..|entries|] == entries;
  }

  // The first of these lines that fails does so with this exception.
  predicate FailsFirst(lines: seq<string>, decode: Decoder, f: Failure) {
    exists k ::
      0 <= k < |lines| && LineRaises(lines[k], decode, f) && NoneFails(lines[..k], decode)
  }

  // What one line does to the loop: it raises, is skipped, or gives an entry.
  lemma LineMeans(raw: string, decode: Decoder)
    ensures match ParseAuditLine(raw, decode)
            case Err(f) => LineRaises(raw, decode, f)
            case Ok(j) =>
              if j.Null? then !LineFails(raw, decode) && Entry(raw, decode) == []
              else match CountsAsError(j)
                   case Err(f) => LineRaises(raw, decode, f)
                   case Ok(counts) =>
                     !LineFails(raw, decode) && Entry(raw, decode) == [j] && (counts <==> IsRawObject(j))
  {
  }

  // Where the loop stands after the first k lines.
  ghost predicate Collected(lines: seq<string>, k: nat, decode: Decoder, entries: seq<Json>, errors: nat)
    requires k <= |lines|
  {
    && NoneFails(lines[..k], decode)
    && entries == Entries(lines[..k], decode) && errors == RawObjects(entries)
  }

  lemma FirstFailure(lines: seq<string>, k: nat, decode: Decoder, f: Failure)
    requires k < |lines| && NoneFails(lines[..k], decode) && LineRaises(lines[k], decode, f)
    ensures FailsFirst(lines, decode, f)
  {
  }

  lemma NoneFailsStep(lines: seq<string>, k: nat, decode: Decoder)
    requires k < |lines| && NoneFails(lines[..k], decode) && !LineFails(lines[k], decode)
    ensures NoneFails(lines[..k + 1], decode)
  {
    assert lines[..k + 1] == lines[..k] + [lines[k]];
  }

  lemma CollectStep(lines: seq<string>, k: nat, decode: Decoder, entries: seq<Json>, errors: nat)
    requires k < |lines| && Collected(lines, k, decode, entries, errors)
    ensures match ParseAuditLine(lines[k], decode)
            case Err(f) => FailsFirst(lines, decode, f)
            case Ok(j) =>
              if j.Null? then Collected(lines, k + 1, decode, entries, errors)
              else match CountsAsError(j)
                   case Err(f) => FailsFirst(lines, decode, f)
                   case Ok(counts) =>
                     Collected(lines, k + 1, decode, entries + [j], if counts then errors + 1 else errors)
  {
    LineMeans(lines[k], decode);
    EntriesStep(lines, k, decode);
    var parsed := ParseAuditLine(lines[k], decode);
    if parsed.Err? {
      FirstFailure(lines, k, decode, parsed.error);
    } else if parsed.value.Null? {
      NoneFailsStep(lines, k, decode);
    } else {
      var counts := CountsAsError(parsed.value);
      if counts.Err? {
        FirstFailure(lines, k, decode, counts.error);
      } else {
        NoneFailsStep(lines, k, decode);
        RawObjectsStep(entries, parsed.value);
      }
    }
  }

  // The selection loop of `get_audit_log`.
  method CollectEntries(rawLines: seq<string>, tail: nat, decode: Decoder)
    returns (r: Result<(seq<Json>, nat), Failure>)
    requires tail > 0
    ensures var lines := Last(rawLines, tail);
            match r
            case Err(f) => FailsFirst(lines, decode, f)
            case Ok((entries, errors)) =>
              Collected(lines, |lines|, decode, entries, errors) && Shows(lines, decode, entries)
  {
    var lines := Last(rawLines, tail);
    var entries, errors := [], 0;
    for k := 0 to |lines|
      invariant Collected(lines, k, decode, entries, errors)
    {
      CollectStep(lines, k, decode, entries, errors);
      var parsed := ParseAuditLine(lines[k], decode);
      if parsed.Err? {
        return Err(parsed.error);
      }
      if !parsed.value.Null? {
        var counts := CountsAsError(parsed.value);
        if counts.Err? {
          return Err(counts.error);
        }
        if counts.value {
          errors := errors + 1;
        }
        entries := entries + [parsed.value];
      }
    }
    assert lines[..|lines|] == lines;
    EntriesAreShown(lines, decode);
    r := Ok((entries, errors));
  }

  // The body and the two headers that depend on the log.
  datatype Answer = Answer(entries: seq<Json>, returned: nat, parseErrors: nat)

  // The lines that the loop goes through.
  function Selected(log: Option<string>, tail: nat): seq<string>
    requires tail > 0
  {
    Last(if log.None? then [] else TailLines(log.value, tail * 600), tail)
  }

  // `get_audit_log`.  The response of a missing file is the empty list; `renders` says
  // whether `JSONResponse` can be built from the entries.
  method GetAuditLog(present: bool, log: Option<string>, tail: nat, decode: Decoder, renders: seq<Json> -> bool)
    returns (r: Result<Answer, Failure>)
    requires tail > 0
    ensures !present ==> r == Ok(Answer([], 0, 0))
    ensures present ==>
              var lines := Selected(log, tail);
              && (r.Ok? <==> NoneFails(lines, decode) && renders(Entries(lines, decode)))
              && (r.Err? ==> if NoneFails(lines, decode) then r.error == RenderError
                             else FailsFirst(lines, decode, r.error))
    ensures r.Ok? ==> r.value.returned == |r.value.entries| <= tail
    ensures r.Ok? && present ==> r.value.entries == Entries(Selected(log, tail), decode)
    ensures r.Ok? ==> r.value.parseErrors == RawObjects(r.value.entries)
  {
    if !present {
      return Ok(Answer([], 0, 0));
    }
    var rawLines := ReadLastChunk(log, tail * BYTES_PER_LINE);
    if log.Some? { TailIsUnique(log.value, tail * BYTES_PER_LINE, rawLines); }
    var collected := CollectEntries(rawLines, tail, decode);
    if collected.Err? {
      return Err(collected.error);
    }
    var (entries, errors) := collected.value;
    ghost var lines := Selected(log, tail);
    assert lines[..|lines|] == lines;
    if !renders(entries) {
      return Err(RenderError);
    }
    r := Ok(Answer(entries, |entries|, errors));
  }

  function One(b: bool): nat { if b then 1 else 0 }

  // A non-blank line that is not JSON.
  predicate IsNotJson(line: string, decode: Decoder) { Strip(line) != [] && decode(Strip(line)).NotJson? }

  // A line that decodes to an object with the one key "raw".
  ghost predicate IsGenuineRaw(line: string, decode: Decoder) {
    Strip(line) != [] && exists v :: decode(Strip(line)) == Parsed(Object(map["raw" := v]))
  }

  function NotJsonLines(lines: seq<string>, decode: Decoder): nat {
    if lines == [] then 0
    else NotJsonLines(lines[..|lines| - 1], decode) + One(IsNotJson(lines[|lines| - 1], decode))
  }

  ghost function GenuineRaw(lines: seq<string>, decode: Decoder): nat {
    if lines == [] then 0
    else GenuineRaw(lines[..|lines| - 1], decode) + One(IsGenuineRaw(lines[|lines| - 1], decode))
  }

  lemma LineCounts(line: string, decode: Decoder)
    ensures var entry := Entry(line, decode);
            (entry != [] && IsRawObject(entry[0])) <==> IsNotJson(line, decode) || IsGenuineRaw(line, decode)
  {
    var decoded := decode(Strip(line));
    assert map[RAW := Str(Strip(line))].Keys == {RAW};
    if decoded.Parsed? && IsRawObject(decoded.value) {
      var fields := decoded.value.fields;
      assert fields == map[RAW := fields[RAW]];
    }
    assert forall v: Json :: map["raw" := v].Keys == {RAW};
  }

  lemma EntryStep(entries: seq<Json>, entry: seq<Json>)
    requires |entry| <= 1
    ensures RawObjects(entries + entry) == RawObjects(entries) + One(entry != [] && IsRawObject(entry[0]))
  {
    if entry == [] {
      assert entries + entry == entries;
    } else {
      assert entry == [entry[0]];
      RawObjectsStep(entries, entry[0]);
    }
  }

  // The header counts the lines that do not decode, and with them any line that decodes to
  // an object with the one key "raw".
  lemma {:induction false} ParseErrorsAreFailuresAndRawObjects(lines: seq<string>, decode: Decoder)
    ensures RawObjects(Entries(lines, decode)) == NotJsonLines(lines, decode) + GenuineRaw(lines, decode)
  {
    if lines != [] {
      var before, line := lines[..|lines| - 1], lines[|lines| - 1];
      ParseErrorsAreFailuresAndRawObjects(before, decode);
      EntryStep(Entries(before, decode), Entry(line, decode));
      LineCounts(line, decode);
    }
  }
}
