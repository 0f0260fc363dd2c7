/** Python string operations and the usual result types. */
module Text {
  datatype Option<+T> = None | Some(value: T)

  datatype Result<+T, +E> = Ok(value: T) | Err(error: E)

  // `str.isspace` on one character, which is also what `\s` matches.
  predicate IsSpace(c: char) {
    || '\t' <= c <= '\r'
    || '\U{1C}' <= c <= ' '
    || c == '\U{85}' || c == '\U{A0}' || c == '\U{1680}'
    || '\U{2000}' <= c <= '\U{200A}'
    || c == '\U{2028}' || c == '\U{2029}' || c == '\U{202F}' || c == '\U{205F}' || c == '\U{3000}'
  }

  function StripLeft(s: string): string {
    if s != [] && IsSpace(s[0]) then StripLeft(s[1..]) else s
  }

  function StripRight(s: string): string {
    if s != [] && IsSpace(s[|s| - 1]) then StripRight(s[..|s| - 1]) else s
  }

  function Strip(s: string): string {
    StripRight(StripLeft(s))
  }

  // Neither end is white space.
  predicate Stripped(s: string) {
    s != [] ==> !IsSpace(s[0]) && !IsSpace(s[|s| - 1])
  }

  lemma {:induction false} StripRightEnds(s: string)
    ensures StripRight(s) <= s
    ensures StripRight(s) != [] ==> !IsSpace(StripRight(s)[|StripRight(s)| - 1])
  {
    if s != [] && IsSpace(s[|s| - 1]) { StripRightEnds(s[..|s| - 1]); }
  }

  lemma {:induction false} StripLeftStarts(s: string)
    ensures StripLeft(s) != [] ==> !IsSpace(StripLeft(s)[0])
    ensures |StripLeft(s)| <= |s| && StripLeft(s) == s[|s| - |StripLeft(s)|..]
  {
    if s != [] && IsSpace(s[0]) { StripLeftStarts(s[1..]); }
  }

  lemma StripIsSlice(s: string)
    ensures exists i, j :: 0 <= i <= j <= |s| && Strip(s) == s[i..j]
  {
    StripLeftStarts(s);
    var left := StripLeft(s);
    StripRightEnds(left);
    var i := |s| - |left|;
    assert Strip(s) == s[i..i + |Strip(s)|];
  }

  lemma StripIsStripped(s: string)
    ensures Stripped(Strip(s))
  {
    StripLeftStarts(s);
    StripRightEnds(StripLeft(s));
  }

  lemma StrippedIsFixed(s: string)
    requires Stripped(s)
    ensures Strip(s) == s
  {
  }

  lemma StripIdempotent(s: string)
    ensures Strip(Strip(s)) == Strip(s)
  {
    StripIsStripped(s);
    StrippedIsFixed(Strip(s));
  }

  predicate AllSpace(s: string) { forall i :: 0 <= i < |s| ==> IsSpace(s[i]) }

  lemma {:induction false} StripLeftMeans(s: string) returns (left: string)
    ensures s == left + StripLeft(s) && AllSpace(left)
  {
    left := [];
    if s != [] && IsSpace(s[0]) {
      var l := StripLeftMeans(s[1..]);
      left := [s[0]] + l;
      assert s == [s[0]] + s[1..];
    }
  }

  lemma {:induction false} StripRightMeans(s: string) returns (right: string)
    ensures s == StripRight(s) + right && AllSpace(right)
  {
    right := [];
    if s != [] && IsSpace(s[|s| - 1]) {
      var r := StripRightMeans(s[..|s| - 1]);
      right := r + [s[|s| - 1]];
      assert s == s[..|s| - 1] + [s[|s| - 1]];
    }
  }

  // Stripping takes white space off both ends and nothing else ...
  lemma StripMeans(s: string) returns (left: string, right: string)
    ensures s == left + Strip(s) + right && AllSpace(left) && AllSpace(right) && Stripped(Strip(s))
  {
    left := StripLeftMeans(s);
    right := StripRightMeans(StripLeft(s));
    StripIsStripped(s);
  }

  // `mid` stands in `s` from offset `at` on, with white space alone around it.
  predicate Trims(s: string, at: nat, mid: string) {
    && at + |mid| <= |s| && s[at..at + |mid|] == mid && Stripped(mid)
    && forall i :: 0 <= i < |s| && !(at <= i < at + |mid|) ==> IsSpace(s[i])
  }

  lemma TrimsAgree(s: string, at: nat, mid: string, at': nat, mid': string)
    requires Trims(s, at, mid) && Trims(s, at', mid') && mid != []
    ensures mid == mid'
  {
    assert s[at] == mid[0] && s[at + |mid| - 1] == mid[|mid| - 1];
    assert mid' != [];
    assert s[at'] == mid'[0] && s[at' + |mid'| - 1] == mid'[|mid'| - 1];
  }

  lemma PaddingTrims(left: string, mid: string, right: string)
    requires AllSpace(left) && AllSpace(right) && Stripped(mid)
    ensures Trims(left + mid + right, |left|, mid)
  {
  }

  // ... so it gives back what white space was put around.
  lemma StripUndoesPadding(left: string, mid: string, right: string)
    requires AllSpace(left) && AllSpace(right) && Stripped(mid)
    ensures Strip(left + mid + right) == mid
  {
    var s := left + mid + right;
    var l, r := StripMeans(s);
    PaddingTrims(left, mid, right);
    PaddingTrims(l, Strip(s), r);
    if mid != [] {
      TrimsAgree(s, |left|, mid, |l|, Strip(s));
    } else if Strip(s) != [] {
      TrimsAgree(s, |l|, Strip(s), |left|, mid);
    }
  }

  lemma BlankStrips(s: string)
    ensures Strip(s) == [] <==> AllSpace(s)
  {
    var l, r := StripMeans(s);
    if AllSpace(s) {
      assert s == s + [] + [];
      StripUndoesPadding(s, [], []);
    }
  }

  // `s.split(c)` for a single character: always at least one piece.
  function Split(s: string, c: char): (parts: seq<string>)
    ensures parts != []
  {
    if s == [] then [[]]
    else
      var rest := Split(s[1..], c);
      if s[0] == c then [[]] + rest else [[s[0]] + rest[0]] + rest[1..]
  }

  function Join(parts: seq<string>, c: char): string
    requires parts != []
  {
    if |parts| == 1 then parts[0] else parts[0] + [c] + Join(parts[1..], c)
  }

  // The pieces are what stands between the separators.
  lemma {:induction false} SplitMeans(s: string, c: char)
    ensures Join(Split(s, c), c) == s
    ensures forall i :: 0 <= i < |Split(s, c)| ==> c !in Split(s, c)[i]
  {
    if s != [] {
      SplitMeans(s[1..], c);
      var rest, parts := Split(s[1..], c), Split(s, c);
      assert parts[1..] == if s[0] == c then rest else rest[1..];
      assert s == [s[0]] + s[1..];
      if s[0] == c {
        assert [] + [c] + Join(rest, c) == s;
        assert forall i :: 1 <= i < |parts| ==> parts[i] == rest[i - 1];
      } else {
        assert forall i :: 1 <= i < |parts| ==> parts[i] == rest[i];
        assert |rest| > 1 ==> [s[0]] + (rest[0] + [c] + Join(rest[1..], c)) == parts[0] + [c] + Join(parts[1..], c);
      }
    }
  }

  lemma {:induction false} SplitFirst(a: string, b: string, c: char)
    requires c !in a
    ensures Split(a, c) == [a]
    ensures Split(a + [c] + b, c) == [a] + Split(b, c)
  {
    var s := a + [c] + b;
    if a == [] {
      assert s[1..] == b;
    } else {
      SplitFirst(a[1..], b, c);
      assert s[1..] == a[1..] + [c] + b;
      assert [a[0]] + a[1..] == a;
      assert ([a[1..]] + Split(b, c))[1..] == Split(b, c);
      assert [a[1..]][1..] == [];
    }
  }

  // The characters that end a line for `str.splitlines`.
  predicate IsBreak(c: char) {
    || '\n' <= c <= '\r'
    || '\U{1C}' <= c <= '\U{1E}'
    || c == '\U{85}' || c == '\U{2028}' || c == '\U{2029}'
  }

  // `str.splitlines`, with all its line boundaries.
  function SplitLines(s: string): (lines: seq<string>)
    ensures lines == [] <==> s == []
  {
    if s == [] then []
    else if |s| > 1 && s[0] == '\r' && s[1] == '\n' then [[]] + SplitLines(s[2..])
    else
      var rest := SplitLines(s[1..]);
      if IsBreak(s[0]) then [[]] + rest
      else if rest == [] then [[s[0]]]
      else [[s[0]] + rest[0]] + rest[1..]
  }

  predicate BreakFree(s: string) { forall i :: 0 <= i < |s| ==> !IsBreak(s[i]) }

  // One line boundary, "\r\n" being one.
  predicate IsEnding(end: string) { (|end| == 1 && IsBreak(end[0])) || end == "\r\n" }

  // `splitlines` takes off a line without boundaries, and one boundary if something follows ...
  lemma {:induction false} LineIsSplitOff(line: string, end: string, rest: string)
    requires BreakFree(line) && IsEnding(end) && (end == "\r" ==> rest == [] || rest[0] != '\n')
    ensures SplitLines(line + end + rest) == [line] + SplitLines(rest)
  {
    var s := line + end + rest;
    if line == [] {
      assert s == end + rest;
      assert s[|end|..] == rest;
    } else {
      assert s[0] == line[0] && !IsBreak(s[0]);
      assert s[1..] == line[1..] + end + rest;
      LineIsSplitOff(line[1..], end, rest);
      assert ([line[1..]] + SplitLines(rest))[1..] == SplitLines(rest);
      assert [line[0]] + line[1..] == line;
    }
  }

  // ... and leaves a last line without one as it is.
  lemma {:induction false} LastLine(line: string)
    requires BreakFree(line) && line != []
    ensures SplitLines(line) == [line]
  {
    if |line| > 1 {
      LastLine(line[1..]);
      assert [line[1..]][1..] == [] && [line[0]] + line[1..] == line;
    } else {
      assert line[1..] == [] && [line[0]] == line;
    }
  }

  // The position of the first '=', or the length.
  function EqualsAt(s: string): (i: nat)
    ensures i <= |s| && '=' !in s[..i] && (i < |s| ==> s[i] == '=')
  {
    if s == [] || s[0] == '=' then 0 else 1 + EqualsAt(s[1..])
  }

  lemma {:induction false} FirstEquals(s: string, n: nat)
    requires n < |s| && s[n] == '=' && '=' !in s[..n]
    ensures EqualsAt(s) == n
  {
    if n > 0 {
      assert s[0] in s[..n] && s[1..][..n - 1] == s[..n][1..];
      FirstEquals(s[1..], n - 1);
    }
  }

  function Max(a: int, b: int): int { if a >= b then a else b }
}
