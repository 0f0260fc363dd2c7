/** `_sanitize_stderr` of skiff/validators.py.

    The path pattern and the collapsing pattern are modelled character by character.  The
    host pattern is an arbitrary choice of stretches that start with a letter, a digit or a
    hyphen, as every match of it does. */
module Sanitize {
  import opened Text

  const LIMIT := 400

  // What the path pattern takes after its leading slash: [^\s:,'"]
  predicate PathChar(c: char) { !IsSpace(c) && c !in ":,'\"" }

  // Length of the leading run of path characters.
  function PathRun(s: string): (n: nat)
    ensures n <= |s|
    ensures forall i :: 0 <= i < n ==> PathChar(s[i])
    ensures n < |s| ==> !PathChar(s[n])
  {
    if s == [] || !PathChar(s[0]) then 0 else 1 + PathRun(s[1..])
  }

  // One `re.sub` of the path pattern by "[path]".
  function StripPass(s: string): string
    decreases |s|
  {
    if s == [] then []
    else if s[0] == '/' && PathRun(s[1..]) > 0 then "[path]" + StripPass(s[1 + PathRun(s[1..])..])
    else [s[0]] + StripPass(s[1..])
  }

  // No slash is directly followed by a path character.
  predicate NoPath(s: string) {
    forall i :: 0 <= i && i + 1 < |s| && s[i] == '/' ==> !PathChar(s[i + 1])
  }

  function Slashes(s: string): nat {
    if s == [] then 0 else (if s[0] == '/' then 1 else 0) + Slashes(s[1..])
  }

  // ---------------------------------------------------------------- one pass is enough

  lemma NoPathCons(c: char, s: string)
    requires NoPath(s) && (s != [] && c == '/' ==> !PathChar(s[0]))
    ensures NoPath([c] + s)
  {
  }

  lemma {:induction false} PassLeavesNoPath(s: string)
    ensures NoPath(StripPass(s))
    ensures s != [] && !PathChar(s[0]) ==> StripPass(s) != [] && StripPass(s)[0] == s[0]
    decreases |s|
  {
    if s != [] {
      if s[0] == '/' && PathRun(s[1..]) > 0 {
        var rest := s[1 + PathRun(s[1..])..];
        PassLeavesNoPath(rest);
        var out := "[path]" + StripPass(rest);
        assert forall i :: 6 <= i < |out| ==> out[i] == StripPass(rest)[i - 6];
      } else {
        PassLeavesNoPath(s[1..]);
        NoPathCons(s[0], StripPass(s[1..]));
      }
    }
  }

  lemma {:induction false} PassIsIdentityOn(s: string)
    requires NoPath(s)
    ensures StripPass(s) == s
  {
    if s != [] {
      assert NoPath(s[1..]) by {
        forall i | 0 <= i && i + 1 < |s[1..]| && s[1..][i] == '/' ensures !PathChar(s[1..][i + 1]) {
          assert s[i + 1] == '/';
        }
      }
      PassIsIdentityOn(s[1..]);
    }
  }

  // One pass reaches the fixpoint.
  lemma {:induction false} OnePassSuffices(s: string)
    ensures StripPass(StripPass(s)) == StripPass(s)
  {
    PassLeavesNoPath(s);
    PassIsIdentityOn(StripPass(s));
  }

  lemma {:induction false} SlashesOfConcat(a: string, b: string)
    ensures Slashes(a + b) == Slashes(a) + Slashes(b)
  {
    if a == [] {
      assert a + b == b;
    } else {
      assert (a + b)[1..] == a[1..] + b;
      SlashesOfConcat(a[1..], b);
    }
  }

  lemma {:induction false} PathDropsSlashes(s: string, n: nat, rest: string, shown: string)
    requires n < |s| && s[0] == '/' && rest == s[1 + n..] && Slashes(shown) <= Slashes(rest)
    ensures Slashes("[path]" + shown) < Slashes(s)
  {
    assert s[1..] == s[1..1 + n] + rest;
    SlashesOfConcat(s[1..1 + n], rest);
    SlashesOfConcat("[path]", shown);
    assert Slashes("[path]") == 0;
  }

  // A pass that changes the text removes at least one slash.
  lemma {:induction false} PassDropsSlashes(s: string)
    ensures Slashes(StripPass(s)) <= Slashes(s)
    ensures StripPass(s) != s ==> Slashes(StripPass(s)) < Slashes(s)
    decreases |s|
  {
    if s != [] {
      if s[0] == '/' && PathRun(s[1..]) > 0 {
        var n := PathRun(s[1..]);
        PassDropsSlashes(s[1 + n..]);
        PathDropsSlashes(s, n, s[1 + n..], StripPass(s[1 + n..]));
      } else {
        PassDropsSlashes(s[1..]);
        assert StripPass(s)[1..] == StripPass(s[1..]);
      }
    }
  }

  // ---------------------------------------------------------------- what a pass does

  datatype Piece = Kept(c: char) | Path(text: string)

  function Pieces(s: string): seq<Piece>
    decreases |s|
  {
    if s == [] then []
    else if s[0] == '/' && PathRun(s[1..]) > 0
    then [Path(s[..1 + PathRun(s[1..])])] + Pieces(s[1 + PathRun(s[1..])..])
    else [Kept(s[0])] + Pieces(s[1..])
  }

  function Source(ps: seq<Piece>): string {
    if ps == [] then [] else (if ps[0].Kept? then [ps[0].c] else ps[0].text) + Source(ps[1..])
  }

  function Shown(ps: seq<Piece>): string {
    if ps == [] then [] else (if ps[0].Kept? then [ps[0].c] else "[path]") + Shown(ps[1..])
  }

  // A slash and at least one path character, up to the next character that is none.
  predicate MaximalPaths(ps: seq<Piece>) {
    forall i :: 0 <= i < |ps| && ps[i].Path? ==>
      && |ps[i].text| >= 2 && ps[i].text[0] == '/'
      && (forall j :: 1 <= j < |ps[i].text| ==> PathChar(ps[i].text[j]))
      && (i + 1 < |ps| ==> ps[i + 1].Kept? && !PathChar(ps[i + 1].c))
  }

  lemma MaximalCons(p: Piece, ps: seq<Piece>)
    requires MaximalPaths(ps)
    requires p.Path? ==> |p.text| >= 2 && p.text[0] == '/' && forall j :: 1 <= j < |p.text| ==> PathChar(p.text[j])
    requires p.Path? && ps != [] ==> ps[0].Kept? && !PathChar(ps[0].c)
    ensures MaximalPaths([p] + ps)
  {
  }

  lemma {:induction false} PiecesAreMaximal(s: string)
    ensures MaximalPaths(Pieces(s))
    ensures s != [] && !PathChar(s[0]) ==> Pieces(s) != [] && Pieces(s)[0] == Kept(s[0])
    ensures s == [] ==> Pieces(s) == []
    decreases |s|
  {
    if s != [] {
      var n := PathRun(s[1..]);
      if s[0] == '/' && n > 0 {
        PiecesAreMaximal(s[1 + n..]);
        var text := s[..1 + n];
        assert forall j :: 1 <= j < |text| ==> text[j] == s[1..][j - 1];
        MaximalCons(Path(text), Pieces(s[1 + n..]));
      } else {
        PiecesAreMaximal(s[1..]);
        MaximalCons(Kept(s[0]), Pieces(s[1..]));
      }
    }
  }

  // A pass cuts the text into maximal paths and other characters, keeps the others as
  // they are and shows each path as "[path]".
  lemma {:induction false} PassKeepsTheRest(s: string)
    ensures Source(Pieces(s)) == s && Shown(Pieces(s)) == StripPass(s) && MaximalPaths(Pieces(s))
    decreases |s|
  {
    PiecesAreMaximal(s);
    if s != [] {
      var n := PathRun(s[1..]);
      if s[0] == '/' && n > 0 {
        PassKeepsTheRest(s[1 + n..]);
        assert s == s[..1 + n] + s[1 + n..];
      } else {
        PassKeepsTheRest(s[1..]);
        assert s == [s[0]] + s[1..];
      }
    }
  }

  // ---------------------------------------------------------------- the later steps

  // Text kept, then one match of the host pattern.
  datatype Cut = Cut(keep: string, host: string)

  predicate HostStart(c: char) {
    'a' <= c <= 'z' || 'A' <= c <= 'Z' || '0' <= c <= '9' || c == '-'
  }

  predicate HostCuts(cuts: seq<Cut>) {
    forall i :: 0 <= i < |cuts| ==> cuts[i].host != [] && HostStart(cuts[i].host[0])
  }

  function Uncut(cuts: seq<Cut>, tail: string): string {
    if cuts == [] then tail else cuts[0].keep + cuts[0].host + Uncut(cuts[1..], tail)
  }

  function HostsHidden(cuts: seq<Cut>, tail: string): string {
    if cuts == [] then tail else cuts[0].keep + "[host]" + HostsHidden(cuts[1..], tail)
  }

  function Masked(cuts: seq<Cut>): (masked: seq<Cut>)
    ensures |masked| == |cuts|
    ensures forall i :: 0 <= i < |cuts| ==> masked[i] == Cut(cuts[i].keep, "[host]")
  {
    seq(|cuts|, i requires 0 <= i < |cuts| => Cut(cuts[i].keep, "[host]"))
  }

  // Each host is replaced in its place, and all the text between is kept.
  lemma {:induction false} HostsReplaced(cuts: seq<Cut>, tail: string)
    ensures HostsHidden(cuts, tail) == Uncut(Masked(cuts), tail)
  {
    if cuts != [] {
      HostsReplaced(cuts[1..], tail);
      assert Masked(cuts)[1..] == Masked(cuts[1..]);
    }
  }

  lemma NoPathSlice(s: string, i: nat, j: nat)
    requires NoPath(s) && i <= j <= |s|
    ensures NoPath(s[i..j])
  {
    forall k | 0 <= k && k + 1 < j - i && s[i..j][k] == '/' ensures !PathChar(s[i..j][k + 1]) {
      assert s[i + k] == '/';
    }
  }

  lemma {:induction false} HostsKeepNoPath(cuts: seq<Cut>, tail: string)
    requires HostCuts(cuts) && NoPath(Uncut(cuts, tail))
    ensures NoPath(HostsHidden(cuts, tail))
  {
    if cuts != [] {
      var keep, host, rest := cuts[0].keep, cuts[0].host, Uncut(cuts[1..], tail);
      var s := keep + host + rest;
      NoPathSlice(s, |keep + host|, |s|);
      assert s[|keep + host|..|s|] == rest;
      HostsKeepNoPath(cuts[1..], tail);
      if keep != [] {
        var last := |keep| - 1;
        assert s[last] == keep[last] && s[last + 1] == host[0];
      }
      var out := keep + "[host]" + HostsHidden(cuts[1..], tail);
      forall i | 0 <= i && i + 1 < |out| && out[i] == '/' ensures !PathChar(out[i + 1]) {
        if i < |keep| {
          assert i + 1 < |keep| ==> s[i] == '/' && s[i + 1] == keep[i + 1];
        } else {
          assert i >= |keep| + 6;
          assert out[i] == HostsHidden(cuts[1..], tail)[i - |keep| - 6];
        }
      }
    }
  }

  // `re.sub` of two or more "[path]" in a row by one.
  function Collapse(s: string): string {
    if s == [] then []
    else if "[path][path]" <= s then Collapse(s[6..])
    else [s[0]] + Collapse(s[1..])
  }

  lemma {:induction false} CollapseKeepsNoPath(s: string)
    requires NoPath(s)
    ensures NoPath(Collapse(s))
    ensures s != [] ==> Collapse(s) != [] && Collapse(s)[0] == s[0]
  {
    if s != [] {
      if "[path][path]" <= s {
        assert s[0] == "[path][path]"[0] && s[6] == "[path][path]"[6];
        NoPathSlice(s, 6, |s|);
        CollapseKeepsNoPath(s[6..]);
      } else {
        NoPathSlice(s, 1, |s|);
        assert s[1..|s|] == s[1..];
        CollapseKeepsNoPath(s[1..]);
        if |s| > 1 && s[0] == '/' { assert !PathChar(s[1]); }
        NoPathCons(s[0], Collapse(s[1..]));
      }
    }
  }

  // Two placeholders in a row stand at offset i.
  predicate RunAt(s: string, i: nat) { i + 12 <= |s| && s[i..i + 12] == "[path][path]" }

  lemma RunInFront(s: string)
    ensures "[path][path]" <= s <==> RunAt(s, 0)
  {
  }

  lemma RunBelow(s: string, i: nat)
    requires 0 < i && s != []
    ensures RunAt(s, i) <==> RunAt(s[1..], i - 1)
  {
    if i + 12 <= |s| { assert s[i..i + 12] == s[1..][i - 1..i - 1 + 12]; }
  }

  lemma NoRunBelow(s: string)
    requires s != [] && forall i: nat :: !RunAt(s, i)
    ensures forall i: nat :: !RunAt(s[1..], i)
  {
    forall i: nat ensures !RunAt(s[1..], i) { RunBelow(s, i + 1); }
  }

  // A text without two placeholders in a row stays as it is.
  lemma {:induction false} CollapseIsIdentityOn(s: string)
    requires forall i: nat :: !RunAt(s, i)
    ensures Collapse(s) == s
  {
    RunInFront(s);
    if s != [] {
      NoRunBelow(s);
      CollapseIsIdentityOn(s[1..]);
    }
  }

  lemma {:induction false} CollapseFirst(s: string)
    requires s != []
    ensures Collapse(s) != [] && Collapse(s)[0] == s[0]
  {
    if "[path][path]" <= s {
      assert s[6] == "[path][path]"[6] && s[0] == "[path][path]"[0];
      CollapseFirst(s[6..]);
    }
  }

  // What comes out without a bracket went in as it is.
  lemma {:induction false} PlainWentIn(t: string, w: string)
    requires w <= Collapse(t) && '[' !in w
    ensures w <= t && Collapse(t[|w|..]) == Collapse(t)[|w|..]
  {
    if w == [] {
      assert t[0..] == t;
    } else {
      assert t != [] && Collapse(t)[0] == w[0];
      CollapseFirst(t);
      assert t[0] != '[';
      assert !("[path][path]" <= t) by { assert "[path][path]"[0] == '['; }
      PlainWentIn(t[1..], w[1..]);
      assert t[1..][|w| - 1..] == t[|w|..];
    }
  }

  lemma {:induction false} PlaceholderWentIn(t: string)
    requires "[path]" <= Collapse(t)
    ensures "[path]" <= t
  {
    var out := Collapse(t);
    assert t != [] && out[0] == "[path]"[0] && out[1..6] == "path]";
    CollapseFirst(t);
    if "[path][path]" <= t {
      assert t[..6] == "[path][path]"[..6] == "[path]";
    } else {
      assert "path]" <= Collapse(t[1..]);
      PlainWentIn(t[1..], "path]");
      assert t[..6] == [t[0]] + t[1..6] == "[path]";
    }
  }

  lemma {:induction false} RunWentIn(c: char, t: string)
    requires RunAt([c] + Collapse(t), 0)
    ensures "[path][path]" <= [c] + t
  {
    var out := [c] + Collapse(t);
    assert out[0] == "[path][path]"[0];
    assert Collapse(t)[..5] == out[1..6] == "[path][path]"[1..6] == "path]";
    PlainWentIn(t, "path]");
    assert Collapse(t[5..])[..6] == out[6..12] == "[path][path]"[6..12] == "[path]";
    PlaceholderWentIn(t[5..]);
    assert ([c] + t)[..12] == [c] + t[..5] + t[5..][..6] == "[path][path]";
  }

  lemma {:induction false} NoRunInFront(s: string)
    requires s != [] && !("[path][path]" <= s)
    ensures !RunAt(Collapse(s), 0)
  {
    assert s == [s[0]] + s[1..];
    if RunAt(Collapse(s), 0) { RunWentIn(s[0], s[1..]); }
  }

  // No two placeholders in a row are left ...
  lemma {:induction false} CollapseLeavesNoRun(s: string)
    ensures forall i: nat :: !RunAt(Collapse(s), i)
  {
    if s != [] {
      if "[path][path]" <= s {
        CollapseLeavesNoRun(s[6..]);
      } else {
        CollapseLeavesNoRun(s[1..]);
        NoRunInFront(s);
        forall i: nat | i > 0 ensures !RunAt(Collapse(s), i) { RunBelow(Collapse(s), i); }
      }
    }
  }

  // A run in front of a text that has a bracket at `n` starts a placeholder there or ends before.
  lemma BracketsInRun(s: string, n: nat)
    requires n < |s| && s[n] == '[' && "[path][path]" <= s
    ensures n == 0 || n == 6 || n >= 12
  {
    if n < 12 { assert "[path][path]"[n] == '['; }
  }

  lemma SameFront(a: string, b: string)
    requires a != []
    ensures "[path][path]" <= a + "[path][path]" + b <==> "[path][path]" <= a + "[path]" + b
    ensures "[path][path]" <= a + "[path]" + b ==> |a| >= 6
  {
    var s, t := a + "[path][path]" + b, a + "[path]" + b;
    assert s[|a|] == "[path][path]"[0] && t[|a|] == "[path]"[0];
    if "[path][path]" <= s { BracketsInRun(s, |a|); }
    if "[path][path]" <= t { BracketsInRun(t, |a|); }
    if |a| >= 6 {
      assert s[..|a| + 6] == a + "[path]" == t[..|a| + 6];
      assert "[path][path]" <= s <==> s[..|a| + 6][..12] == "[path][path]";
      assert "[path][path]" <= t <==> t[..|a| + 6][..12] == "[path][path]";
    }
  }

  // ... and it makes no difference whether one or two of them stood somewhere.  The three
  // lemmas together say that runs become single placeholders and all else stays.
  lemma {:induction false} CollapseMergesTwo(a: string, b: string)
    ensures Collapse(a + "[path][path]" + b) == Collapse(a + "[path]" + b)
  {
    var s, t := a + "[path][path]" + b, a + "[path]" + b;
    if a == [] {
      assert s[6..] == t;
    } else {
      SameFront(a, b);
      if "[path][path]" <= t {
        assert s[6..] == a[6..] + "[path][path]" + b && t[6..] == a[6..] + "[path]" + b;
        CollapseMergesTwo(a[6..], b);
      } else {
        assert s[1..] == a[1..] + "[path][path]" + b && t[1..] == a[1..] + "[path]" + b;
        CollapseMergesTwo(a[1..], b);
      }
    }
  }

  function Truncate(s: string): string {
    if |s| <= LIMIT then s else s[..LIMIT]
  }

  lemma TrimmedKeepsNoPath(s: string)
    requires NoPath(s)
    ensures NoPath(Strip(Truncate(s))) && |Strip(Truncate(s))| <= LIMIT
  {
    var t := Truncate(s);
    NoPathSlice(s, 0, |t|);
    assert t == s[0..|t|];
    StripIsSlice(t);
    var i, j :| 0 <= i <= j <= |t| && Strip(t) == t[i..j];
    NoPathSlice(t, i, j);
  }

  // ---------------------------------------------------------------- the whole function

  // The path loop: it ends because every round that changes the text removes a slash,
  // and it takes one or two rounds.
  method StripPaths(stderr: string) returns (sanitized: string, rounds: nat)
    ensures sanitized == StripPass(stderr)
    ensures NoPath(sanitized)
    ensures rounds == if NoPath(stderr) then 1 else 2
  {
    var prev: Option<string> := None;
    sanitized := stderr;
    rounds := 0;
    PassLeavesNoPath(stderr);
    while prev != Some(sanitized)
      invariant rounds == 0 ==> prev == None && sanitized == stderr
      invariant rounds >= 1 ==> prev.Some? && sanitized == StripPass(stderr)
      invariant rounds == 1 ==> prev == Some(stderr)
      invariant rounds >= 2 ==> rounds == 2 && prev == Some(sanitized) && !NoPath(stderr)
      decreases Slashes(sanitized), prev != Some(sanitized), 2 - rounds
    {
      PassDropsSlashes(sanitized);
      OnePassSuffices(stderr);
      prev := Some(sanitized);
      sanitized := StripPass(sanitized);
      rounds := rounds + 1;
      if NoPath(stderr) { PassIsIdentityOn(stderr); }
    }
    if NoPath(stderr) { PassIsIdentityOn(stderr); }
  }

  // `cuts` and `tail` are where the host pattern matches in the text it is given.
  method SanitizeStderr(stderr: string, cuts: seq<Cut>, tail: string) returns (r: string)
    requires HostCuts(cuts) && Uncut(cuts, tail) == StripPass(stderr)
    ensures NoPath(r)
    ensures |r| <= 400 && Stripped(r)
    ensures var shown := Collapse(Uncut(Masked(cuts), tail));
            r == Strip(if |shown| <= 400 then shown else shown[..400])
  {
    var sanitized, rounds := StripPaths(stderr);
    HostsKeepNoPath(cuts, tail);
    HostsReplaced(cuts, tail);
    sanitized := HostsHidden(cuts, tail);
    CollapseKeepsNoPath(sanitized);
    sanitized := Collapse(sanitized);
    TrimmedKeepsNoPath(sanitized);
    StripIsStripped(Truncate(sanitized));
    r := Strip(Truncate(sanitized));
  }
}
