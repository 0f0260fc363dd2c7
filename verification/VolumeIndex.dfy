/** Which containers use a volume, in skiff/routers/volumes.py: the index built in one pass
    over the listing, against the direct scan for one name. */
module VolumeIndex {
  import opened Text

  // A mount without a name, or with an empty one, is not a named volume.
  datatype Mount = Mount(name: Option<string>)

  datatype Container = Container(name: string, mounts: seq<Mount>)

  // `_container_uses_volume`
  predicate Uses(c: Container, volume: string) {
    exists i :: 0 <= i < |c.mounts| && c.mounts[i].name == Some(volume)
  }

  // `_containers_using_volume`
  function UsingVolume(listing: seq<Container>, volume: string): seq<string> {
    if listing == [] then []
    else (if Uses(listing[0], volume) then [listing[0].name] else []) + UsingVolume(listing[1..], volume)
  }

  predicate Ascending(at: seq<nat>, n: nat) {
    && (forall i :: 0 <= i < |at| ==> at[i] < n)
    && forall i, j :: 0 <= i < j < |at| ==> at[i] < at[j]
  }

  // The scan gives the names of the containers at these places, which are all that have a
  // mount of this name.
  ghost predicate ScannedAt(listing: seq<Container>, volume: string, names: seq<string>, at: seq<nat>) {
    && |at| == |names| && Ascending(at, |listing|)
    && (forall i :: 0 <= i < |at| ==> names[i] == listing[at[i]].name)
    && forall k: nat :: k < |listing| ==> (k in at <==> Mount(Some(volume)) in listing[k].mounts)
  }

  lemma ScanSkips(listing: seq<Container>, c: Container, volume: string, names: seq<string>, at: seq<nat>)
    requires ScannedAt(listing, volume, names, at) && Mount(Some(volume)) !in c.mounts
    ensures ScannedAt(listing + [c], volume, names, at)
  {
  }

  lemma ScanTakes(listing: seq<Container>, c: Container, volume: string, names: seq<string>, at: seq<nat>)
    requires ScannedAt(listing, volume, names, at) && Mount(Some(volume)) in c.mounts
    ensures ScannedAt(listing + [c], volume, names + [c.name], at + [|listing|])
  {
    var more, at' := listing + [c], at + [|listing|];
    forall k: nat | k < |more| ensures k in at' <==> Mount(Some(volume)) in more[k].mounts {
      if k < |listing| {
        assert more[k] == listing[k];
      } else {
        assert at'[|at|] == k;
      }
    }
  }

  lemma {:induction false} ScanOneMore(listing: seq<Container>, c: Container, volume: string)
    ensures UsingVolume(listing + [c], volume) ==
            UsingVolume(listing, volume) + if Mount(Some(volume)) in c.mounts then [c.name] else []
  {
    assert Uses(c, volume) <==> Mount(Some(volume)) in c.mounts;
    var more := listing + [c];
    if listing == [] {
      assert more[0] == c && more[1..] == [];
    } else {
      assert more[0] == listing[0] && more[1..] == listing[1..] + [c];
      ScanOneMore(listing[1..], c, volume);
    }
  }

  // What the direct scan finds: one name for each container with such a mount, in listing order.
  lemma {:induction false} ScanMeans(listing: seq<Container>, volume: string) returns (at: seq<nat>)
    ensures ScannedAt(listing, volume, UsingVolume(listing, volume), at)
  {
    at := [];
    if listing != [] {
      var before, c := listing[..|listing| - 1], listing[|listing| - 1];
      assert listing == before + [c];
      at := ScanMeans(before, volume);
      ScanOneMore(before, c, volume);
      var names := UsingVolume(before, volume);
      if Mount(Some(volume)) in c.mounts {
        ScanTakes(before, c, volume, names, at);
        at := at + [|before|];
      } else {
        ScanSkips(before, c, volume, names, at);
        assert names + [] == names;
      }
    }
  }

  function MountsOf(mounts: seq<Mount>, volume: string): nat {
    if mounts == [] then 0
    else (if mounts[0].name == Some(volume) then 1 else 0) + MountsOf(mounts[1..], volume)
  }

  function Copies(x: string, k: nat): seq<string> { if k == 0 then [] else [x] + Copies(x, k - 1) }

  // Each container once for every mount of the volume, in listing order.
  function Mentions(listing: seq<Container>, volume: string): seq<string> {
    if listing == [] then []
    else Copies(listing[0].name, MountsOf(listing[0].mounts, volume)) + Mentions(listing[1..], volume)
  }

  function Users(index: Index, volume: string): seq<string> {
    if volume in index then index[volume] else []
  }

  // ---------------------------------------------------------------- the index

  type Index = map<string, seq<string>>

  // `index.setdefault(vol_name, []).append(c.name)` for a named mount.
  function AddUser(index: Index, mount: Mount, user: string): Index {
    if mount.name.None? || mount.name.value == [] then index
    else index[mount.name.value := Users(index, mount.name.value) + [user]]
  }

  function AddMounts(index: Index, mounts: seq<Mount>, user: string): Index
    decreases |mounts|
  {
    if mounts == [] then index else AddMounts(AddUser(index, mounts[0], user), mounts[1..], user)
  }

  function AddContainers(index: Index, listing: seq<Container>): Index
    decreases |listing|
  {
    if listing == [] then index
    else AddContainers(AddMounts(index, listing[0].mounts, listing[0].name), listing[1..])
  }

  // `_index_containers_by_volume`; None is an engine that cannot be listed.
  method IndexContainersByVolume(listing: Option<seq<Container>>) returns (index: Index)
    ensures listing.None? ==> index == map[]
    ensures listing.Some? ==> index == AddContainers(map[], listing.value)
  {
    index := map[];
    if listing.None? {
      return;
    }
    var containers := listing.value;
    for i := 0 to |containers|
      invariant AddContainers(index, containers[i..]) == AddContainers(map[], containers)
    {
      var c := containers[i];
      assert containers[i..][1..] == containers[i + 1..];
      ghost var before := index;
      for j := 0 to |c.mounts|
        invariant AddMounts(index, c.mounts[j..], c.name) == AddMounts(before, c.mounts, c.name)
      {
        assert c.mounts[j..][1..] == c.mounts[j + 1..];
        var name := c.mounts[j].name;
        if name.Some? && name.value != [] {
          ghost var was := index;
          if name.value !in index {
            index := index[name.value := []];
          }
          index := index[name.value := index[name.value] + [c.name]];
          assert index == AddUser(was, c.mounts[j], c.name);
        }
      }
    }
  }

  lemma {:induction false} MountsAddCopies(index: Index, mounts: seq<Mount>, user: string, volume: string)
    requires volume != []
    ensures Users(AddMounts(index, mounts, user), volume) ==
            Users(index, volume) + Copies(user, MountsOf(mounts, volume))
    decreases |mounts|
  {
    if mounts != [] {
      var k := MountsOf(mounts[1..], volume);
      MountsAddCopies(AddUser(index, mounts[0], user), mounts[1..], user, volume);
      assert Users(index, volume) + [user] + Copies(user, k) == Users(index, volume) + ([user] + Copies(user, k));
    }
  }

  lemma {:induction false} ContainersAddMentions(index: Index, listing: seq<Container>, volume: string)
    requires volume != []
    ensures Users(AddContainers(index, listing), volume) == Users(index, volume) + Mentions(listing, volume)
    decreases |listing|
  {
    if listing != [] {
      MountsAddCopies(index, listing[0].mounts, listing[0].name, volume);
      ContainersAddMentions(AddMounts(index, listing[0].mounts, listing[0].name), listing[1..], volume);
    }
  }

  // The index has, for every name, each container once per mount of it, in listing order.
  lemma {:induction false} IndexHoldsMentions(listing: seq<Container>, volume: string)
    requires volume != []
    ensures Users(AddContainers(map[], listing), volume) == Mentions(listing, volume)
  {
    ContainersAddMentions(map[], listing, volume);
    assert [] + Mentions(listing, volume) == Mentions(listing, volume);
  }

  lemma {:induction false} MountsSkipUnnamed(index: Index, mounts: seq<Mount>, user: string)
    requires [] !in index
    ensures [] !in AddMounts(index, mounts, user)
    decreases |mounts|
  {
    if mounts != [] { MountsSkipUnnamed(AddUser(index, mounts[0], user), mounts[1..], user); }
  }

  lemma {:induction false} IndexSkipsUnnamed(index: Index, listing: seq<Container>)
    requires [] !in index
    ensures [] !in AddContainers(index, listing)
    decreases |listing|
  {
    if listing != [] {
      MountsSkipUnnamed(index, listing[0].mounts, listing[0].name);
      IndexSkipsUnnamed(AddMounts(index, listing[0].mounts, listing[0].name), listing[1..]);
    }
  }

  // ---------------------------------------------------------------- index against scan

  lemma {:induction false} UsesMeansMounted(mounts: seq<Mount>, volume: string)
    ensures MountsOf(mounts, volume) > 0 <==> exists i :: 0 <= i < |mounts| && mounts[i].name == Some(volume)
  {
    if mounts != [] {
      UsesMeansMounted(mounts[1..], volume);
      assert forall i :: 1 <= i < |mounts| ==> mounts[i] == mounts[1..][i - 1];
      if i :| 0 <= i < |mounts[1..]| && mounts[1..][i].name == Some(volume) {
        assert mounts[i + 1].name == Some(volume);
      }
    }
  }

  // Neighbouring repeats made one.
  function Collapse(names: seq<string>): seq<string> {
    if |names| <= 1 then names
    else if names[0] == names[1] then Collapse(names[1..])
    else [names[0]] + Collapse(names[1..])
  }

  ghost predicate DistinctNames(listing: seq<Container>) {
    forall i, j :: 0 <= i < j < |listing| ==> listing[i].name != listing[j].name
  }

  lemma {:induction false} MentionsAreListed(listing: seq<Container>, volume: string, user: string)
    requires user in Mentions(listing, volume)
    ensures exists i :: 0 <= i < |listing| && listing[i].name == user
  {
    var own := Copies(listing[0].name, MountsOf(listing[0].mounts, volume));
    if user in own {
      CopiesAreEqual(listing[0].name, MountsOf(listing[0].mounts, volume));
      assert listing[0].name == user;
    } else {
      MentionsAreListed(listing[1..], volume, user);
      var i :| 0 <= i < |listing[1..]| && listing[1..][i].name == user;
      assert listing[i + 1].name == user;
    }
  }

  lemma {:induction false} CopiesAreEqual(x: string, k: nat)
    ensures |Copies(x, k)| == k && forall y :: y in Copies(x, k) ==> y == x
  {
    if k > 0 { CopiesAreEqual(x, k - 1); }
  }

  lemma {:induction false} CollapseCopies(x: string, k: nat, rest: seq<string>)
    requires k > 0 && (rest != [] ==> rest[0] != x)
    ensures Collapse(Copies(x, k) + rest) == [x] + Collapse(rest)
  {
    var names := Copies(x, k) + rest;
    assert names[1..] == Copies(x, k - 1) + rest;
    if k == 1 {
      assert names == [x] + rest && names[1..] == rest;
    } else {
      assert names[1] == x;
      CollapseCopies(x, k - 1, rest);
    }
  }

  lemma {:induction false} CollapsedMentionsAreScan(listing: seq<Container>, volume: string)
    requires DistinctNames(listing)
    ensures Collapse(Mentions(listing, volume)) == UsingVolume(listing, volume)
  {
    if listing != [] {
      var c, rest := listing[0], Mentions(listing[1..], volume);
      CollapsedMentionsAreScan(listing[1..], volume);
      UsesMeansMounted(c.mounts, volume);
      if rest != [] { MentionsAreListed(listing[1..], volume, rest[0]); }
      if Uses(c, volume) {
        CollapseCopies(c.name, MountsOf(c.mounts, volume), rest);
      } else {
        assert [] + rest == rest;
      }
    }
  }

  lemma {:induction false} MentionedWhenUsed(listing: seq<Container>, volume: string)
    ensures Mentions(listing, volume) != [] <==> UsingVolume(listing, volume) != []
  {
    if listing != [] {
      MentionedWhenUsed(listing[1..], volume);
      UsesMeansMounted(listing[0].mounts, volume);
      CopiesAreEqual(listing[0].name, MountsOf(listing[0].mounts, volume));
    }
  }

  lemma {:induction false} ScanIsShorter(listing: seq<Container>, volume: string)
    ensures |UsingVolume(listing, volume)| <= |Mentions(listing, volume)|
    ensures |UsingVolume(listing, volume)| == |Mentions(listing, volume)| <==>
            forall i :: 0 <= i < |listing| ==> MountsOf(listing[i].mounts, volume) <= 1
  {
    if listing != [] {
      ScanIsShorter(listing[1..], volume);
      UsesMeansMounted(listing[0].mounts, volume);
      CopiesAreEqual(listing[0].name, MountsOf(listing[0].mounts, volume));
      assert forall i :: 1 <= i < |listing| ==> listing[i] == listing[1..][i - 1];
      assert forall i :: 0 <= i < |listing[1..]| ==> listing[1..][i] == listing[i + 1];
    }
  }

  lemma {:induction false} OneCopy(x: string)
    ensures Copies(x, 1) == [x] && Copies(x, 0) == []
  {
  }

  lemma {:induction false} OnceEachIsScan(listing: seq<Container>, volume: string)
    requires forall i :: 0 <= i < |listing| ==> MountsOf(listing[i].mounts, volume) <= 1
    ensures Mentions(listing, volume) == UsingVolume(listing, volume)
  {
    if listing != [] {
      OnceEachIsScan(listing[1..], volume);
      var c := listing[0];
      UsesMeansMounted(c.mounts, volume);
      OneCopy(c.name);
      assert Copies(c.name, MountsOf(c.mounts, volume)) == if Uses(c, volume) then [c.name] else [];
    }
  }

  // The index `_index_containers_by_volume` builds.
  function IndexOf(listing: seq<Container>): Index { AddContainers(map[], listing) }

  // With container names distinct, as they are in one engine, collapsing the repeats in the
  // index gives exactly what the direct scan finds.
  lemma CollapsedIndexIsScan(listing: seq<Container>, volume: string)
    requires DistinctNames(listing) && volume != []
    ensures Collapse(Users(IndexOf(listing), volume)) == UsingVolume(listing, volume)
  {
    IndexHoldsMentions(listing, volume);
    CollapsedMentionsAreScan(listing, volume);
  }

  // Index and scan say the same about whether the volume is in use.
  lemma InUseAgrees(listing: seq<Container>, volume: string)
    requires volume != []
    ensures Users(IndexOf(listing), volume) != [] <==> UsingVolume(listing, volume) != []
  {
    IndexHoldsMentions(listing, volume);
    MentionedWhenUsed(listing, volume);
  }

  // Index and scan give the same list exactly if no container mounts the volume twice.
  lemma SameListWhen(listing: seq<Container>, volume: string)
    requires volume != []
    ensures Users(IndexOf(listing), volume) == UsingVolume(listing, volume) <==>
            forall i :: 0 <= i < |listing| ==> MountsOf(listing[i].mounts, volume) <= 1
  {
    IndexHoldsMentions(listing, volume);
    ScanIsShorter(listing, volume);
    if forall i :: 0 <= i < |listing| ==> MountsOf(listing[i].mounts, volume) <= 1 {
      OnceEachIsScan(listing, volume);
    }
  }

  // For the empty name, which the index leaves out, they agree only if nothing has it.
  lemma {:induction false} EmptyNameDiffers(listing: seq<Container>)
    ensures Users(IndexOf(listing), []) == []
    ensures Users(IndexOf(listing), []) == UsingVolume(listing, []) <==>
            forall i :: 0 <= i < |listing| ==> !Uses(listing[i], [])
  {
    IndexSkipsUnnamed(map[], listing);
    ScanEmptyWhen(listing, []);
  }

  lemma {:induction false} ScanEmptyWhen(listing: seq<Container>, volume: string)
    ensures UsingVolume(listing, volume) == [] <==> forall i :: 0 <= i < |listing| ==> !Uses(listing[i], volume)
  {
    if listing != [] {
      ScanEmptyWhen(listing[1..], volume);
      assert forall i :: 1 <= i < |listing| ==> listing[i] == listing[1..][i - 1];
      assert forall i :: 0 <= i < |listing[1..]| ==> listing[1..][i] == listing[i + 1];
    }
  }
}
