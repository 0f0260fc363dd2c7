/** The WebSocket keepalive of skiff/auth.py.  Each interval brings its own knob value,
    server token, answer of `_check_session_age` and outcome of the send, so a token may be
    rotated and the knob edited between any two of them. */
module Keepalive {

  datatype Interval = Interval(every: int, server: string, ageOk: bool, sends: bool)

  datatype End = Open | Expired(at: nat) | Lost(at: nat)

  // `_ws_tick`
  function Tick(ticks: nat, every: int): (nat, bool) {
    if ticks + 1 >= every then (0, true) else (ticks + 1, false)
  }

  // `_ws_revalidate` raises.
  predicate Stale(token: string, i: Interval) {
    (i.server != [] && token != [] && token != i.server) || !i.ageOk
  }

  // The counter before interval k.
  function Counter(run: seq<Interval>, k: nat): nat
    requires k <= |run|
  {
    if k == 0 then 0 else Tick(Counter(run, k - 1), run[k - 1].every).0
  }

  predicate Revalidates(run: seq<Interval>, k: nat)
    requires k < |run|
  {
    Tick(Counter(run, k), run[k].every).1
  }

  // The loop ends in interval k.
  predicate Ends(token: string, run: seq<Interval>, k: nat)
    requires k < |run|
  {
    (Revalidates(run, k) && Stale(token, run[k])) || !run[k].sends
  }

  // `ws_keepalive` over these intervals.
  method Keepalive(token: string, run: seq<Interval>) returns (end: End)
    ensures end.Open? ==> forall k :: 0 <= k < |run| ==> !Ends(token, run, k)
    ensures !end.Open? ==>
              end.at < |run| && Ends(token, run, end.at) && forall k :: 0 <= k < end.at ==> !Ends(token, run, k)
    ensures !end.Open? ==> (end.Expired? <==> Revalidates(run, end.at) && Stale(token, run[end.at]))
  {
    var ticks := 0;
    for k := 0 to |run|
      invariant ticks == Counter(run, k)
      invariant forall j :: 0 <= j < k ==> !Ends(token, run, j)
    {
      var (next, revalidateNow) := Tick(ticks, run[k].every);
      ticks := next;
      if revalidateNow && Stale(token, run[k]) {
        return Expired(k);
      }
      if !run[k].sends {
        return Lost(k);
      }
    }
    return Open;
  }

  // The counter counts the intervals since the last revalidation.
  lemma {:induction false} CounterGrows(run: seq<Interval>, i: nat, k: nat)
    requires i <= k <= |run| && forall j :: i <= j < k ==> !Revalidates(run, j)
    ensures Counter(run, k) == Counter(run, i) + (k - i)
  {
    if i < k {
      CounterGrows(run, i, k - 1);
      assert !Revalidates(run, k - 1);
    }
  }

  // As long as the knob stays at n or below, some revalidation comes within n intervals of
  // any moment, whatever the knob was before.
  lemma RevalidatesWithin(run: seq<Interval>, i: nat, n: nat)
    requires n >= 1 && i + n <= |run| && forall k :: i <= k < i + n ==> run[k].every <= n
    ensures exists k :: i <= k < i + n && Revalidates(run, k)
  {
    if forall k :: i <= k < i + n - 1 ==> !Revalidates(run, k) {
      CounterGrows(run, i, i + n - 1);
      assert Revalidates(run, i + n - 1);
    }
  }

  // Over n intervals in which the server keeps one token and nothing else goes wrong, a
  // socket is closed exactly if both tokens are non-empty and differ.  So a rotation ends
  // every socket that authenticated with another token, but not one that was opened while no
  // token was configured, and taking the token away ends none.
  lemma RotationClosesWhen(token: string, server: string, run: seq<Interval>, i: nat, n: nat)
    requires n >= 1 && i + n <= |run|
    requires forall k :: i <= k < i + n ==>
               run[k].every <= n && run[k].server == server && run[k].ageOk && run[k].sends
    ensures (exists k :: i <= k < i + n && Ends(token, run, k)) <==> token != [] && server != [] && token != server
  {
    RevalidatesWithin(run, i, n);
    var k :| i <= k < i + n && Revalidates(run, k);
    assert Ends(token, run, k) <==> token != [] && server != [] && token != server;
  }

  // A session past its age limits is closed as well, whatever else happens.
  lemma AgeCloses(token: string, run: seq<Interval>, i: nat, n: nat)
    requires n >= 1 && i + n <= |run|
    requires forall k :: i <= k < i + n ==> run[k].every <= n && !run[k].ageOk
    ensures exists k :: i <= k < i + n && Ends(token, run, k)
  {
    RevalidatesWithin(run, i, n);
    var k :| i <= k < i + n && Revalidates(run, k);
    assert Ends(token, run, k);
  }

  // What ends the loop in an interval: a failed send, or at a revalidation an age limit or
  // two non-empty tokens that differ.
  lemma EndsWhen(token: string, run: seq<Interval>, k: nat)
    requires k < |run|
    ensures Ends(token, run, k) <==>
              || !run[k].sends
              || (Counter(run, k) + 1 >= run[k].every
                  && (!run[k].ageOk || (token != run[k].server && token != "" && run[k].server != "")))
  {
  }

  // A rotation alone is enough, whatever else happens.
  lemma RotationCloses(token: string, run: seq<Interval>, i: nat, n: nat)
    requires n >= 1 && i + n <= |run| && token != []
    requires forall k :: i <= k < i + n ==> run[k].every <= n && run[k].server != [] && run[k].server != token
    ensures exists k :: i <= k < i + n && Ends(token, run, k)
  {
    RevalidatesWithin(run, i, n);
    var k :| i <= k < i + n && Revalidates(run, k);
    assert Ends(token, run, k);
  }
}
