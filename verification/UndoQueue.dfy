/** The class `UndoQueue` of skiff/undo.py, one call at a time.

    The callable of an op is represented by the outcome it has when it runs.  How the
    calls interleave is the business of module UndoProtocol, whose steps on the queue
    are the functions (`+ [token]`, `Remove`, `[]`) these contracts use. */
module UndoQueue {
  import opened Dict
  import opened Text
  import opened UndoProtocol

  class PendingOp {
    const token: Token
    var timerCancelled: bool
    var fired: bool

    constructor (token: Token)
      ensures this.token == token && !timerCancelled && !fired
    {
      this.token := token;
      timerCancelled, fired := false, false;
    }
  }

  function TokensOf(ops: seq<PendingOp>): (ts: seq<Token>)
    ensures |ts| == |ops|
    ensures forall i :: 0 <= i < |ts| ==> ts[i] == ops[i].token
  {
    seq(|ops|, i requires 0 <= i < |ops| => ops[i].token)
  }

  // How many of these ops raise something other than NotFound when they run.
  function RaisedAmong(ts: seq<Token>, outcome: Token -> Outcome): nat {
    if ts == [] then 0 else One(outcome(ts[0]) == Raised) + RaisedAmong(ts[1..], outcome)
  }

  lemma RaisedFrom(ts: seq<Token>, i: nat, outcome: Token -> Outcome)
    requires i < |ts|
    ensures RaisedAmong(ts[i..], outcome) == One(outcome(ts[i]) == Raised) + RaisedAmong(ts[i + 1..], outcome)
  {
    assert ts[i..][1..] == ts[i + 1..];
  }

  lemma DistinctOps(ops: seq<PendingOp>)
    requires Distinct(TokensOf(ops))
    ensures forall j, k :: 0 <= j < k < |ops| ==> ops[j] != ops[k]
  {
    forall j, k | 0 <= j < k < |ops| ensures ops[j] != ops[k] {
      assert TokensOf(ops)[j] != TokensOf(ops)[k];
    }
  }

  class UndoQueue {
    const delay: real
    var ops: seq<PendingOp>
    var fireFailures: nat

    function Tokens(): seq<Token> reads this { TokensOf(ops) }

    // Tokens are unique and nothing in the queue has fired.
    ghost predicate Valid() reads this, ops {
      Distinct(Tokens()) && forall op :: op in ops ==> !op.fired
    }

    // The delay is read once, when the queue is built; editing UNDO_DELAY_SECS later
    // does not reach it.
    constructor (delaySecs: Option<real>, configured: real)
      ensures delay == (if delaySecs.None? then configured else delaySecs.value)
      ensures Valid() && ops == [] && fireFailures == 0
    {
      delay := if delaySecs.None? then configured else delaySecs.value;
      ops, fireFailures := [], 0;
    }

    // `token` is the fresh random token; `cap` is UNDO_QUEUE_MAX_DEPTH at this moment.
    method Enqueue(token: Token, cap: int) returns (result: Option<Token>)
      requires Valid() && token !in Tokens()
      modifies this`ops
      ensures Valid()
      ensures result == if delay > 0.0 && old(|ops|) < cap then Some(token) else None
      ensures Tokens() == if result == Some(token) then old(Tokens()) + [token] else old(Tokens())
      ensures forall op :: op in ops && op !in old(ops) ==> fresh(op)
      ensures forall s: State {:trigger QueueAfter(s, Action.Enqueue(token))} ::
                delay > 0.0 && s.queue.ops == old(Tokens()) && s.queue.cap == cap ==>
                QueueAfter(s, Action.Enqueue(token)).ops == Tokens()
    {
      if delay <= 0.0 {
        return None;
      }
      if |ops| >= cap {
        return None;
      }
      var op := new PendingOp(token);
      ops := ops + [op];
      assert Tokens() == old(Tokens()) + [token];
      return Some(token);
    }

    // `self._ops.pop(token, None)`
    method Pop(token: Token) returns (op: PendingOp?)
      requires Valid()
      modifies this`ops
      ensures Valid()
      ensures op != null <==> token in old(Tokens())
      ensures op != null ==> op in old(ops) && op !in ops && op.token == token
      ensures Tokens() == Remove(old(Tokens()), token)
      ensures forall other :: other in ops ==> other in old(ops)
      ensures forall s: State {:trigger QueueAfter(s, FirePop(token))} {:trigger QueueAfter(s, CancelPop(token))} ::
                s.queue.ops == old(Tokens()) ==>
                QueueAfter(s, FirePop(token)).ops == QueueAfter(s, CancelPop(token)).ops == Tokens()
    {
      var i := 0;
      while i < |ops|
        invariant 0 <= i <= |ops| && ops == old(ops)
        invariant token !in Tokens()[..i]
      {
        if ops[i].token == token {
          op := ops[i];
          RemoveAt(Tokens(), i);
          DistinctWithout(Tokens(), i);
          ops := ops[..i] + ops[i + 1..];
          assert Tokens() == old(Tokens())[..i] + old(Tokens())[i + 1..];
          return;
        }
        i := i + 1;
      }
      RemoveAbsent(Tokens(), token);
      op := null;
    }

    // The timer's callback: `reviewer` is what it reads from PROFILE, `outcome` what
    // the callable does if it is called.
    method Fire(token: Token, reviewer: bool, outcome: Outcome) returns (called: bool)
      requires Valid()
      modifies this, ops
      ensures Valid()
      ensures called <==> token in old(Tokens()) && !reviewer
      ensures Tokens() == Remove(old(Tokens()), token)
      ensures fireFailures == old(fireFailures) + One(called && outcome == Raised)
    {
      var op := Pop(token);
      if op == null {
        return false;
      }
      op.fired := true;
      if reviewer {
        return false;
      }
      called := true;
      match outcome
      case Succeeded =>
      case AlreadyGone =>
      case Raised => fireFailures := fireFailures + 1;
    }

    method Cancel(token: Token) returns (cancelled: bool)
      requires Valid()
      modifies this`ops, ops
      ensures Valid()
      ensures cancelled <==> token in old(Tokens())
      ensures Tokens() == Remove(old(Tokens()), token)
      ensures forall op :: op in ops ==> op in old(ops)
    {
      var op := Pop(token);
      if op == null {
        return false;
      }
      op.timerCancelled := true;
      return true;
    }

    method Depth() returns (n: nat)
      ensures n == |Tokens()|
    {
      n := |ops|;
    }

    // Runs every pending op, oldest first; `called` lists the ops whose callable ran.
    method FireAllNow(outcome: Token -> Outcome) returns (called: seq<Token>)
      requires Valid()
      modifies this, ops
      ensures Valid() && ops == []
      ensures called == old(Tokens())
      ensures fireFailures == old(fireFailures) + RaisedAmong(old(Tokens()), outcome)
      ensures forall op :: op in old(ops) ==> op.fired && op.timerCancelled
    {
      var pending := ops;
      ghost var before := Tokens();
      DistinctOps(pending);
      ops := [];
      called := [];
      assert before[0..] == before;
      for i := 0 to |pending|
        invariant ops == [] && called == before[..i]
        invariant fireFailures + RaisedAmong(before[i..], outcome) == old(fireFailures) + RaisedAmong(before, outcome)
        invariant forall k :: 0 <= k < i ==> pending[k].fired && pending[k].timerCancelled
        invariant forall k :: i <= k < |pending| ==> !pending[k].fired
      {
        var op := pending[i];
        op.timerCancelled := true;
        RaisedFrom(before, i, outcome);
        if op.fired {
          continue;
        }
        op.fired := true;
        called := called + [op.token];
        match outcome(op.token)
        case Succeeded =>
        case AlreadyGone =>
        case Raised => fireFailures := fireFailures + 1;
      }
    }
  }

  // Cancelling takes one token out and leaves the others in their order.
  lemma CancelKeepsOrder(ts: seq<Token>, t: Token) returns (i: nat)
    requires Distinct(ts) && t in ts
    ensures i < |ts| && ts[i] == t && Remove(ts, t) == ts[..i] + ts[i + 1..]
    ensures t !in Remove(ts, t)
  {
    i := PositionOf(ts, t);
    RemoveAt(ts, i);
    DistinctWithout(ts, i);
  }

  // A flush after a cancel calls the other ops, in their order, and not the cancelled one.
  method CancelThenFlush(queue: UndoQueue, t: Token, outcome: Token -> Outcome) returns (called: seq<Token>)
    requires queue.Valid() && t in queue.Tokens()
    modifies queue, queue.ops
    ensures queue.Valid() && queue.ops == []
    ensures t !in called
    ensures exists i :: 0 <= i < |old(queue.Tokens())| && old(queue.Tokens())[i] == t
                     && called == old(queue.Tokens())[..i] + old(queue.Tokens())[i + 1..]
  {
    ghost var before := queue.Tokens();
    ghost var i := CancelKeepsOrder(before, t);
    var cancelled := queue.Cancel(t);
    assert cancelled;
    assert forall k :: 0 <= k < |queue.ops| ==> queue.ops[k] in old(queue.ops);
    called := queue.FireAllNow(outcome);
  }
}
