/**
 The queue object itself: each method is one critical section, or the run through a batch outside it,
 and does to the shared fields what the corresponding step of the state machine does.
 */
module CheckQueueLoop {
  import opened Arithmetic
  import opened CheckQueue
  import M = CheckQueue

  /** How a thread leaves the top of the loop. */
  datatype Outcome = Returned(result: bool) | Waits | Took(batch: seq<Check>, ok: bool)

  class SharedQueue {
    var queue: seq<Check>
    var nIdle: int
    var nTotal: int
    var nTodo: int
    var allOk: bool
    const batchSize: nat

    /** The shared fields are those of state `s`. */
    ghost predicate Shows(s: State)
      reads this
    {
      queue == s.queue && nIdle == s.nIdle && nTotal == s.nTotal && nTodo == s.nTodo && allOk == s.allOk
          && batchSize == s.batchSize
    }

    constructor (batchSize: nat)
      ensures forall threads: nat :: Shows(Start(threads, batchSize))
    {
      queue, nIdle, nTotal, nTodo, allOk := [], 0, 0, 0, true;
      this.batchSize := batchSize;
    }

    /** Whether a worker is to be notified, and whether all are. */
    method Add(checks: seq<Check>, ghost s: State, ghost who: nat) returns (notify: bool, all: bool)
      requires Shows(s)
      modifies this
      ensures Shows(M.Add(s, checks, who))
      ensures notify == (checks != []) && all == (|checks| > 1)
    {
      for i := 0 to |checks|
        invariant queue == s.queue + checks[..i]
        invariant nIdle == s.nIdle && nTotal == s.nTotal && nTodo == s.nTodo && allOk == s.allOk
      {
        queue := queue + [checks[i]];
      }
      nTodo := nTodo + |checks|;
      notify, all := |checks| >= 1, |checks| > 1;
    }

    /** Move the last `n` checks of the queue into a batch, the last one first. */
    method Pop(n: nat) returns (batch: seq<Check>)
      requires n <= |queue|
      modifies this`queue
      ensures queue == old(queue)[..|old(queue)| - n] && batch == Reversed(old(queue)[|old(queue)| - n..])
    {
      batch := [];
      ghost var q := queue;
      for i := 0 to n
        invariant queue == q[..|q| - i] && batch == Reversed(q[|q| - i..])
      {
        ReversedGrows(q, i);
        batch := batch + [queue[|queue| - 1]];
        queue := queue[..|queue| - 1];
      }
    }

    /** The top of the loop: return, wait, or take a batch. */
    method LoopTop(isMaster: bool, ghost s: State, ghost i: nat) returns (r: Outcome)
      requires i < |s.threads| && (isMaster <==> i == MASTER) && Shows(s) && nTotal + nIdle + 1 > 0
      modifies this
      ensures Shows(Top(s, i))
      ensures match r
        case Returned(result) => Top(s, i).threads[i] == Outside
            && Top(s, i).reports == s.reports + [Report(result, s.added, s.ran)]
        case Waits => Top(s, i).threads[i] == Asleep(false)
        case Took(batch, ok) => Top(s, i).threads[i] == Holding(batch, 0, ok)
    {
      if queue == [] {
        if isMaster && nTodo == 0 {
          nTotal := nTotal - 1;
          r := Returned(allOk);
          allOk := true;
        } else {
          nIdle := nIdle + 1;
          r := Waits;
        }
        return;
      }
      var nNow := Max(1, Min(batchSize, |queue| / (nTotal + nIdle + 1)));
      ShareFits(s);
      var batch := Pop(nNow);
      r := Took(batch, allOk);
    }

    /** The clean-up after a batch; tells whether the master is to be notified. */
    method ReportBatch(batch: seq<Check>, ok: bool, isMaster: bool, ghost s: State, ghost i: nat) returns (notify: bool)
      requires |s.threads| > MASTER && i < |s.threads| && (isMaster <==> i == MASTER) && Shows(s)
      requires s.threads[i].Holding? && s.threads[i].batch == batch && s.threads[i].ok == ok
      modifies this
      ensures Shows(Settle(s, i)) && notify == (Settle(s, i).nTodo == 0 && i != MASTER)
    {
      allOk := allOk && ok;
      nTodo := nTodo - |batch|;
      notify := nTodo == 0 && !isMaster;
    }

    method IsIdle() returns (r: bool)
      ensures forall s :: Shows(s) ==> r == M.IsIdle(s)
    {
      r := nTotal == nIdle && nTodo == 0 && allOk;
    }
  }

  lemma ReversedGrows(q: seq<Check>, i: nat)
    requires i < |q|
    ensures Reversed(q[|q| - i - 1..]) == Reversed(q[|q| - i..]) + [q[|q| - i - 1]]
  {
    assert q[|q| - i - 1..] == [q[|q| - i - 1]] + q[|q| - i..];
    ReversedFirst(q[|q| - i - 1], q[|q| - i..]);
  }

  lemma {:induction false} ReversedFirst(x: Check, q: seq<Check>)
    ensures Reversed([x] + q) == Reversed(q) + [x]
  {
    var s := [x] + q;
    if q != [] {
      ReversedFirst(x, q[..|q| - 1]);
      assert s[..|s| - 1] == [x] + q[..|q| - 1];
      assert Reversed(s) == [q[|q| - 1]] + (Reversed(q[..|q| - 1]) + [x]);
    }
  }

  /**
   Running the checks of a batch one by one, skipping the rest after a failure, is what the thread's steps amount to.
   */
  method RunBatch(batch: seq<Check>, ok: bool, ghost s: State, ghost i: nat) returns (result: bool, ghost t: State)
    requires i < |s.threads| && s.threads[i] == Holding(batch, 0, ok)
    ensures |t.threads| == |s.threads| && t.threads[i] == Holding(batch, |batch|, result)
    ensures t == Ran(s, i, |batch|)
    ensures result <==> ok && forall k | 0 <= k < |batch| :: batch[k].passes
  {
    hide RunOne;
    result, t := ok, s;
    for k := 0 to |batch|
      invariant |t.threads| == |s.threads| && t.threads[i] == Holding(batch, k, result) && t == Ran(s, i, k)
      invariant result <==> ok && forall j | 0 <= j < k :: batch[j].passes
    {
      RunOneEffect(t, i);
      if result {
        result := batch[k].passes;
      }
      t := RunOne(t, i);
    }
  }

  lemma RunOneEffect(s: State, i: nat)
    requires i < |s.threads| && s.threads[i].Holding? && s.threads[i].next < |s.threads[i].batch|
    ensures var t, u := s.threads[i], RunOne(s, i);
      |u.threads| == |s.threads| && u.threads[i] == Holding(t.batch, t.next + 1, t.ok && t.batch[t.next].passes)
  {
  }

  /** The state after `n` running steps of thread `i`, as far as it has checks to run. */
  ghost function Ran(s: State, i: nat, n: nat): State {
    if n == 0 then s else
      var t := Ran(s, i, n - 1);
      if i < |t.threads| && t.threads[i].Holding? && t.threads[i].next < |t.threads[i].batch| then RunOne(t, i) else t
  }
}
