/**
 The verification queue as a state machine: one master (thread 0), any number of workers, one mutex and
 two condition variables.  Every critical section is one atomic step; executing a check is a step of
 its own outside the mutex.  Condition variables may wake a thread without a notification.
 */
module CheckQueue {
  import opened Arithmetic

  /** A check is an opaque computation; `passes` is what running it returns. */
  datatype Check = Check(id: nat, passes: bool)

  /**
   Where a thread is when the mutex is free: not in the loop, waiting on its condition variable, or
   holding a batch of which `next` checks have been gone through, with `ok` as its running result.
   */
  datatype Thread = Outside | Asleep(notified: bool) | Holding(batch: seq<Check>, next: nat, ok: bool)

  /** What a completed wait reported about the checks added since the one before. */
  datatype Report = Report(result: bool, added: multiset<Check>, ran: multiset<Check>)

  datatype State = State(
    threads: seq<Thread>, batchSize: nat,
    queue: seq<Check>, nIdle: int, nTotal: int, nTodo: int, allOk: bool,
    // history since the last completed wait: checks added, reported back, executed
    added: multiset<Check>, done: multiset<Check>, ran: multiset<Check>,
    reports: seq<Report>)

  const MASTER: nat := 0

  // ----- the critical sections

  /** How many checks a thread takes. */
  function Share(s: State): int {
    if s.nTotal + s.nIdle + 1 <= 0 then 1 else Max(1, Min(s.batchSize, |s.queue| / (s.nTotal + s.nIdle + 1)))
  }

  function Reversed(q: seq<Check>): seq<Check> {
    if q == [] then [] else [q[|q| - 1]] + Reversed(q[..|q| - 1])
  }

  function Put(s: State, i: nat, t: Thread): State
    requires i < |s.threads|
  {
    s.(threads := s.threads[i := t])
  }

  /** Take checks from the end of the queue, the last one first. */
  function Take(s: State, i: nat): State
    requires i < |s.threads| && s.queue != []
  {
    var n := Min(Share(s), |s.queue|);
    var keep := |s.queue| - n;
    Put(s, i, Holding(Reversed(s.queue[keep..]), 0, s.allOk)).(queue := s.queue[..keep])
  }

  /** The top of the loop: return if all is done and this is the master, sleep if there is nothing, or take a batch. */
  function Top(s: State, i: nat): State
    requires i < |s.threads|
  {
    if s.queue != [] then Take(s, i)
    else if i == MASTER && s.nTodo == 0 then
      Put(s, i, Outside).(nTotal := s.nTotal - 1, allOk := true, added := multiset{}, done := multiset{},
          ran := multiset{},
                          reports := s.reports + [Report(s.allOk, s.added, s.ran)])
    else Put(s, i, Asleep(false)).(nIdle := s.nIdle + 1)
  }

  function Notify(t: Thread): Thread {
    if t.Asleep? then Asleep(true) else t
  }

  /** A thread enters the loop: a worker for good, the master to wait for the result. */
  function Enter(s: State, i: nat): State
    requires i < |s.threads|
  {
    Top(s.(nTotal := s.nTotal + 1), i)
  }

  /** A thread runs its next check, or skips it if a failure is already known to it. */
  function RunOne(s: State, i: nat): State
    requires i < |s.threads| && s.threads[i].Holding? && s.threads[i].next < |s.threads[i].batch|
  {
    var t := s.threads[i];
    if !t.ok then Put(s, i, t.(next := t.next + 1))
    else Put(s, i, t.(next := t.next + 1, ok := t.batch[t.next].passes)).(ran := s.ran + multiset{t.batch[t.next]})
  }

  /**
   A thread that has gone through its batch reports the result, and wakes the master if that was the last of the work.
   */
  function Settle(s: State, i: nat): State
    requires i < |s.threads| && s.threads[i].Holding?
  {
    var t := s.threads[i];
    var left := s.nTodo - |t.batch|;
    var c := Put(s, i, Outside).(allOk := s.allOk && t.ok, nTodo := left, done := s.done + multiset(t.batch));
    if left == 0 && i != MASTER then Put(c, MASTER, Notify(c.threads[MASTER])) else c
  }

  function Finish(s: State, i: nat): State
    requires i < |s.threads| && s.threads[i].Holding?
  {
    Top(Settle(s, i), i)
  }

  /** A sleeping thread wakes, notified or not, and looks again. */
  function Wake(s: State, i: nat): State
    requires i < |s.threads|
  {
    Top(Put(s, i, Outside).(nIdle := s.nIdle - 1), i)
  }

  /** Notify one worker (`who`) or all of them. */
  function NotifyWorkers(s: State, who: nat, all: bool): State {
    s.(threads := seq(|s.threads|, i requires 0 <= i < |s.threads| =>
                    if i != MASTER && (all || i == who) then Notify(s.threads[i]) else s.threads[i]))
  }

  function Add(s: State, checks: seq<Check>, who: nat): State {
    var c := s.(queue := s.queue + checks, nTodo := s.nTodo + |checks|, added := s.added + multiset(checks));
    if checks == [] then c else NotifyWorkers(c, who, |checks| > 1)
  }

  /** One check wakes one worker that sleeps, more of them wake all that do; the master stays as it is. */
  lemma AddNotifies(s: State, checks: seq<Check>, who: nat, i: nat)
    requires i < |s.threads|
    ensures i < |Add(s, checks, who).threads|
    ensures Add(s, checks, who).threads[i] ==
        if s.threads[i].Asleep? && i != 0 && (|checks| >= 2 || (|checks| == 1 && i == who)) then Asleep(true)
        else s.threads[i]
  {
  }

  /** A worker that reports the last of the work wakes the master if that sleeps; nobody else is woken by a report. */
  lemma SettleNotifies(s: State, i: nat, k: nat)
    requires i < |s.threads| && k < |s.threads| && k != i && s.threads[i].Holding?
    ensures k < |Settle(s, i).threads|
    ensures Settle(s, i).threads[k] ==
        if s.threads[k].Asleep? && k == 0 && s.nTodo == |s.threads[i].batch| then Asleep(true) else s.threads[k]
  {
  }

  // ----- steps

  datatype Action = Entering(i: nat) | Running(i: nat) | Finishing(i: nat) | Waking(i: nat) | Adding(checks: seq<Check>,
      who: nat)

  /** Only the master adds, and only while it is not waiting. */
  predicate Enabled(s: State, a: Action) {
    match a
    case Entering(i) => i < |s.threads| && s.threads[i].Outside?
    case Running(i) => i < |s.threads| && s.threads[i].Holding? && s.threads[i].next < |s.threads[i].batch|
    case Finishing(i) => i < |s.threads| && s.threads[i].Holding? && s.threads[i].next == |s.threads[i].batch|
    case Waking(i) => i < |s.threads| && s.threads[i].Asleep?
    case Adding(_, _) => |s.threads| > MASTER && s.threads[MASTER].Outside?
  }

  function Next(s: State, a: Action): State
    requires Enabled(s, a)
  {
    match a
    case Entering(i) => Enter(s, i)
    case Running(i) => RunOne(s, i)
    case Finishing(i) => Finish(s, i)
    case Waking(i) => Wake(s, i)
    case Adding(checks, who) => Add(s, checks, who)
  }

  function Start(threads: nat, batchSize: nat): State {
    State(seq(threads, _ => Outside), batchSize, [], 0, 0, 0, true, multiset{}, multiset{}, multiset{}, [])
  }

  // ----- sums over the threads

  function Batch(t: Thread): multiset<Check> {
    if t.Holding? then multiset(t.batch) else multiset{}
  }

  /** The part of a batch already gone through. */
  function Passed(t: Thread): multiset<Check> {
    if t.Holding? && t.next <= |t.batch| then multiset(t.batch[..t.next]) else multiset{}
  }

  /** The part gone through by a thread that has seen no failure: all of it was executed. */
  function Executed(t: Thread): multiset<Check> {
    if t.Holding? && t.ok then Passed(t) else multiset{}
  }

  function Union(ts: seq<Thread>, f: Thread -> multiset<Check>): multiset<Check> {
    if ts == [] then multiset{} else Union(ts[..|ts| - 1], f) + f(ts[|ts| - 1])
  }

  function Count(ts: seq<Thread>, p: Thread -> bool): nat {
    if ts == [] then 0 else Count(ts[..|ts| - 1], p) + if p(ts[|ts| - 1]) then 1 else 0
  }

  lemma Swap(a: multiset<Check>, b: multiset<Check>, c: multiset<Check>, d: multiset<Check>, e: multiset<Check>)
    requires a + c == d + e
    ensures (a + b) + c == (d + b) + e
  {
    assert (a + b) + c == (a + c) + b;
    assert (d + b) + e == (d + e) + b;
  }

  lemma {:induction false} UnionUpdate(ts: seq<Thread>, f: Thread -> multiset<Check>, i: nat, t: Thread)
    requires i < |ts|
    ensures Union(ts[i := t], f) + f(ts[i]) == Union(ts, f) + f(t)
  {
    var last := |ts| - 1;
    if i < last {
      UnionUpdate(ts[..last], f, i, t);
      assert ts[i := t][..last] == ts[..last][i := t];
      Swap(Union(ts[..last][i := t], f), f(ts[last]), f(ts[i]), Union(ts[..last], f), f(t));
    } else {
      assert ts[i := t][..last] == ts[..last];
    }
  }

  lemma UnionGain(ts: seq<Thread>, f: Thread -> multiset<Check>, i: nat, t: Thread)
    requires i < |ts| && f(ts[i]) == multiset{}
    ensures Union(ts[i := t], f) == Union(ts, f) + f(t)
  {
    hide Union;
    UnionUpdate(ts, f, i, t);
    assert Union(ts[i := t], f) + multiset{} == Union(ts[i := t], f);
  }

  lemma UnionLoss(ts: seq<Thread>, f: Thread -> multiset<Check>, i: nat, t: Thread)
    requires i < |ts| && f(t) == multiset{}
    ensures Union(ts, f) == Union(ts[i := t], f) + f(ts[i])
  {
    hide Union;
    UnionUpdate(ts, f, i, t);
    assert Union(ts, f) + multiset{} == Union(ts, f);
  }

  lemma {:induction false} CountUpdate(ts: seq<Thread>, p: Thread -> bool, i: nat, t: Thread)
    requires i < |ts|
    ensures Count(ts[i := t], p) == Count(ts, p) - (if p(ts[i]) then 1 else 0) + (if p(t) then 1 else 0)
  {
    var last := |ts| - 1;
    if i < last {
      CountUpdate(ts[..last], p, i, t);
      assert ts[i := t][..last] == ts[..last][i := t];
    } else {
      assert ts[i := t][..last] == ts[..last];
    }
  }

  lemma {:induction false} UnionAgrees(ts: seq<Thread>, us: seq<Thread>, f: Thread -> multiset<Check>)
    requires |ts| == |us| && forall i | 0 <= i < |ts| :: f(ts[i]) == f(us[i])
    ensures Union(ts, f) == Union(us, f)
  {
    if ts != [] {
      UnionAgrees(ts[..|ts| - 1], us[..|us| - 1], f);
    }
  }

  lemma {:induction false} CountAgrees(ts: seq<Thread>, us: seq<Thread>, p: Thread -> bool)
    requires |ts| == |us| && forall i | 0 <= i < |ts| :: p(ts[i]) == p(us[i])
    ensures Count(ts, p) == Count(us, p)
  {
    if ts != [] {
      CountAgrees(ts[..|ts| - 1], us[..|us| - 1], p);
    }
  }

  lemma {:induction false} UnionHas(ts: seq<Thread>, f: Thread -> multiset<Check>, i: nat)
    requires i < |ts|
    ensures f(ts[i]) <= Union(ts, f)
  {
    if i < |ts| - 1 {
      UnionHas(ts[..|ts| - 1], f, i);
    }
  }

  lemma {:induction false} UnionSome(ts: seq<Thread>, f: Thread -> multiset<Check>)
    requires |Union(ts, f)| > 0
    ensures exists i :: 0 <= i < |ts| && |f(ts[i])| > 0
  {
    var last := |ts| - 1;
    if |f(ts[last])| == 0 {
      UnionSome(ts[..last], f);
      var i :| 0 <= i < last && |f(ts[..last][i])| > 0;
      assert |f(ts[i])| > 0;
    }
  }

  lemma {:induction false} ReversedContents(q: seq<Check>)
    ensures multiset(Reversed(q)) == multiset(q) && |Reversed(q)| == |q|
  {
    if q != [] {
      ReversedContents(q[..|q| - 1]);
      assert q == q[..|q| - 1] + [q[|q| - 1]];
    }
  }

  // ----- the invariant

  predicate IsInside(t: Thread) { !t.Outside? }
  predicate IsAsleep(t: Thread) { t.Asleep? }

  /** The two counters; `entered` threads have been counted in but are still between states. */
  ghost predicate Counted(s: State, entered: nat) {
    s.nTotal == Count(s.threads, IsInside) + entered && s.nIdle == Count(s.threads, IsAsleep)
  }

  /** Every check added is queued, in exactly one batch, or reported back; and that is what is left to do. */
  ghost predicate Conserved(s: State) {
    && s.nTodo == |s.queue| + |Union(s.threads, Batch)|
    && s.added == multiset(s.queue) + Union(s.threads, Batch) + s.done
  }

  ghost predicate Failure(ran: multiset<Check>) {
    exists c :: c in ran && !c.passes
  }

  ghost predicate ThreadOk(t: Thread, ran: multiset<Check>) {
    t.Holding? ==>
      && t.batch != [] && t.next <= |t.batch|
      && (t.ok ==> forall k | 0 <= k < t.next :: t.batch[k].passes)
      && (!t.ok ==> Failure(ran))
  }

  /**
   A result of "all good so far" means everything reported was run and passed; "not good" that something run failed.
   */
  ghost predicate Honest(s: State) {
    && (forall i | 0 <= i < |s.threads| :: ThreadOk(s.threads[i], s.ran))
    && (s.allOk ==> s.done + Union(s.threads, Executed) <= s.ran && forall c | c in s.done :: c.passes)
    && (!s.allOk ==> Failure(s.ran))
    && s.ran <= s.done + Union(s.threads, Passed)
  }

  ghost predicate MasterOk(s: State) {
    && |s.threads| > MASTER
    && (s.threads[MASTER].Asleep? ==> s.queue == [] && (s.nTodo == 0 ==> s.threads[MASTER].notified))
  }

  ghost predicate ReportOk(r: Report) {
    && (r.result ==> r.ran == r.added && forall c | c in r.added :: c.passes)
    && (!r.result ==> Failure(r.ran))
    && r.ran <= r.added
  }

  ghost predicate Inv(s: State) {
    Counted(s, 0) && Conserved(s) && Honest(s) && MasterOk(s) && forall k | 0 <= k < |s.reports| ::
        ReportOk(s.reports[k])
  }

  /** A thread in the middle of a critical section, about to go to the top of the loop. */
  ghost predicate AtTop(s: State, i: nat) {
    && i < |s.threads| && s.threads[i].Outside?
    && Counted(s, 1) && Conserved(s) && Honest(s) && MasterOk(s) && forall k | 0 <= k < |s.reports| ::
        ReportOk(s.reports[k])
  }

  // ----- the top of the loop keeps it

  lemma ShareFits(s: State)
    requires s.queue != []
    ensures 1 <= Min(Share(s), |s.queue|) <= |s.queue|
    ensures s.nTotal + s.nIdle >= 0 ==> Share(s) <= |s.queue|
  {
  }

  /**
   A batch is as large as the batch size allows, but if it is more than one check then as many could be taken by every
   thread there is, counting idle ones once more, and by one thread besides.
   */
  lemma ShareFair(s: State)
    requires s.nTotal + s.nIdle >= 0 && s.batchSize >= 1
    ensures 1 <= Share(s) <= s.batchSize
    ensures Share(s) > 1 ==> Share(s) * (s.nTotal + s.nIdle + 1) <= |s.queue|
    ensures Share(s) < s.batchSize ==> |s.queue| < (Share(s) + 1) * (s.nTotal + s.nIdle + 1)
  {
    var d := s.nTotal + s.nIdle + 1;
    var q := |s.queue| / d;
    assert |s.queue| == q * d + |s.queue| % d;
    assert (q + 1) * d == q * d + d;
    if Share(s) <= q {
      MulMono(Share(s), q, d);
    }
    if q <= Share(s) {
      MulMono(q + 1, Share(s) + 1, d);
    }
  }

  lemma TakeConserves(s: State, i: nat)
    requires i < |s.threads| && s.threads[i].Outside? && s.queue != [] && Conserved(s)
    ensures Conserved(Take(s, i))
  {
    hide Union, Share, Reversed;
    ShareFits(s);
    var c := Take(s, i);
    var keep := |c.queue|;
    ReversedContents(s.queue[keep..]);
    UnionGain(s.threads, Batch, i, c.threads[i]);
    assert s.queue == s.queue[..keep] + s.queue[keep..];
    MoveBatch(multiset(s.queue), multiset(c.queue), Batch(c.threads[i]), Union(s.threads, Batch), s.done);
  }

  lemma MoveBatch(q: multiset<Check>, q': multiset<Check>, b: multiset<Check>, u: multiset<Check>, d: multiset<Check>)
    requires q == q' + b
    ensures q + u + d == q' + (u + b) + d
  {
    assert (q' + b) + u == q' + (u + b);
  }

  lemma TakeHonest(s: State, i: nat)
    requires i < |s.threads| && s.threads[i].Outside? && s.queue != [] && Honest(s)
    ensures Honest(Take(s, i))
  {
    hide Union, Share, Reversed;
    ShareFits(s);
    var c := Take(s, i);
    ReversedContents(s.queue[|c.queue|..]);
    assert Passed(c.threads[i]) == multiset{} && Executed(c.threads[i]) == multiset{};
    UnionGain(s.threads, Executed, i, c.threads[i]);
    UnionGain(s.threads, Passed, i, c.threads[i]);
    assert Union(s.threads, Executed) + multiset{} == Union(s.threads, Executed);
    assert Union(s.threads, Passed) + multiset{} == Union(s.threads, Passed);
  }

  lemma CountedPut(s: State, i: nat, t: Thread)
    requires i < |s.threads|
    ensures Count(s.threads[i := t], IsInside) == Count(s.threads, IsInside) - (if IsInside(s.threads[i]) then 1 else 0)
        + (if IsInside(t) then 1 else 0)
    ensures Count(s.threads[i := t], IsAsleep) == Count(s.threads, IsAsleep) - (if IsAsleep(s.threads[i]) then 1 else 0)
        + (if IsAsleep(t) then 1 else 0)
  {
    CountUpdate(s.threads, IsInside, i, t);
    CountUpdate(s.threads, IsAsleep, i, t);
  }

  /** Replacing an idle thread by an idle thread moves no checks. */
  lemma EmptyHanded(s: State, i: nat, t: Thread)
    requires i < |s.threads| && !s.threads[i].Holding? && !t.Holding?
    ensures Union(s.threads[i := t], Batch) == Union(s.threads, Batch)
    ensures Union(s.threads[i := t], Executed) == Union(s.threads, Executed)
    ensures Union(s.threads[i := t], Passed) == Union(s.threads, Passed)
  {
    hide Union;
    Unmoved(s.threads, Batch, i, t);
    Unmoved(s.threads, Executed, i, t);
    Unmoved(s.threads, Passed, i, t);
  }

  lemma Unmoved(ts: seq<Thread>, f: Thread -> multiset<Check>, i: nat, t: Thread)
    requires i < |ts| && f(ts[i]) == f(t) == multiset{}
    ensures Union(ts[i := t], f) == Union(ts, f)
  {
    hide Union;
    UnionGain(ts, f, i, t);
    assert Union(ts, f) + multiset{} == Union(ts, f);
  }

  lemma NobodyHolds(ts: seq<Thread>)
    requires |Union(ts, Batch)| == 0
    requires forall i | 0 <= i < |ts| :: ts[i].Holding? ==> ts[i].batch != []
    ensures forall i | 0 <= i < |ts| :: !ts[i].Holding?
  {
    hide Union;
    forall i | 0 <= i < |ts| ensures !ts[i].Holding? {
      UnionHas(ts, Batch, i);
      NoneFitsInNothing(Batch(ts[i]), Union(ts, Batch));
    }
  }

  lemma NoneFitsInNothing(b: multiset<Check>, u: multiset<Check>)
    requires b <= u && |u| == 0
    ensures |b| == 0
  {
    assert u == b + (u - b);
  }

  lemma {:induction false} NothingHeld(ts: seq<Thread>, f: Thread -> multiset<Check>)
    requires forall i | 0 <= i < |ts| :: f(ts[i]) == multiset{}
    ensures Union(ts, f) == multiset{}
  {
    if ts != [] {
      NothingHeld(ts[..|ts| - 1], f);
    }
  }

  /** When the master leaves, nobody holds anything, and the result is the truth about everything added. */
  lemma ReturnKeeps(s: State)
    requires AtTop(s, MASTER) && s.queue == [] && s.nTodo == 0
    ensures Inv(Top(s, MASTER))
  {
    hide Union, Count;
    NobodyHolds(s.threads);
    NothingHeld(s.threads, Batch);
    NothingHeld(s.threads, Executed);
    NothingHeld(s.threads, Passed);
    ReturnReport(s);
    CountedPut(s, MASTER, Outside);
    var c := Top(s, MASTER);
    EmptyHanded(s, MASTER, Outside);
    assert c.threads == s.threads;
    assert forall i | 0 <= i < |c.threads| :: ThreadOk(c.threads[i], c.ran);
  }

  lemma ReturnReport(s: State)
    requires s.queue == [] && Conserved(s) && Honest(s)
    requires Union(s.threads, Batch) == multiset{} && Union(s.threads, Executed) == multiset{}
        && Union(s.threads, Passed) == multiset{}
    ensures ReportOk(Report(s.allOk, s.added, s.ran))
  {
    hide Union;
    assert s.added == s.done;
    assert s.done + multiset{} == s.done;
  }

  lemma SleepKeeps(s: State, i: nat)
    requires AtTop(s, i) && s.queue == [] && !(i == MASTER && s.nTodo == 0)
    ensures Inv(Top(s, i))
  {
    hide Union, Count;
    CountedPut(s, i, Asleep(false));
    EmptyHanded(s, i, Asleep(false));
  }

  lemma TakeKeeps(s: State, i: nat)
    requires AtTop(s, i) && s.queue != []
    ensures Inv(Top(s, i))
  {
    hide Union, Count, Conserved, Honest, Share, Reversed;
    ShareFits(s);
    TakeConserves(s, i);
    TakeHonest(s, i);
    CountedPut(s, i, Take(s, i).threads[i]);
  }

  lemma TopKeeps(s: State, i: nat)
    requires AtTop(s, i)
    ensures Inv(Top(s, i))
  {
    hide Union, Count, AtTop, Inv, Top;
    if s.queue != [] {
      TakeKeeps(s, i);
    } else if i == MASTER && s.nTodo == 0 {
      ReturnKeeps(s);
    } else {
      SleepKeeps(s, i);
    }
  }

  // ----- every step keeps it

  lemma WakeKeeps(s: State, i: nat)
    requires Inv(s) && i < |s.threads| && s.threads[i].Asleep?
    ensures Inv(Wake(s, i))
  {
    hide Union, Count, Top;
    CountedPut(s, i, Outside);
    EmptyHanded(s, i, Outside);
    TopKeeps(Put(s, i, Outside).(nIdle := s.nIdle - 1), i);
  }

  lemma UnionSame(ts: seq<Thread>, f: Thread -> multiset<Check>, i: nat, t: Thread)
    requires i < |ts| && f(ts[i]) == f(t)
    ensures Union(ts[i := t], f) == Union(ts, f)
  {
    hide Union;
    UnionUpdate(ts, f, i, t);
    Cancel(Union(ts[i := t], f), Union(ts, f), f(t));
  }

  lemma Cancel(a: multiset<Check>, b: multiset<Check>, c: multiset<Check>)
    requires a + c == b + c
    ensures a == b
  {
    assert a == a + c - c;
    assert b == b + c - c;
  }

  lemma UnionStep(ts: seq<Thread>, f: Thread -> multiset<Check>, i: nat, t: Thread, extra: multiset<Check>)
    requires i < |ts| && f(t) == f(ts[i]) + extra
    ensures Union(ts[i := t], f) == Union(ts, f) + extra
  {
    hide Union;
    UnionUpdate(ts, f, i, t);
    assert Union(ts, f) + (f(ts[i]) + extra) == (Union(ts, f) + extra) + f(ts[i]);
    Cancel(Union(ts[i := t], f), Union(ts, f) + extra, f(ts[i]));
  }

  lemma PassedNext(t: Thread)
    requires t.Holding? && t.next < |t.batch|
    ensures multiset(t.batch[..t.next + 1]) == multiset(t.batch[..t.next]) + multiset{t.batch[t.next]}
  {
    assert t.batch[..t.next + 1] == t.batch[..t.next] + [t.batch[t.next]];
  }

  lemma RunThreads(s: State, i: nat)
    requires Honest(s) && i < |s.threads| && s.threads[i].Holding? && s.threads[i].next < |s.threads[i].batch|
    ensures var c := RunOne(s, i); forall k | 0 <= k < |c.threads| :: ThreadOk(c.threads[k], c.ran)
  {
    hide Union;
    var c, t := RunOne(s, i), s.threads[i];
    assert Failure(s.ran) ==> Failure(c.ran);
    assert t.ok ==> t.batch[t.next] in c.ran;
  }

  lemma RunExecuted(s: State, i: nat)
    requires i < |s.threads| && s.threads[i].Holding? && s.threads[i].next < |s.threads[i].batch|
    ensures var t, us := s.threads[i], RunOne(s, i).threads;
      && Union(us, Passed) == Union(s.threads, Passed) + multiset{t.batch[t.next]}
      && (if t.ok && t.batch[t.next].passes then Union(us, Executed) == Union(s.threads, Executed)
          + multiset{t.batch[t.next]}
          else Union(us, Executed) <= Union(s.threads, Executed))
  {
    hide Union;
    var c, t := RunOne(s, i), s.threads[i];
    PassedNext(t);
    UnionStep(s.threads, Passed, i, c.threads[i], multiset{t.batch[t.next]});
    if !t.ok {
      UnionSame(s.threads, Executed, i, c.threads[i]);
    } else if t.batch[t.next].passes {
      UnionStep(s.threads, Executed, i, c.threads[i], multiset{t.batch[t.next]});
    } else {
      UnionLoss(s.threads, Executed, i, c.threads[i]);
    }
  }

  lemma RunHonest(s: State, i: nat)
    requires Honest(s) && i < |s.threads| && s.threads[i].Holding? && s.threads[i].next < |s.threads[i].batch|
    ensures Honest(RunOne(s, i))
  {
    hide Union, ThreadOk;
    var t := s.threads[i];
    var x := multiset{t.batch[t.next]};
    RunThreads(s, i);
    RunExecuted(s, i);
    assert s.done + (Union(s.threads, Passed) + x) == (s.done + Union(s.threads, Passed)) + x;
    assert s.done + (Union(s.threads, Executed) + x) == (s.done + Union(s.threads, Executed)) + x;
  }

  lemma RunKeeps(s: State, i: nat)
    requires Inv(s) && i < |s.threads| && s.threads[i].Holding? && s.threads[i].next < |s.threads[i].batch|
    ensures Inv(RunOne(s, i))
  {
    hide Union, Count, Honest, Conserved;
    RunHonest(s, i);
    RunConserves(s, i);
    CountedPut(s, i, RunOne(s, i).threads[i]);
  }

  lemma RunConserves(s: State, i: nat)
    requires Conserved(s) && i < |s.threads| && s.threads[i].Holding? && s.threads[i].next < |s.threads[i].batch|
    ensures Conserved(RunOne(s, i))
  {
    hide Union;
    UnionSame(s.threads, Batch, i, RunOne(s, i).threads[i]);
  }

  /** Reporting a finished batch, before the master is notified. */
  function Returned(s: State, i: nat): State
    requires i < |s.threads| && s.threads[i].Holding?
  {
    var t := s.threads[i];
    Put(s, i, Outside).(allOk := s.allOk && t.ok, nTodo := s.nTodo - |t.batch|, done := s.done + multiset(t.batch))
  }

  lemma ReturnedConserves(s: State, i: nat)
    requires Conserved(s) && i < |s.threads| && s.threads[i].Holding?
    ensures Conserved(Returned(s, i))
  {
    hide Union;
    var c, b := Returned(s, i), multiset(s.threads[i].batch);
    UnionLoss(s.threads, Batch, i, Outside);
    assert multiset(s.queue) + (Union(c.threads, Batch) + b) + s.done == multiset(s.queue) + Union(c.threads, Batch)
        + (s.done + b);
  }

  lemma ReturnedHonest(s: State, i: nat)
    requires Honest(s) && i < |s.threads| && s.threads[i].Holding? && s.threads[i].next == |s.threads[i].batch|
    ensures Honest(Returned(s, i))
  {
    hide Union;
    var c, t := Returned(s, i), s.threads[i];
    assert t.batch[..t.next] == t.batch;
    var b := multiset(t.batch);
    UnionLoss(s.threads, Executed, i, Outside);
    UnionLoss(s.threads, Passed, i, Outside);
    assert s.done + (Union(c.threads, Executed) + b) == (s.done + b) + Union(c.threads, Executed);
    assert s.done + (Union(c.threads, Passed) + b) == (s.done + b) + Union(c.threads, Passed);
    assert ThreadOk(t, s.ran);
  }

  lemma NotifyMaster(s: State)
    requires |s.threads| > MASTER
    ensures var c := Put(s, MASTER, Notify(s.threads[MASTER]));
      && Count(c.threads, IsInside) == Count(s.threads, IsInside)
          && Count(c.threads, IsAsleep) == Count(s.threads, IsAsleep)
      && (Conserved(s) ==> Conserved(c)) && (Honest(s) ==> Honest(c))
  {
    hide Union, Count;
    var n := Notify(s.threads[MASTER]);
    CountedPut(s, MASTER, n);
    UnionSame(s.threads, Batch, MASTER, n);
    UnionSame(s.threads, Executed, MASTER, n);
    UnionSame(s.threads, Passed, MASTER, n);
  }

  lemma SettleKeeps(s: State, i: nat)
    requires Inv(s) && i < |s.threads| && s.threads[i].Holding? && s.threads[i].next == |s.threads[i].batch|
    ensures AtTop(Settle(s, i), i)
  {
    hide Union, Count, Conserved, Honest;
    var c := Returned(s, i);
    ReturnedConserves(s, i);
    ReturnedHonest(s, i);
    CountedPut(s, i, Outside);
    NotifyMaster(c);
    BatchSize(s, i);
  }

  lemma BatchSize(s: State, i: nat)
    requires Conserved(s) && i < |s.threads| && s.threads[i].Holding?
    ensures |s.threads[i].batch| <= s.nTodo && |s.queue| <= s.nTodo - |s.threads[i].batch|
  {
    hide Union;
    UnionHas(s.threads, Batch, i);
    var u, b := Union(s.threads, Batch), Batch(s.threads[i]);
    assert u == b + (u - b);
  }

  lemma FinishKeeps(s: State, i: nat)
    requires Inv(s) && i < |s.threads| && s.threads[i].Holding? && s.threads[i].next == |s.threads[i].batch|
    ensures Inv(Finish(s, i))
  {
    hide AtTop, Inv, Settle, Top;
    SettleKeeps(s, i);
    TopKeeps(Settle(s, i), i);
  }

  lemma EnterKeeps(s: State, i: nat)
    requires Inv(s) && i < |s.threads| && s.threads[i].Outside?
    ensures Inv(Enter(s, i))
  {
    hide Union, Count, Top, ThreadOk;
    TopKeeps(s.(nTotal := s.nTotal + 1), i);
  }

  lemma NotifiedSame(s: State, who: nat, all: bool)
    ensures var c := NotifyWorkers(s, who, all);
      && |c.threads| == |s.threads|
      && (forall i | 0 <= i < |s.threads| :: c.threads[i].Holding? <==> s.threads[i].Holding?)
      && (forall i | 0 <= i < |s.threads| && s.threads[i].Holding? :: c.threads[i] == s.threads[i])
      && Count(c.threads, IsInside) == Count(s.threads, IsInside)
          && Count(c.threads, IsAsleep) == Count(s.threads, IsAsleep)
      && Union(c.threads, Batch) == Union(s.threads, Batch)
      && Union(c.threads, Executed) == Union(s.threads, Executed)
          && Union(c.threads, Passed) == Union(s.threads, Passed)
  {
    hide Union, Count;
    var c := NotifyWorkers(s, who, all);
    CountAgrees(s.threads, c.threads, IsInside);
    CountAgrees(s.threads, c.threads, IsAsleep);
    UnionAgrees(s.threads, c.threads, Batch);
    UnionAgrees(s.threads, c.threads, Executed);
    UnionAgrees(s.threads, c.threads, Passed);
  }

  lemma AddKeeps(s: State, checks: seq<Check>, who: nat)
    requires Inv(s) && s.threads[MASTER].Outside?
    ensures Inv(Add(s, checks, who))
  {
    hide Union, Count, ThreadOk;
    var c := s.(queue := s.queue + checks, nTodo := s.nTodo + |checks|, added := s.added + multiset(checks));
    assert multiset(s.queue) + Union(s.threads, Batch) + s.done + multiset(checks) == multiset(s.queue + checks)
        + Union(s.threads, Batch) + s.done;
    NotifiedSame(c, who, |checks| > 1);
    NotifiedThreads(c, who, |checks| > 1);
  }

  lemma NotifiedThreads(s: State, who: nat, all: bool)
    requires forall i | 0 <= i < |s.threads| :: ThreadOk(s.threads[i], s.ran)
    ensures var c := NotifyWorkers(s, who, all); forall i | 0 <= i < |c.threads| :: ThreadOk(c.threads[i], c.ran)
  {
  }

  lemma StepKeeps(s: State, a: Action)
    requires Inv(s) && Enabled(s, a)
    ensures Inv(Next(s, a))
  {
    hide Inv, Enter, RunOne, Finish, Wake, Add;
    match a
    case Entering(i) => EnterKeeps(s, i);
    case Running(i) => RunKeeps(s, i);
    case Finishing(i) => FinishKeeps(s, i);
    case Waking(i) => WakeKeeps(s, i);
    case Adding(checks, who) => AddKeeps(s, checks, who);
  }

  // ----- every run

  ghost predicate IsRun(threads: nat, batchSize: nat, actions: seq<Action>, states: seq<State>) {
    && |states| == |actions| + 1 && states[0] == Start(threads, batchSize)
    && forall k | 0 <= k < |actions| :: Enabled(states[k], actions[k]) && states[k + 1] == Next(states[k], actions[k])
  }

  lemma StartOk(threads: nat, batchSize: nat)
    requires threads > MASTER
    ensures Inv(Start(threads, batchSize))
  {
    var s := Start(threads, batchSize);
    NothingHeld(s.threads, Batch);
    NothingHeld(s.threads, Executed);
    NothingHeld(s.threads, Passed);
    NobodyCounted(s.threads, IsInside);
    NobodyCounted(s.threads, IsAsleep);
  }

  lemma {:induction false} NobodyCounted(ts: seq<Thread>, p: Thread -> bool)
    requires forall i | 0 <= i < |ts| :: !p(ts[i])
    ensures Count(ts, p) == 0
  {
    if ts != [] {
      NobodyCounted(ts[..|ts| - 1], p);
    }
  }

  lemma {:induction false} EveryRun(threads: nat, batchSize: nat, actions: seq<Action>, states: seq<State>, k: nat)
    requires threads > MASTER && IsRun(threads, batchSize, actions, states) && k <= |actions|
    ensures Inv(states[k])
  {
    hide Inv, Enabled, Next, Start;
    if k == 0 {
      StartOk(threads, batchSize);
    } else {
      EveryRun(threads, batchSize, actions, states, k - 1);
      StepKeeps(states[k - 1], actions[k - 1]);
    }
  }

  // ----- what follows in every state of every run

  /** The test of IsIdle, which the constructor of the control object asserts. */
  predicate IsIdle(s: State) {
    s.nTotal == s.nIdle && s.nTodo == 0 && s.allOk
  }

  predicate IsHolding(t: Thread) { t.Holding? }

  lemma {:induction false} CountSplit(ts: seq<Thread>)
    ensures Count(ts, IsInside) == Count(ts, IsAsleep) + Count(ts, IsHolding)
  {
    if ts != [] {
      CountSplit(ts[..|ts| - 1]);
    }
  }

  /** The counters mean what their comments say. */
  lemma CountersExact(threads: nat, batchSize: nat, actions: seq<Action>, states: seq<State>, k: nat)
    requires threads > MASTER && IsRun(threads, batchSize, actions, states) && k <= |actions|
    ensures var s := states[k];
      && s.nTotal - s.nIdle == Count(s.threads, IsHolding)
      && s.nTodo == |s.queue| + |Union(s.threads, Batch)|
      && s.added == multiset(s.queue) + Union(s.threads, Batch) + s.done
  {
    EveryRun(threads, batchSize, actions, states, k);
    CountSplit(states[k].threads);
  }

  /**
   A wait returns true only if every check added since the one before was run and passed, and false only if one that was
   run failed.
   */
  lemma WaitTruthful(threads: nat, batchSize: nat, actions: seq<Action>, states: seq<State>, k: nat, j: nat)
    requires threads > MASTER && IsRun(threads, batchSize, actions, states) && k <= |actions| && j < |states[k].reports|
    ensures var r := states[k].reports[j];
      && (r.result ==> r.ran == r.added && forall c | c in r.added :: c.passes)
      && (!r.result ==> exists c :: c in r.ran && !c.passes)
      && r.ran <= r.added
  {
    EveryRun(threads, batchSize, actions, states, k);
    assert ReportOk(states[k].reports[j]);
  }

  /** As long as nothing was added since the last wait, the queue is idle: a new control object may be made. */
  lemma IdleBetweenWaits(threads: nat, batchSize: nat, actions: seq<Action>, states: seq<State>, k: nat)
    requires threads > MASTER && IsRun(threads, batchSize, actions, states) && k <= |actions|
    requires states[k].added == multiset{}
    ensures IsIdle(states[k])
  {
    hide Inv, Next, Enabled, Start, IsIdle;
    EveryRun(threads, batchSize, actions, states, k);
    NothingAddedIsIdle(states[k]);
  }

  lemma NothingAddedIsIdle(s: State)
    requires Inv(s) && s.added == multiset{}
    ensures IsIdle(s)
  {
    hide Union, Count;
    assert |Union(s.threads, Batch)| == 0 && s.queue == [] && s.done == multiset{} by {
        Parts(multiset(s.queue), Union(s.threads, Batch), s.done, s.queue); }
    NobodyHolds(s.threads);
    NothingHeld(s.threads, Passed);
    assert s.ran == multiset{};
    CountSplit(s.threads);
    NobodyCounted(s.threads, IsHolding);
  }

  lemma Parts(a: multiset<Check>, b: multiset<Check>, c: multiset<Check>, q: seq<Check>)
    requires a + b + c == multiset{} && a == multiset(q)
    ensures |b| == 0 && c == multiset{} && q == []
  {
    assert |a + b + c| == |a| + |b| + |c|;
  }

  predicate MasterReturned(s: State) {
    |s.threads| > MASTER && s.threads[MASTER].Outside? && s.added == multiset{}
  }

  /** A completed wait leaves nothing added behind, so the queue is idle right after it. */
  lemma WaitLeavesIdle(threads: nat, batchSize: nat, actions: seq<Action>, states: seq<State>, k: nat)
    requires threads > MASTER && IsRun(threads, batchSize, actions, states) && k < |actions|
    requires states[k + 1].reports != states[k].reports
    ensures MasterReturned(states[k + 1]) && IsIdle(states[k + 1])
  {
    hide Inv, Next, Enabled, Start, IsIdle;
    EveryRun(threads, batchSize, actions, states, k + 1);
    EveryRun(threads, batchSize, actions, states, k);
    OnlyReturnReports(states[k], actions[k]);
    NothingAddedIsIdle(states[k + 1]);
  }

  lemma OnlyReturnReports(s: State, a: Action)
    requires Inv(s) && Enabled(s, a)
    ensures Next(s, a).reports == s.reports || MasterReturned(Next(s, a))
  {
    hide Union, Count, Counted, Conserved, Honest, ReportOk, Top, Settle, NotifyWorkers;
    match a
    case Entering(i) => TopReports(s.(nTotal := s.nTotal + 1), i);
    case Finishing(i) => SettleReports(s, i); TopReports(Settle(s, i), i);
    case Waking(i) => TopReports(Put(s, i, Outside).(nIdle := s.nIdle - 1), i);
    case _ => NotifyReports(s, a);
  }

  /** Only the master's return makes a report. */
  lemma TopReports(s: State, i: nat)
    requires i < |s.threads|
    ensures Top(s, i).reports == s.reports || MasterReturned(Top(s, i))
  {
    hide Share, Reversed;
  }

  lemma SettleReports(s: State, i: nat)
    requires |s.threads| > MASTER && i < |s.threads| && s.threads[i].Holding?
    ensures |Settle(s, i).threads| == |s.threads| && Settle(s, i).reports == s.reports
  {
  }

  lemma NotifyReports(s: State, a: Action)
    requires (a.Adding? || a.Running?) && Enabled(s, a)
    ensures Next(s, a).reports == s.reports
  {
  }

  /** A sleeping master that nobody has notified is waiting for a worker that holds a batch. */
  lemma SleepingMaster(s: State)
    requires Inv(s) && s.threads[MASTER] == Asleep(false)
    ensures exists i :: 0 <= i < |s.threads| && i != MASTER && s.threads[i].Holding?
  {
    hide Union, Count;
    UnionSome(s.threads, Batch);
    var i :| 0 <= i < |s.threads| && |Batch(s.threads[i])| > 0;
    assert s.threads[i].Holding?;
  }

  // ----- a wait cannot get stuck

  predicate Useful(s: State, a: Action) {
    Enabled(s, a) && (a.Running? || a.Finishing? || (a.Waking? && s.threads[a.i].notified))
  }

  /** While the master waits, some thread can run a check, report a batch or answer a notification. */
  lemma NeverStuck(s: State)
    requires Inv(s) && !s.threads[MASTER].Outside?
    ensures exists a :: Useful(s, a)
  {
    hide Union, Count;
    var m := s.threads[MASTER];
    if m == Asleep(true) {
      assert Useful(s, Waking(MASTER));
    } else {
      if m.Asleep? {
        SleepingMaster(s);
      }
      var i :| 0 <= i < |s.threads| && s.threads[i].Holding?;
      assert ThreadOk(s.threads[i], s.ran);
      if s.threads[i].next < |s.threads[i].batch| {
        assert Useful(s, Running(i));
      } else {
        assert Useful(s, Finishing(i));
      }
    }
  }

  function Load(t: Thread): nat {
    if t.Holding? && t.next <= |t.batch| then 2 * (|t.batch| - t.next) + 1 else 0
  }

  function Loads(ts: seq<Thread>): nat {
    if ts == [] then 0 else Loads(ts[..|ts| - 1]) + Load(ts[|ts| - 1])
  }

  /** The work left: queued checks weigh more than held ones, held ones more than finished batches. */
  function WorkLeft(s: State): nat {
    3 * |s.queue| + Loads(s.threads)
  }

  lemma {:induction false} LoadsUpdate(ts: seq<Thread>, i: nat, t: Thread)
    requires i < |ts|
    ensures Loads(ts[i := t]) == Loads(ts) - Load(ts[i]) + Load(t)
  {
    var last := |ts| - 1;
    if i < last {
      LoadsUpdate(ts[..last], i, t);
      assert ts[i := t][..last] == ts[..last][i := t];
    } else {
      assert ts[i := t][..last] == ts[..last];
    }
  }

  lemma TopWork(s: State, i: nat)
    requires i < |s.threads| && s.threads[i].Outside?
    ensures WorkLeft(Top(s, i)) <= WorkLeft(s)
  {
    hide Loads, Share, Reversed;
    if s.queue != [] {
      ShareFits(s);
      ReversedContents(s.queue[|Take(s, i).queue|..]);
    }
    LoadsUpdate(s.threads, i, Top(s, i).threads[i]);
  }

  /**
   No step of a wait adds work, and every check run and every batch reported takes some away: a wait needs only
   boundedly many of them.
   */
  lemma WorkShrinks(s: State, a: Action)
    requires Inv(s) && Enabled(s, a) && !a.Adding?
    ensures WorkLeft(Next(s, a)) <= WorkLeft(s)
    ensures a.Running? || a.Finishing? ==> WorkLeft(Next(s, a)) < WorkLeft(s)
  {
    hide Union, Count, Loads, Top, Conserved;
    match a
    case Entering(i) => TopWork(s.(nTotal := s.nTotal + 1), i);
    case Running(i) => LoadsUpdate(s.threads, i, RunOne(s, i).threads[i]);
    case Finishing(i) =>
      var c := Returned(s, i);
      LoadsUpdate(s.threads, i, Outside);
      LoadsUpdate(c.threads, MASTER, Notify(c.threads[MASTER]));
      TopWork(Settle(s, i), i);
    case Waking(i) =>
      LoadsUpdate(s.threads, i, Outside);
      TopWork(Put(s, i, Outside).(nIdle := s.nIdle - 1), i);
  }

  predicate IsNotified(t: Thread) { t.Asleep? && t.notified }

  /** What the useful steps of a wait use up: work, and notifications not yet answered. */
  function Credit(s: State): nat {
    2 * WorkLeft(s) + Count(s.threads, IsNotified)
  }

  lemma NotifiedPut(s: State, i: nat, t: Thread)
    requires i < |s.threads|
    ensures Count(s.threads[i := t], IsNotified)
         == Count(s.threads, IsNotified) - (if IsNotified(s.threads[i]) then 1 else 0)
             + (if IsNotified(t) then 1 else 0)
  {
    CountUpdate(s.threads, IsNotified, i, t);
  }

  /** The top of the loop notifies nobody. */
  lemma TopNotified(s: State, i: nat)
    requires i < |s.threads| && s.threads[i].Outside?
    ensures Count(Top(s, i).threads, IsNotified) == Count(s.threads, IsNotified)
  {
    hide Count, Share, Reversed;
    NotifiedPut(s, i, Top(s, i).threads[i]);
  }

  /** A report answers no notification and makes one at most. */
  lemma SettleNotified(s: State, i: nat)
    requires |s.threads| > MASTER && i < |s.threads| && s.threads[i].Holding?
    ensures |Settle(s, i).threads| == |s.threads| && Settle(s, i).threads[i].Outside?
    ensures Count(Settle(s, i).threads, IsNotified) <= Count(s.threads, IsNotified) + 1
  {
    hide Count;
    var c := Returned(s, i);
    NotifiedPut(s, i, Outside);
    NotifiedPut(c, MASTER, Notify(c.threads[MASTER]));
  }

  /** No step of a wait adds credit, and every useful one takes some away. */
  lemma StepCredit(s: State, a: Action)
    requires Inv(s) && Enabled(s, a) && !a.Adding?
    ensures Credit(Next(s, a)) <= Credit(s) && (Useful(s, a) ==> Credit(Next(s, a)) < Credit(s))
  {
    hide Inv, Count, WorkLeft, Top, Settle;
    WorkShrinks(s, a);
    HasMaster(s);
    match a
    case Entering(i) => TopNotified(s.(nTotal := s.nTotal + 1), i);
    case Running(i) => NotifiedPut(s, i, RunOne(s, i).threads[i]);
    case Finishing(i) => SettleNotified(s, i); TopNotified(Settle(s, i), i);
    case Waking(i) =>
      NotifiedPut(s, i, Outside);
      TopNotified(Put(s, i, Outside).(nIdle := s.nIdle - 1), i);
  }

  lemma HasMaster(s: State)
    requires Inv(s)
    ensures |s.threads| > MASTER
  {
  }

  lemma {:induction false} CountBound(ts: seq<Thread>, p: Thread -> bool)
    ensures Count(ts, p) <= |ts|
  {
    if ts != [] {
      CountBound(ts[..|ts| - 1], p);
    }
  }

  lemma {:induction false} LoadsBound(ts: seq<Thread>, ran: multiset<Check>)
    requires forall i | 0 <= i < |ts| :: ThreadOk(ts[i], ran)
    ensures Loads(ts) <= 3 * |Union(ts, Batch)|
  {
    if ts != [] {
      LoadsBound(ts[..|ts| - 1], ran);
      assert ThreadOk(ts[|ts| - 1], ran);
    }
  }

  /** Six useful steps for each check that is queued or held, and one for each thread, are enough. */
  lemma CreditBound(s: State)
    requires Inv(s)
    ensures Credit(s) <= 6 * s.nTodo + |s.threads|
  {
    hide Count, Union, Loads, ThreadOk;
    LoadsBound(s.threads, s.ran);
    CountBound(s.threads, IsNotified);
  }

  /** How many of the steps from `j` on, before `k`, are useful. */
  ghost function UsefulSteps(actions: seq<Action>, states: seq<State>, j: nat, k: nat): nat
    requires j <= k <= |actions| <= |states|
    decreases k
  {
    if k == j then 0 else
        UsefulSteps(actions, states, j, k - 1) + if Useful(states[k - 1], actions[k - 1]) then 1 else 0
  }

  lemma {:induction false} CreditSpent(threads: nat, batchSize: nat, actions: seq<Action>, states: seq<State>, j: nat,
      k: nat)
    requires threads > MASTER && IsRun(threads, batchSize, actions, states) && j <= k <= |actions|
    requires forall l | j <= l < k :: !actions[l].Adding?
    ensures UsefulSteps(actions, states, j, k) + Credit(states[k]) <= Credit(states[j])
    decreases k
  {
    hide Inv, Enabled, Next, Start, Credit, Useful;
    if k > j {
      CreditSpent(threads, batchSize, actions, states, j, k - 1);
      EveryRun(threads, batchSize, actions, states, k - 1);
      StepCredit(states[k - 1], actions[k - 1]);
    }
  }

  predicate MasterWaits(s: State) {
    |s.threads| > MASTER && !s.threads[MASTER].Outside?
  }

  /**
   In every run, between two additions there are only boundedly many useful steps, however the threads interleave and
   wake; and as long as the master has not returned another one is possible.  So a wait ends unless only useless steps
   are made from some point on.
   */
  lemma WaitBounded(threads: nat, batchSize: nat, actions: seq<Action>, states: seq<State>, j: nat, k: nat)
    requires threads > MASTER && IsRun(threads, batchSize, actions, states) && j <= k <= |actions|
    requires forall l | j <= l < k :: !actions[l].Adding?
    ensures |states[j].threads| == threads && UsefulSteps(actions, states, j, k) <= 6 * states[j].nTodo + threads
    ensures MasterWaits(states[k]) ==> exists a :: Useful(states[k], a)
  {
    hide Inv, Enabled, Next, Start, Useful;
    CreditSpent(threads, batchSize, actions, states, j, k);
    EveryRun(threads, batchSize, actions, states, j);
    EveryRun(threads, batchSize, actions, states, k);
    CreditBound(states[j]);
    SameThreads(threads, batchSize, actions, states, j);
    if MasterWaits(states[k]) {
      NeverStuck(states[k]);
    }
  }

  lemma {:induction false} SameThreads(threads: nat, batchSize: nat, actions: seq<Action>, states: seq<State>, k: nat)
    requires IsRun(threads, batchSize, actions, states) && k <= |actions|
    ensures |states[k].threads| == threads
  {
    hide Enter, Finish, Wake, RunOne, Add;
    if k > 0 {
      SameThreads(threads, batchSize, actions, states, k - 1);
      StepThreads(states[k - 1], actions[k - 1]);
    }
  }

  lemma TopThreads(s: State, i: nat)
    requires i < |s.threads|
    ensures |Top(s, i).threads| == |s.threads|
  {
    hide Share, Reversed;
  }

  lemma StepThreads(s: State, a: Action)
    requires Enabled(s, a)
    ensures |Next(s, a).threads| == |s.threads|
  {
    hide Top, Share;
    match a
    case Entering(i) => TopThreads(s.(nTotal := s.nTotal + 1), i);
    case Finishing(i) => TopThreads(Settle(s, i), i);
    case Waking(i) => TopThreads(Put(s, i, Outside).(nIdle := s.nIdle - 1), i);
    case _ =>
  }
}
