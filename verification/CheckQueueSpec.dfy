/** The queue of checks shared by a master and its workers: every interleaving of their critical sections. */
module CheckQueueSpec {
  import opened Common

  /** A check, with what evaluating it gives. */
  datatype Check = Check(id: nat, passes: bool)

  predicate AllPass(checks: seq<Check>) {
    forall c :: c in checks ==> c.passes
  }

  // ---------- The fields under the lock ----------

  datatype Shared = Shared(batchSize: nat, queue: seq<Check>, idle: int, total: int, allOk: bool, todo: int)

  /** How a critical section ends: the thread leaves with a result, goes to sleep, or has work to do. */
  datatype Outcome = Return(result: bool) | Sleep | Work(batch: seq<Check>, ok: bool)

  /** How many checks to take at once. */
  function BatchSize(s: Shared): (n: nat)
    requires s.queue != [] && s.total >= 0 && s.idle >= 0
    ensures 1 <= n <= |s.queue|
  {
    Max(1, Min(s.batchSize, |s.queue| / (s.total + s.idle + 1)))
  }

  /** A batch is the queue's share for one of all the threads in the loop and those asleep, and one more; but no larger
      than allowed, and never empty. */
  lemma BatchIsShare(s: Shared)
    requires s.queue != [] && s.total >= 0 && s.idle >= 0
    ensures var n, parts := BatchSize(s), s.total + s.idle + 1;
            && (n > 1 ==> n <= s.batchSize && n * parts <= |s.queue|)
            && (n < s.batchSize ==> (n + 1) * parts > |s.queue|)
  {
  }

  /** The last `n` checks of the queue, the last one first. */
  function Popped(queue: seq<Check>, n: nat): (r: seq<Check>)
    requires n <= |queue|
    ensures |r| == n
  {
    if n == 0 then [] else [queue[|queue| - 1]] + Popped(queue[..|queue| - 1], n - 1)
  }

  /** What a thread does once it holds the lock and has put its last batch behind it. */
  function Proceed(s: Shared, master: bool): (Shared, Outcome)
    requires s.total >= 0 && s.idle >= 0
  {
    if s.queue == [] then
      if master && s.todo == 0 then (s.(total := s.total - 1, allOk := true), Return(s.allOk))
      else (s.(idle := s.idle + 1), Sleep)
    else
      var n := BatchSize(s);
      (s.(queue := s.queue[..|s.queue| - n]), Work(Popped(s.queue, n), s.allOk))
  }

  function Entered(s: Shared): Shared { s.(total := s.total + 1) }

  function Finished(s: Shared, n: nat, ok: bool): Shared { s.(allOk := s.allOk && ok, todo := s.todo - n) }

  function Woken(s: Shared): Shared { s.(idle := s.idle - 1) }

  function Added(s: Shared, checks: seq<Check>): Shared { s.(queue := s.queue + checks, todo := s.todo + |checks|) }

  predicate IsIdle(s: Shared) { s.total == s.idle && s.todo == 0 && s.allOk }

  // ---------- The threads ----------

  /** Where a thread is between two critical sections. */
  datatype Phase = Outside | Asleep(notified: bool) | Busy(batch: seq<Check>, ok: bool)

  /** The master is thread 0.  `added` are the checks added since the last wait, `results` those of all earlier
      sessions with what waiting for them returned, `idle` what was found at the beginning of each session. */
  datatype System = System(shared: Shared, threads: seq<Phase>, inSession: bool, added: seq<Check>,
                           results: seq<(seq<Check>, bool)>, idle: seq<bool>)

  datatype Event =
    | Open                                 // the master begins a session
    | Add(checks: seq<Check>, who: nat)    // and adds checks; if it is one, `who` is notified
    | Enter(i: nat)                        // a thread enters the loop
    | Finish(i: nat)                       // a thread has evaluated its batch
    | Wake(i: nat)                         // a sleeping thread gets the lock again

  function Init(batchSize: nat, workers: nat): System {
    System(Shared(batchSize, [], 0, 0, true, 0), seq(1 + workers, i => Outside), false, [], [], [])
  }

  predicate CanNotify(threads: seq<Phase>, i: nat) { 0 < i < |threads| && threads[i] == Asleep(false) }

  /** Whom adding checks notifies: one sleeping worker if there is one, or all. */
  function Notify(threads: seq<Phase>, n: nat, who: nat): (r: seq<Phase>)
    ensures |r| == |threads|
    ensures forall i :: 0 <= i < |r| ==> r[i] == threads[i] || (CanNotify(threads, i) && r[i] == Asleep(true))
    ensures threads != [] ==> r[0] == threads[0]
  {
    if n == 0 then threads
    else if n == 1 then if CanNotify(threads, who) then threads[who := Asleep(true)] else threads
    else seq(|threads|, i requires 0 <= i < |threads| => if CanNotify(threads, i) then Asleep(true) else threads[i])
  }

  function NotifyMaster(threads: seq<Phase>): seq<Phase>
    requires threads != []
  {
    if threads[0].Asleep? then threads[0 := Asleep(true)] else threads
  }

  predicate Enabled(y: System, e: Event) {
    && y.threads != []
    && match e
       case Open => y.threads[0].Outside? && !y.inSession
       case Add(checks, who) =>
         && y.threads[0].Outside? && y.inSession
         && (|checks| == 1 ==> CanNotify(y.threads, who) || forall i :: 0 <= i < |y.threads| ==>
             !CanNotify(y.threads, i))
       case Enter(i) => i < |y.threads| && y.threads[i].Outside? && (i == 0 ==> y.inSession)
       case Finish(i) => i < |y.threads| && y.threads[i].Busy?
       case Wake(i) => i < |y.threads| && y.threads[i].Asleep?
  }

  /** Leaves the critical section. */
  function Leave(y: System, i: nat, s: Shared): System
    requires i < |y.threads| && s.total >= 0 && s.idle >= 0
  {
    var (s1, o) := Proceed(s, i == 0);
    match o
    case Return(result) =>
      y.(shared := s1, threads := y.threads[i := Outside], inSession := false, added := [],
         results := y.results + [(y.added, result)])
    case Sleep => y.(shared := s1, threads := y.threads[i := Asleep(false)])
    case Work(batch, ok) => y.(shared := s1, threads := y.threads[i := Busy(batch, ok)])
  }

  function Step(y: System, e: Event): System
    requires Inv(y) && Enabled(y, e)
  {
    match e
    case Open => y.(inSession := true, idle := y.idle + [IsIdle(y.shared)])
    case Add(checks, who) =>
      y.(shared := Added(y.shared, checks), threads := Notify(y.threads, |checks|, who), added := y.added + checks)
    case Enter(i) => Leave(y, i, Entered(y.shared))
    case Finish(i) =>
      var (batch, ok) := (y.threads[i].batch, y.threads[i].ok);
      var s := Finished(y.shared, |batch|, ok && AllPass(batch));
      var z := if s.todo == 0 && i != 0 then y.(threads := NotifyMaster(y.threads)) else y;
      Leave(z, i, s)
    case Wake(i) => AsleepIsCounted(y.threads, i); Leave(y, i, Woken(y.shared))
  }

  // ---------- Counting ----------

  function Sum(threads: seq<Phase>, f: Phase -> nat): nat {
    if threads == [] then 0 else f(threads[0]) + Sum(threads[1..], f)
  }

  function Held(p: Phase): nat { if p.Busy? then |p.batch| else 0 }

  function Inside(p: Phase): nat { if p.Outside? then 0 else 1 }

  function Sleeps(p: Phase): nat { if p.Asleep? then 1 else 0 }

  lemma {:induction false} SumUpdate(threads: seq<Phase>, f: Phase -> nat, i: nat, p: Phase)
    requires i < |threads|
    ensures Sum(threads[i := p], f) == Sum(threads, f) - f(threads[i]) + f(p)
    ensures Sum(threads, f) >= f(threads[i])
    decreases i
  {
    if i > 0 {
      SumUpdate(threads[1..], f, i - 1, p);
      assert threads[i := p][1..] == threads[1..][i - 1 := p];
    } else {
      assert threads[i := p][1..] == threads[1..];
    }
  }

  lemma AsleepIsCounted(threads: seq<Phase>, i: nat)
    requires i < |threads| && threads[i].Asleep?
    ensures Sum(threads, Sleeps) > 0
  {
    SumUpdate(threads, Sleeps, i, Outside);
  }

  lemma {:induction false} SumSame(a: seq<Phase>, b: seq<Phase>, f: Phase -> nat)
    requires |a| == |b| && forall i :: 0 <= i < |a| ==> f(a[i]) == f(b[i])
    ensures Sum(a, f) == Sum(b, f)
  {
    if a != [] {
      SumSame(a[1..], b[1..], f);
    }
  }

  /** Every thread in the loop is asleep or holds something, or else nothing is held. */
  lemma {:induction false} InsideIsAsleepOrBusy(threads: seq<Phase>)
    requires Sum(threads, Held) == 0 && forall i :: 0 <= i < |threads| && threads[i].Busy? ==> threads[i].batch != []
    ensures Sum(threads, Inside) == Sum(threads, Sleeps)
  {
    if threads != [] {
      assert !threads[0].Busy?;
      InsideIsAsleepOrBusy(threads[1..]);
    }
  }

  lemma {:induction false} SomeoneHolds(threads: seq<Phase>) returns (i: nat)
    requires Sum(threads, Held) > 0
    ensures i < |threads| && threads[i].Busy?
  {
    if threads[0].Busy? {
      i := 0;
    } else {
      i := SomeoneHolds(threads[1..]);
      i := i + 1;
    }
  }

  // ---------- The invariant ----------

  /** The counters say what they stand for. */
  predicate CountersOk(s: Shared, threads: seq<Phase>) {
    && s.todo == |s.queue| + Sum(threads, Held)
    && s.total == Sum(threads, Inside)
    && s.idle == Sum(threads, Sleeps)
  }

  /** Every batch has something in it, and none was taken with a failure already known unless it still is. */
  predicate BatchesOk(s: Shared, threads: seq<Phase>) {
    forall i :: 0 <= i < |threads| && threads[i].Busy? ==> threads[i].batch != [] && (!threads[i].ok ==> !s.allOk)
  }

  predicate BatchesPass(threads: seq<Phase>) {
    forall i :: 0 <= i < |threads| && threads[i].Busy? ==> AllPass(threads[i].batch)
  }

  /** Whatever is known and whatever is still to be found out amounts to all the checks added. */
  predicate VerdictOk(s: Shared, threads: seq<Phase>, added: seq<Check>) {
    AllPass(added) <==> s.allOk && AllPass(s.queue) && BatchesPass(threads)
  }

  /** The master sleeps only while others have work, or it has been notified. */
  predicate MasterOk(s: Shared, master: Phase) {
    master.Asleep? ==> s.queue == [] && (s.todo == 0 ==> master.notified)
  }

  predicate SessionOk(y: System)
    requires y.threads != []
  {
    !y.inSession ==> y.threads[0].Outside? && y.added == [] && y.shared.todo == 0 && y.shared.allOk
  }

  /** Every wait returned whether all checks of its session pass, and every session found the queue idle. */
  predicate HistoryOk(y: System) {
    && (forall k :: 0 <= k < |y.results| ==> (y.results[k].1 <==> AllPass(y.results[k].0)))
    && forall k :: 0 <= k < |y.idle| ==> y.idle[k]
  }

  predicate Inv(y: System) {
    && y.threads != []
    && CountersOk(y.shared, y.threads) && BatchesOk(y.shared, y.threads) && VerdictOk(y.shared, y.threads, y.added)
    && MasterOk(y.shared, y.threads[0]) && SessionOk(y) && HistoryOk(y)
  }

  /** A queue with nothing to do and all its threads asleep or outside is idle. */
  lemma NothingToDo(y: System)
    requires y.threads != [] && CountersOk(y.shared, y.threads) && BatchesOk(y.shared, y.threads) && y.shared.todo == 0
    ensures y.shared.queue == [] && y.shared.total == y.shared.idle
    ensures forall i :: 0 <= i < |y.threads| ==> !y.threads[i].Busy?
  {
    InsideIsAsleepOrBusy(y.threads);
    forall i | 0 <= i < |y.threads|
      ensures !y.threads[i].Busy?
    {
      SumUpdate(y.threads, Held, i, Outside);
    }
  }

  /** Nothing waits in the queue and nobody holds checks. */
  predicate NothingInHand(y: System) {
    y.shared.queue == [] && forall i :: 0 <= i < |y.threads| ==> !y.threads[i].Busy?
  }

  lemma {:induction false} NobodyHolds(threads: seq<Phase>)
    requires forall i :: 0 <= i < |threads| ==> !threads[i].Busy?
    ensures Sum(threads, Held) == 0
  {
    if threads != [] {
      NobodyHolds(threads[1..]);
    }
  }

  /** Being idle, told from three counters, is to have nothing in hand and to know of no failure. */
  lemma IdleIff(y: System)
    requires Inv(y)
    ensures IsIdle(y.shared) <==> NothingInHand(y) && AllPass(y.added)
    ensures !y.inSession ==> IsIdle(y.shared)
  {
    if y.shared.todo == 0 {
      NothingToDo(y);
    }
    if NothingInHand(y) {
      NobodyHolds(y.threads);
    }
  }

  // ---------- Every step keeps the invariant ----------

  lemma {:induction false} PoppedAre(queue: seq<Check>, n: nat)
    requires n <= |queue|
    ensures AllPass(queue) <==> AllPass(queue[..|queue| - n]) && AllPass(Popped(queue, n))
  {
    if n > 0 {
      var init, last := queue[..|queue| - 1], queue[|queue| - 1];
      PoppedAre(init, n - 1);
      assert init[..|init| - (n - 1)] == queue[..|queue| - n];
      assert queue == init + [last];
      assert Popped(queue, n) == [last] + Popped(init, n - 1);
    } else {
      assert queue[..|queue|] == queue;
    }
  }

  /** The invariant while thread `i` is in its critical section, with its last batch behind it. */
  predicate Within(y: System, i: nat, s: Shared) {
    && i < |y.threads| && HistoryOk(y)
    && var others := y.threads[i := Outside];
       && CountersOk(s.(total := s.total - 1), others) && BatchesOk(s, others) && VerdictOk(s, others, y.added)
       && (if i == 0 then y.inSession else MasterOk(s, y.threads[0]))
       && (!y.inSession ==> y.threads[0].Outside? && y.added == [] && s.todo == 0 && s.allOk)
  }

  /** Putting a thread where it now is. */
  lemma Placed(s: Shared, threads: seq<Phase>, i: nat, p: Phase)
    requires i < |threads| && BatchesOk(s, threads[i := Outside])
    ensures var (a, b) := (threads[i := p], threads[i := Outside]);
            && Sum(a, Held) == Sum(b, Held) + Held(p)
            && Sum(a, Inside) == Sum(b, Inside) + Inside(p)
            && Sum(a, Sleeps) == Sum(b, Sleeps) + Sleeps(p)
            && (BatchesPass(a) <==> BatchesPass(b) && (p.Busy? ==> AllPass(p.batch)))
            && ((p.Busy? ==> p.batch != [] && (!p.ok ==> !s.allOk)) ==> BatchesOk(s, a))
  {
    var a, b := threads[i := p], threads[i := Outside];
    assert b[i := p] == a;
    SumUpdate(b, Held, i, p);
    SumUpdate(b, Inside, i, p);
    SumUpdate(b, Sleeps, i, p);
    OthersPass(threads, i, p);
    assert forall k :: 0 <= k < |a| && k != i ==> a[k] == b[k];
  }

  lemma LeaveReturning(y: System, i: nat, s: Shared)
    requires Within(y, i, s) && Proceed(s, i == 0).1.Return?
    ensures Inv(Leave(y, i, s))
  {
    NothingToDo(y.(shared := s.(total := s.total - 1), threads := y.threads[i := Outside]));
  }

  lemma LeaveSleeping(y: System, i: nat, s: Shared)
    requires Within(y, i, s) && Proceed(s, i == 0).1.Sleep?
    ensures Inv(Leave(y, i, s))
  {
    Placed(s, y.threads, i, Asleep(false));
  }

  lemma LeaveWorking(y: System, i: nat, s: Shared)
    requires Within(y, i, s) && Proceed(s, i == 0).1.Work?
    ensures Inv(Leave(y, i, s))
  {
    var (s1, o) := Proceed(s, i == 0);
    var p := Busy(o.batch, o.ok);
    PoppedAre(s.queue, |o.batch|);
    Placed(s, y.threads, i, p);
    hide AllPass, BatchesPass, Popped;
  }

  lemma OthersPass(threads: seq<Phase>, i: nat, p: Phase)
    requires i < |threads|
    ensures BatchesPass(threads[i := p]) <==> BatchesPass(threads[i := Outside]) && (p.Busy? ==> AllPass(p.batch))
  {
    var a, b := threads[i := p], threads[i := Outside];
    assert forall k :: 0 <= k < |a| && k != i ==> a[k] == b[k];
    if BatchesPass(a) {
      assert a[i] == p;
      assert BatchesPass(b);
    }
  }

  lemma LeaveKeeps(y: System, i: nat, s: Shared)
    requires Within(y, i, s)
    ensures Inv(Leave(y, i, s))
  {
    if Proceed(s, i == 0).1.Return? {
      LeaveReturning(y, i, s);
    } else if Proceed(s, i == 0).1.Sleep? {
      LeaveSleeping(y, i, s);
    } else {
      LeaveWorking(y, i, s);
    }
  }

  lemma OpenKeeps(y: System)
    requires Inv(y) && Enabled(y, Open)
    ensures Inv(Step(y, Open)) && IsIdle(y.shared)
  {
    NothingToDo(y);
  }

  lemma AddKeeps(y: System, checks: seq<Check>, who: nat)
    requires Inv(y) && Enabled(y, Add(checks, who))
    ensures Inv(Step(y, Add(checks, who)))
  {
    var threads := Notify(y.threads, |checks|, who);
    SumSame(y.threads, threads, Held);
    SumSame(y.threads, threads, Inside);
    SumSame(y.threads, threads, Sleeps);
    assert BatchesPass(threads) <==> BatchesPass(y.threads) by {
      assert forall i :: 0 <= i < |threads| ==> (threads[i].Busy? || y.threads[i].Busy? ==> threads[i] == y.threads[i]);
    }
    AllPassConcat(y.added, checks);
    AllPassConcat(y.shared.queue, checks);
  }

  lemma AllPassConcat(a: seq<Check>, b: seq<Check>)
    ensures AllPass(a + b) <==> AllPass(a) && AllPass(b)
  {
    assert forall c :: c in a ==> c in a + b;
    assert forall c :: c in b ==> c in a + b;
  }

  lemma EnterIsWithin(y: System, i: nat)
    requires Inv(y) && Enabled(y, Enter(i))
    ensures Within(y, i, Entered(y.shared))
  {
    assert y.threads[i := Outside] == y.threads;
  }

  lemma WakeIsWithin(y: System, i: nat)
    requires Inv(y) && Enabled(y, Wake(i))
    ensures Within(y, i, Woken(y.shared))
  {
    SumUpdate(y.threads, Held, i, Outside);
    SumUpdate(y.threads, Inside, i, Outside);
    SumUpdate(y.threads, Sleeps, i, Outside);
    OthersPass(y.threads, i, y.threads[i]);
    assert y.threads[i := y.threads[i]] == y.threads;
  }

  lemma FinishIsWithin(y: System, i: nat)
    requires Inv(y) && Enabled(y, Finish(i))
    ensures var s := Finished(y.shared, |y.threads[i].batch|, y.threads[i].ok && AllPass(y.threads[i].batch));
            Within(if s.todo == 0 && i != 0 then y.(threads := NotifyMaster(y.threads)) else y, i, s)
  {
    var s := Finished(y.shared, |y.threads[i].batch|, y.threads[i].ok && AllPass(y.threads[i].batch));
    SumUpdate(y.threads, Held, i, Outside);
    SumUpdate(y.threads, Inside, i, Outside);
    SumUpdate(y.threads, Sleeps, i, Outside);
    OthersPass(y.threads, i, y.threads[i]);
    assert y.threads[i := y.threads[i]] == y.threads;
    if s.todo == 0 && i != 0 && y.threads[0].Asleep? {
      NotifiedOthers(y.threads, i);
    }
  }

  lemma NotifiedOthers(threads: seq<Phase>, i: nat)
    requires 0 < i < |threads| && threads[0].Asleep?
    ensures var a, b := threads[i := Outside], NotifyMaster(threads)[i := Outside];
            && Sum(a, Held) == Sum(b, Held) && Sum(a, Inside) == Sum(b, Inside) && Sum(a, Sleeps) == Sum(b, Sleeps)
            && (BatchesPass(a) <==> BatchesPass(b))
            && forall k :: 0 <= k < |a| ==> (a[k].Busy? || b[k].Busy? ==> a[k] == b[k])
  {
    var a, b := threads[i := Outside], NotifyMaster(threads)[i := Outside];
    SumSame(a, b, Held);
    SumSame(a, b, Inside);
    SumSame(a, b, Sleeps);
    assert forall k :: 0 <= k < |a| ==> (a[k].Busy? || b[k].Busy? ==> a[k] == b[k]);
  }

  /** Every step of every thread keeps the invariant; a session always begins with an idle queue. */
  lemma StepKeeps(y: System, e: Event)
    requires Inv(y) && Enabled(y, e)
    ensures Inv(Step(y, e)) && (e.Open? ==> IsIdle(y.shared))
  {
    hide Inv, Within, Leave;
    match e
    case Open => OpenKeeps(y);
    case Add(checks, who) => AddKeeps(y, checks, who);
    case Enter(i) => EnterIsWithin(y, i); LeaveKeeps(y, i, Entered(y.shared));
    case Wake(i) => WakeIsWithin(y, i); LeaveKeeps(y, i, Woken(y.shared));
    case Finish(i) =>
      FinishIsWithin(y, i);
      var s := Finished(y.shared, |y.threads[i].batch|, y.threads[i].ok && AllPass(y.threads[i].batch));
      LeaveKeeps(if s.todo == 0 && i != 0 then y.(threads := NotifyMaster(y.threads)) else y, i, s);
  }

  // ---------- Safety of every run ----------

  lemma InitIsInv(batchSize: nat, workers: nat)
    ensures Inv(Init(batchSize, workers))
  {
    var threads := Init(batchSize, workers).threads;
    NoneInside(threads);
  }

  lemma {:induction false} NoneInside(threads: seq<Phase>)
    requires forall i :: 0 <= i < |threads| ==> threads[i].Outside?
    ensures Sum(threads, Held) == Sum(threads, Inside) == Sum(threads, Sleeps) == 0
  {
    if threads != [] {
      NoneInside(threads[1..]);
    }
  }

  predicate IsRun(y: System, events: seq<Event>)
    requires Inv(y)
    decreases |events|
  {
    events == [] || (Enabled(y, events[0]) && (StepKeeps(y, events[0]); IsRun(Step(y, events[0]), events[1..])))
  }

  function After(y: System, events: seq<Event>): (z: System)
    requires Inv(y) && IsRun(y, events)
    ensures Inv(z)
    decreases |events|
  {
    if events == [] then y else
      StepKeeps(y, events[0]);
      After(Step(y, events[0]), events[1..])
  }

  /** A run from the beginning, with any number of workers. */
  predicate IsHistory(batchSize: nat, workers: nat, events: seq<Event>) {
    InitIsInv(batchSize, workers);
    IsRun(Init(batchSize, workers), events)
  }

  function Reached(batchSize: nat, workers: nat, events: seq<Event>): System
    requires IsHistory(batchSize, workers, events)
  {
    InitIsInv(batchSize, workers);
    After(Init(batchSize, workers), events)
  }

  /** However the threads interleave: the counters are right, every wait returned whether all checks of its
      session pass, and the queue is idle whenever no session is on. */
  lemma EveryRunIsSafe(batchSize: nat, workers: nat, events: seq<Event>)
    requires IsHistory(batchSize, workers, events)
    ensures var y := Reached(batchSize, workers, events);
            && CountersOk(y.shared, y.threads)
            && (forall k :: 0 <= k < |y.results| ==> (y.results[k].1 <==> AllPass(y.results[k].0)))
            && (forall k :: 0 <= k < |y.idle| ==> y.idle[k])
            && (!y.inSession ==> IsIdle(y.shared))
  {
    InitIsInv(batchSize, workers);
    var y := Reached(batchSize, workers, events);
    if !y.inSession {
      NothingToDo(y);
    }
  }

  // ---------- Waiting ends ----------

  /** A step a thread will make by itself: nobody wakes up unless notified, and the master adds nothing more. */
  predicate Prompted(y: System, e: Event) {
    Enabled(y, e) && !e.Open? && !e.Add? && (e.Wake? ==> y.threads[e.i].notified)
  }

  function Weight(p: Phase): nat {
    match p
    case Outside => 1
    case Asleep(notified) => if notified then 1 else 0
    case Busy(batch, _) => 2 * |batch|
  }

  function Measure(y: System): nat { 3 * |y.shared.queue| + Sum(y.threads, Weight) }

  predicate Returns(y: System, e: Event)
    requires Inv(y) && Enabled(y, e)
  {
    |Step(y, e).results| > |y.results|
  }

  lemma LeaveShrinks(y: System, i: nat, s: Shared)
    requires i < |y.threads| && s.total >= 0 && s.idle >= 0 && s.queue == y.shared.queue
    ensures |Leave(y, i, s).results| > |y.results| || Measure(Leave(y, i, s)) <= Measure(y) - Weight(y.threads[i])
  {
    SumUpdate(y.threads, Weight, i, Leave(y, i, s).threads[i]);
  }

  /** Every such step ends the waiting or brings its end nearer. */
  lemma StepShrinks(y: System, e: Event)
    requires Inv(y) && Prompted(y, e)
    ensures Returns(y, e) || Measure(Step(y, e)) < Measure(y)
  {
    match e
    case Enter(i) => LeaveShrinks(y, i, Entered(y.shared));
    case Wake(i) => AsleepIsCounted(y.threads, i); LeaveShrinks(y, i, Woken(y.shared));
    case Finish(i) =>
      var s := Finished(y.shared, |y.threads[i].batch|, y.threads[i].ok && AllPass(y.threads[i].batch));
      if s.todo == 0 && i != 0 && y.threads[0].Asleep? {
        SumUpdate(y.threads, Weight, 0, Asleep(true));
        LeaveShrinks(y.(threads := NotifyMaster(y.threads)), i, s);
      } else {
        assert NotifyMaster(y.threads) == y.threads || y.threads[0].Asleep?;
        LeaveShrinks(y, i, s);
      }
  }

  /** While a session is on, and with any number of workers, some thread can go on: the master is never left
      sleeping unless it has been notified or some worker holds checks. */
  lemma SomeoneCanStep(y: System) returns (e: Event)
    requires Inv(y) && y.inSession
    ensures Prompted(y, e)
    ensures y.threads[0] == Asleep(false) ==> e.Finish? && e.i != 0
  {
    match y.threads[0]
    case Outside => e := Enter(0);
    case Busy(_, _) => e := Finish(0);
    case Asleep(notified) =>
      if notified {
        e := Wake(0);
      } else {
        var i := SomeoneHolds(y.threads);
        e := Finish(i);
      }
  }

  predicate IsPromptedRun(y: System, events: seq<Event>)
    requires Inv(y)
    decreases |events|
  {
    events == [] ||
    (Prompted(y, events[0]) && !Returns(y, events[0])
     && (StepKeeps(y, events[0]); IsPromptedRun(Step(y, events[0]), events[1..])))
  }

  /** Waiting always returns: however long it has not, it will not take more than so many steps, and it is not stuck. */
  lemma {:induction false} WaitReturns(y: System, events: seq<Event>)
    requires Inv(y) && y.inSession && IsPromptedRun(y, events)
    ensures |events| <= Measure(y)
    ensures IsRun(y, events) && exists e :: Prompted(After(y, events), e)
    decreases |events|
  {
    if events == [] {
      var e := SomeoneCanStep(y);
      assert Prompted(After(y, events), e);
    } else {
      StepKeeps(y, events[0]);
      StepShrinks(y, events[0]);
      StaysInSession(y, events[0]);
      WaitReturns(Step(y, events[0]), events[1..]);
      assert After(y, events) == After(Step(y, events[0]), events[1..]);
    }
  }

  lemma StaysInSession(y: System, e: Event)
    requires Inv(y) && Prompted(y, e) && y.inSession && !Returns(y, e)
    ensures Step(y, e).inSession
  {
  }
}
