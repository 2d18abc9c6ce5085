/** The check queue itself: what its methods do to its fields while they hold the lock. */
module CheckQueue {
  import opened Common
  import opened CheckQueueSpec

  /** Which sleeping workers are notified. */
  datatype Signal = NoOne | One | Everyone

  class CheckQueue {
    var queue: seq<Check>
    var nIdle: int
    var nTotal: int
    var fAllOk: bool
    var nTodo: int
    const nBatchSize: nat

    ghost function View(): Shared
      reads this
    {
      Shared(nBatchSize, queue, nIdle, nTotal, fAllOk, nTodo)
    }

    constructor (batchSize: nat)
      ensures View() == Init(batchSize, 0).shared
    {
      queue, nIdle, nTotal, fAllOk, nTodo, nBatchSize := [], 0, 0, true, 0, batchSize;
    }

    method Add(vChecks: seq<Check>) returns (signal: Signal)
      modifies this
      ensures View() == Added(old(View()), vChecks)
      ensures signal == if vChecks == [] then NoOne else if |vChecks| == 1 then One else Everyone
    {
      for i := 0 to |vChecks|
        invariant queue == old(queue) + vChecks[..i]
        invariant nIdle == old(nIdle) && nTotal == old(nTotal) && fAllOk == old(fAllOk) && nTodo == old(nTodo)
      {
        queue := queue + [vChecks[i]];
      }
      nTodo := nTodo + |vChecks|;
      signal := if |vChecks| == 1 then One else if |vChecks| > 1 then Everyone else NoOne;
    }

    /** The first part of the loop: puts the last batch behind, if there was one, or counts a new thread. */
    method LoopTop(nNow: nat, fOk: bool, fMaster: bool) returns (outcome: Outcome, notifyMaster: bool)
      requires nTotal >= 0 && nIdle >= 0
      modifies this
      ensures var s := if nNow > 0 then Finished(old(View()), nNow, fOk) else Entered(old(View()));
              (View(), outcome) == Proceed(s, fMaster) && (notifyMaster <==> nNow > 0 && s.todo == 0 && !fMaster)
    {
      notifyMaster := false;
      if nNow > 0 {
        fAllOk := fAllOk && fOk;
        nTodo := nTodo - nNow;
        if nTodo == 0 && !fMaster {
          notifyMaster := true;
        }
      } else {
        nTotal := nTotal + 1;
      }
      outcome := TakeOrWait(fMaster);
    }

    /** Holding the lock again after having slept. */
    method Resume(fMaster: bool) returns (outcome: Outcome)
      requires nTotal >= 0 && nIdle > 0
      modifies this
      ensures (View(), outcome) == Proceed(Woken(old(View())), fMaster)
    {
      nIdle := nIdle - 1;
      outcome := TakeOrWait(fMaster);
    }

    method TakeOrWait(fMaster: bool) returns (outcome: Outcome)
      requires nTotal >= 0 && nIdle >= 0
      modifies this
      ensures (View(), outcome) == Proceed(old(View()), fMaster)
    {
      if queue == [] {
        if fMaster && nTodo == 0 {
          nTotal := nTotal - 1;
          outcome := Return(fAllOk);
          fAllOk := true;
          return;
        }
        nIdle := nIdle + 1;
        return Sleep;
      }
      var nNow := Max(1, Min(nBatchSize, |queue| / (nTotal + nIdle + 1)));
      assert nNow == BatchSize(View());
      var vChecks: seq<Check> := [];
      assert queue[..|queue| - 0] == queue;
      for i := 0 to nNow
        invariant |queue| == |old(queue)| - i && queue == old(queue)[..|old(queue)| - i]
        invariant vChecks + Popped(queue, nNow - i) == Popped(old(queue), nNow)
        invariant nIdle == old(nIdle) && nTotal == old(nTotal) && fAllOk == old(fAllOk) && nTodo == old(nTodo)
      {
        vChecks := vChecks + [queue[|queue| - 1]];
        queue := queue[..|queue| - 1];
      }
      assert vChecks + Popped(queue, 0) == vChecks;
      outcome := Work(vChecks, fAllOk);
    }

    /** Whether nobody has anything to do and no check has failed, as it always is outside of sessions. */
    method IsIdle(ghost y: System) returns (idle: bool)
      requires Inv(y) && View() == y.shared
      ensures idle <==> NothingInHand(y) && AllPass(y.added)
      ensures !y.inSession ==> idle
    {
      IdleIff(y);
      idle := nTotal == nIdle && nTodo == 0 && fAllOk;
    }
  }

  /** Guards a session of the master with a queue, if there is one. */
  class CheckQueueControl {
    const pqueue: CheckQueue?
    var fDone: bool

    constructor (queue: CheckQueue?, ghost y: System)
      requires queue != null ==> Inv(y) && Enabled(y, Open) && queue.View() == y.shared
      ensures pqueue == queue && !fDone
    {
      if queue != null {
        var isIdle := queue.IsIdle(y);
        assert isIdle;
      }
      pqueue, fDone := queue, false;
    }
  }

  /** Evaluates a batch outside the lock; after a failure the rest is skipped. */
  method RunBatch(vChecks: seq<Check>, ok: bool) returns (fOk: bool)
    ensures fOk <==> ok && AllPass(vChecks)
  {
    fOk := ok;
    for i := 0 to |vChecks|
      invariant fOk <==> ok && AllPass(vChecks[..i])
    {
      AllPassConcat(vChecks[..i], [vChecks[i]]);
      assert vChecks[..i + 1] == vChecks[..i] + [vChecks[i]];
      if fOk {
        fOk := vChecks[i].passes;
      }
    }
    assert vChecks[..|vChecks|] == vChecks;
  }
}
