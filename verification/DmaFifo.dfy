/** The write queue object of util/fifo.cc and its event handlers. */
module DmaFifo {
  import opened Outcomes
  import F = WriteFifo

  class WriteQueue {
    const p: F.Param
    var waitQueue: seq<F.Entry>
    var transferQueue: seq<F.Entry>
    var usage: nat
    var insertPending: bool
    var transferPending: bool
    /** Whether the begin-transfer event is scheduled. */
    var beginScheduled: bool

    ghost var accepted: seq<F.Request>
    ghost var done: seq<F.Entry>
    ghost var fired: seq<nat>
    /** The number given to the next request, to tell requests apart. */
    var nextId: nat

    ghost function State(): F.Fifo
      reads this
    {
      F.Fifo(waitQueue, transferQueue, usage, insertPending, transferPending, beginScheduled, accepted, done, fired)
    }

    ghost predicate Valid()
      reads this
    {
      F.Inv(p, State()) && F.Blocked(p, State()) && nextId == |accepted|
    }

    constructor (capacity: nat, unit: nat)
      requires 0 < unit <= capacity
      ensures Valid() && State() == F.Idle && p == F.Param(capacity, unit)
    {
      p := F.Param(capacity, unit);
      waitQueue, transferQueue, usage, insertPending, transferPending, beginScheduled := [], [], 0, false, false, false;
      accepted, done, fired, nextId := [], [], [], 0;
      new;
      F.IdleIsValid(p);
    }

    method InsertWrite()
      requires p.Valid() && waitQueue != []
      modifies this`waitQueue, this`transferQueue, this`usage, this`insertPending, this`beginScheduled
      ensures State() == F.InsertWrite(p, old(State()))
    {
      hide F.Rounded;
      var size := F.Rounded(p, waitQueue[0].size);
      if (insertPending || usage + size > p.capacity) && size <= p.capacity { return; }
      if size > p.capacity {
        F.RoundedBounds(p, waitQueue[0].size);
        var head := waitQueue[0];
        var copy := F.Entry(head.id, head.addr + p.unit, F.Skip(head.buffer, p.unit), head.size - p.unit, true);
        waitQueue := [head.(last := false, size := p.unit), copy] + waitQueue[1..];
        size := F.Rounded(p, waitQueue[0].size);
      }
      insertPending := true;
      usage := usage + size;
      beginScheduled := true;
      transferQueue := transferQueue + [waitQueue[0]];
    }

    method DmaWrite(addr: nat, buffer: Option<nat>, size: nat)
      requires Valid()
      modifies this
      ensures Valid() && p.Valid() && State() == F.DmaWrite(p, old(State()), addr, buffer, size)
    {
      hide F.Assembles, F.Load, F.Ended, F.Rounded, F.Fits, F.Whole, F.InsertWrite;
      F.DmaWriteKeeps(p, State(), addr, buffer, size);
      F.InsertRecords(p);
      if size == 0 { return; }
      waitQueue := waitQueue + [F.Entry(nextId, addr, buffer, size, true)];
      accepted := accepted + [F.Request(nextId, addr, buffer, size)];
      nextId := nextId + 1;
      InsertWrite();
    }

    method InsertWriteDone()
      requires Valid() && insertPending
      modifies this
      ensures Valid() && p.Valid() && old(waitQueue) != [] && State() == F.InsertDone(p, old(State()))
    {
      hide F.Assembles, F.Load, F.Ended, F.Rounded, F.Fits, F.Whole, F.InsertWrite;
      F.InsertDoneKeeps(p, State());
      F.InsertRecords(p);
      waitQueue := waitQueue[1..];
      insertPending := false;
      if |waitQueue| > 0 { InsertWrite(); }
    }

    /** transferWrite, called by the begin-transfer event or when a transfer ends. */
    method TransferWrite() returns (sent: Option<F.Entry>)
      requires transferQueue != []
      modifies this`transferPending
      ensures transferPending
      ensures sent == if old(transferPending) then None else Some(transferQueue[0])
    {
      if transferPending { return None; }
      transferPending := true;
      sent := Some(transferQueue[0]);
    }

    method BeginTransfer() returns (sent: Option<F.Entry>)
      requires Valid() && beginScheduled
      modifies this
      ensures Valid() && State() == F.BeginTransfer(old(State()))
      ensures sent == if old(transferPending) then None else Some(old(transferQueue)[0])
    {
      hide F.Assembles, F.Load, F.Ended, F.Rounded, F.Fits, F.Whole;
      F.BeginKeeps(p, State());
      beginScheduled := false;
      sent := TransferWrite();
    }

    /** `calls` are the writes made by the callback of the request, if this was its last segment. */
    method TransferWriteDoneNext(calls: seq<F.Call>)
      requires Valid() && transferPending
      modifies this
      ensures old(Valid()) && Valid() && State() == F.Step(p, old(State()), F.TransferEnds(calls))
    {
      hide F.Assembles, F.Load, F.Ended, F.Rounded, F.Fits, F.Whole, F.InsertWrite, F.Calls, F.Complete;
      F.CallsKeep(p, State(), calls);
      if transferQueue[0].last {
        Callback(calls);
      }
      FinishTransfer();
    }

    method Callback(calls: seq<F.Call>)
      requires Valid() && transferPending
      modifies this
      ensures Valid() && p.Valid() && State() == F.Calls(p, old(State()), calls)
    {
      hide F.Assembles, F.Load, F.Ended, F.Rounded, F.Fits, F.Whole, F.DmaWrite;
      for i := 0 to |calls|
        invariant Valid() && p.Valid() && State() == F.Calls(p, old(State()), calls[..i])
      {
        assert calls[..i + 1][..i] == calls[..i];
        DmaWrite(calls[i].addr, calls[i].buffer, calls[i].size);
      }
      assert calls[..|calls|] == calls;
    }

    method FinishTransfer()
      requires Valid() && transferPending
      modifies this
      ensures Valid() && p.Valid() && old(transferQueue) != [] && F.Rounded(p, old(transferQueue)[0].size) <= old(usage)
      ensures State() == F.Complete(p, old(State()))
    {
      hide F.Assembles, F.Load, F.Ended, F.Rounded, F.Fits, F.Whole, F.InsertWrite;
      F.CompleteKeeps(p, State());
      F.InsertRecords(p);
      var e := transferQueue[0];
      if e.last { fired := fired + [e.id]; }
      usage := usage - F.Rounded(p, e.size);
      transferPending := false;
      transferQueue := transferQueue[1..];
      done := done + [e];
      if |transferQueue| > 0 && !beginScheduled { var _ := TransferWrite(); }
      assert old(fired) + [] == old(fired);
      assert State() == F.Pop(p, old(State()));
      if |waitQueue| > 0 { InsertWrite(); }
    }
  }
}
