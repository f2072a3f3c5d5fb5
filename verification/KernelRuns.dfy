/**
 Whole runs of driver and device with serialised submission, for any mix of sessions: nothing
 is assumed about how user space throttles or reads.
 */
module KernelRuns {
  import opened DriverCore
  import opened DriverInvariants
  import opened SerialDriver
  import opened SerialInvariants
  import Rings

  /** After probe: nothing open, rings empty, driver and device counters in agreement at any
      value. */
  ghost predicate KStart(k: Kernel) {
    && k.core == Initial() && k.sq == [] && k.executing == map[] && k.cq == [] && k.posted == map[]
    && |k.hw.sqBuf| == QUEUE_DEPTH && |k.hw.cqBuf| == QUEUE_DEPTH
    && k.hw.sqHead == k.hw.sqTail < Rings.U32 && k.hw.cqHead == k.hw.cqTail < Rings.U32
  }

  datatype KRun = KAt(start: Kernel) | KAfter(prev: KRun, step: KStep, k: Kernel)

  function KNow(r: KRun): Kernel {
    match r
    case KAt(start) => start
    case KAfter(_, _, k) => k
  }

  ghost predicate IsKRun(r: KRun) {
    match r
    case KAt(start) => KStart(start)
    case KAfter(prev, step, k) => IsKRun(prev) && KNext(KNow(prev), step, k)
  }

  lemma EmptyFlow(k: Kernel)
    requires k.sq == [] && k.executing == map[] && k.cq == [] && k.posted == map[] && k.core.rings == map[]
    requires forall i :: 0 <= i < |k.core.table| ==> !k.core.table[i].valid
    ensures Flow(k)
  {
  }

  lemma EmptyRings(hw: Hw)
    requires |hw.sqBuf| == QUEUE_DEPTH && |hw.cqBuf| == QUEUE_DEPTH
    requires hw.sqHead == hw.sqTail < Rings.U32 && hw.cqHead == hw.cqTail < Rings.U32
    ensures RingsHold(hw, [], [])
  {
  }

  lemma StartKernel(k: Kernel)
    requires KStart(k)
    ensures KInv(k)
  {
    InitialInv();
    EmptyFlow(k);
    EmptyRings(k.hw);
  }

  /** The invariant of driver and device holds in every reachable state. */
  lemma {:induction false} KRunInv(r: KRun)
    requires IsKRun(r)
    ensures KInv(KNow(r))
  {
    match r
    case KAt(start) => StartKernel(start);
    case KAfter(prev, step, k) =>
      KRunInv(prev);
      KStepInv(KNow(prev), step, k);
  }

  // -------------------------------------------------------------- ring safety --

  /** Nothing unconsumed is in the slot that is written next. */
  ghost predicate NextSlotFree<T>(buf: seq<T>, head: nat, tail: nat, q: seq<T>)
    requires |buf| == QUEUE_DEPTH
  {
    forall j :: 0 <= j < |q| ==>
      var slot := Rings.Slot(head + j, QUEUE_DEPTH); buf[slot] == q[j] && slot != tail % QUEUE_DEPTH
  }

  lemma HasNextSlotFree<T>(buf: seq<T>, head: nat, tail: nat, q: seq<T>)
    requires |buf| == QUEUE_DEPTH && Rings.Holds(buf, head, tail, q) && |q| < QUEUE_DEPTH
    ensures NextSlotFree(buf, head, tail, q)
  {
    forall j | 0 <= j < |q|
      ensures var slot := Rings.Slot(head + j, QUEUE_DEPTH); buf[slot] == q[j] && slot != tail % QUEUE_DEPTH
    {
      Rings.DistinctSlots(head + j, head + |q|, QUEUE_DEPTH);
    }
  }

  lemma RingsSafeIn(k: Kernel)
    requires RingsHold(k.hw, k.sq, k.cq) && Bounded(k)
    ensures k.core.total < QUEUE_DEPTH ==> NextSlotFree(k.hw.sqBuf, k.hw.sqHead, k.hw.sqTail, k.sq)
    ensures k.executing != map[] ==> NextSlotFree(k.hw.cqBuf, k.hw.cqHead, k.hw.cqTail, k.cq)
    ensures k.sq != [] ==> k.hw.sqBuf[k.hw.sqHead % QUEUE_DEPTH] == k.sq[0]
    ensures k.cq != [] ==> k.hw.cqBuf[k.hw.cqHead % QUEUE_DEPTH] == k.cq[0]
  {
    if k.core.total < QUEUE_DEPTH { HasNextSlotFree(k.hw.sqBuf, k.hw.sqHead, k.hw.sqTail, k.sq); }
    if k.executing != map[] {
      assert |k.executing| > 0;
      HasNextSlotFree(k.hw.cqBuf, k.hw.cqHead, k.hw.cqTail, k.cq);
    }
    if k.sq != [] { Rings.Pop(k.hw.sqBuf, k.hw.sqHead, k.hw.sqTail, k.sq); }
    if k.cq != [] { Rings.Pop(k.hw.cqBuf, k.hw.cqHead, k.hw.cqTail, k.cq); }
  }

  /** Ring safety over whole runs, wherever the counters started and however often they wrapped:
      the slot of the next submit holds no unfetched descriptor, the slot of the next completion
      holds no unrouted completion, and both sides consume in FIFO order. */
  lemma RingsSafe(r: KRun)
    requires IsKRun(r)
    ensures var k := KNow(r);
            && |k.hw.sqBuf| == QUEUE_DEPTH && |k.hw.cqBuf| == QUEUE_DEPTH
            && (k.core.total < QUEUE_DEPTH ==> NextSlotFree(k.hw.sqBuf, k.hw.sqHead, k.hw.sqTail, k.sq))
            && (k.executing != map[] ==> NextSlotFree(k.hw.cqBuf, k.hw.cqHead, k.hw.cqTail, k.cq))
            && (k.sq != [] ==> k.hw.sqBuf[k.hw.sqHead % QUEUE_DEPTH] == k.sq[0])
            && (k.cq != [] ==> k.hw.cqBuf[k.hw.cqHead % QUEUE_DEPTH] == k.cq[0])
  {
    KRunInv(r);
    RingsSafeIn(KNow(r));
  }

  /** What the device holds, from the moment it is queued until its completion is routed, is a
      validated descriptor whose ranges lie in live memory of the session the table names. */
  lemma PendingIsBacked(r: KRun, id: nat)
    requires IsKRun(r)
    requires Queued(KNow(r).sq, id) || id in KNow(r).executing || Completed(KNow(r).cq, id)
    ensures var k := KNow(r);
            && id in k.core.issued
            && (exists i :: 0 <= i < |k.core.table| && k.core.table[i].valid && k.core.table[i].id == id
                            && DescBacked(k.core.buffers, k.core.table[i].sess, k.core.issued[id]))
            && (id in k.executing ==> k.executing[id] == k.core.issued[id])
  {
    KRunInv(r);
    var core := KNow(r).core;
    assert InTable(core.table, id);
    var i :| 0 <= i < |core.table| && core.table[i].valid && core.table[i].id == id;
  }
}
