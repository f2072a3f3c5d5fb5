/**
 End-to-end guarantees over every run of any number of Streams, the driver and the device.
 */
module StreamGuarantees {
  import opened Basics
  import opened DriverCore
  import opened DriverInvariants
  import opened DriverGuarantees
  import opened SerialDriver
  import opened SerialInvariants
  import opened StreamSystem
  import opened StreamInvariants
  import opened KernelRuns

  /** After probe: the kernel at its start and no Streams. */
  ghost predicate Start(y: Sys) {
    KStart(y.k) && y.streams == map[] && y.fences == map[] && y.submitter == map[]
  }

  datatype SRun = At(start: Sys) | After(prev: SRun, step: SStep, y: Sys)

  function Now(r: SRun): Sys {
    match r
    case At(start) => start
    case After(_, _, y) => y
  }

  ghost predicate IsSRun(r: SRun) {
    match r
    case At(start) => Start(start)
    case After(prev, step, y) => IsSRun(prev) && SNext(Now(prev), step, y)
  }

  lemma StartInv(y: Sys)
    requires Start(y)
    ensures SInv(y)
  {
    StartKernel(y.k);
  }

  /** The joint invariant holds in every reachable state. */
  lemma {:induction false} SRunInv(r: SRun)
    requires IsSRun(r)
    ensures SInv(Now(r))
  {
    match r
    case At(start) => StartInv(start);
    case After(prev, step, y) =>
      SRunInv(prev);
      SStepInv(Now(prev), step, y);
  }

  // ------------------------------------------------------------ exactly once --

  /** What one step may do to a Fence: nothing, or make it ready, and then it is the pump of the
      submitting Stream, with the status posted for that command. */
  ghost predicate FenceMoves(y: Sys, step: SStep, y': Sys, id: nat)
    requires id in y.fences
  {
    && id in y'.fences
    && (y'.fences[id] != y.fences[id] ==>
          && !y.fences[id].ready && y'.fences[id].ready
          && step.Pump? && id in y.submitter && y.submitter[id] == step.s
          && id in y.k.posted && y'.fences[id].status == y.k.posted[id])
  }

  lemma PumpFenceMoves(y: Sys, s: SessId, n: nat, y': Sys, id: nat)
    requires UserSide(y) && RingsGenuine(y.k.core.table, y.k.posted, y.k.core.rings)
    requires SNext(y, Pump(s, n), y') && id in y.fences
    ensures FenceMoves(y, Pump(s, n), y', id)
  {
    var ring := y.k.core.rings[s];
    assert RingGenuine(y.k.core.table, y.k.posted, ring);
    CompIdsSplit(ring, n);
    PumpMeaning(ring[..n], y.streams[s].outstanding, y.fences);
    if y'.fences[id] != y.fences[id] {
      var j :| 0 <= j < n && ring[..n][j].id == id;
      assert ring[j].id == id;
    }
  }

  lemma BookFenceMoves(y: Sys, s: SessId, y': Sys, id: nat)
    requires UserSide(y) && SNext(y, Book(s), y') && id in y.fences
    ensures FenceMoves(y, Book(s), y', id)
  {
    assert StreamOk(FlightIds(y.k.core.table, s), y.k.core.rings[s], y.fences, y.streams[s]);
  }

  lemma OtherFenceMoves(y: Sys, step: SStep, y': Sys, id: nat)
    requires SNext(y, step, y') && !step.Pump? && !step.Book? && id in y.fences
    ensures FenceMoves(y, step, y', id)
  {
  }

  lemma FenceStep(y: Sys, step: SStep, y': Sys, id: nat)
    requires SInv(y) && SNext(y, step, y') && id in y.fences
    ensures FenceMoves(y, step, y', id)
  {
    match step
    case Pump(s, n) => PumpFenceMoves(y, s, n, y', id);
    case Book(s) => BookFenceMoves(y, s, y', id);
    case _ => OtherFenceMoves(y, step, y', id);
  }

  /** A status is posted for a command at most once and never changes. */
  lemma PostedStep(y: Sys, step: SStep, y': Sys, id: nat)
    requires PostedOnce(y.k.core.nextId, y.k.sq, y.k.executing, y.k.cq, y.k.posted)
    requires SNext(y, step, y') && id in y.k.posted
    ensures id in y'.k.posted && y'.k.posted[id] == y.k.posted[id]
  {
  }

  ghost predicate Continues(r: SRun, r': SRun) {
    r == r' || (r'.After? && Continues(r, r'.prev))
  }

  /** Exactly once, over whole runs: a Fence that is ready stays ready with its status, which is
      the one posted for its own command, whatever all Streams do afterwards. */
  lemma {:induction false} FenceReadyOnce(r: SRun, r': SRun, id: nat)
    requires IsSRun(r') && Continues(r, r') && id in Now(r).fences
    ensures IsSRun(r) && id in Now(r').fences
    ensures Now(r).fences[id].ready ==>
              && Now(r').fences[id] == Now(r).fences[id]
              && id in Now(r').k.posted && Now(r').k.posted[id] == Now(r).fences[id].status
  {
    SRunInv(r');
    if r != r' {
      FenceReadyOnce(r, r'.prev, id);
      SRunInv(r'.prev);
      FenceStep(Now(r'.prev), r'.step, r'.y, id);
    }
  }

  // -------------------------------------------------- throttle meets the driver --

  /** For every Stream: in flight plus unread equals what it waits for, which is exactly the
      not-ready part of its submission order (plus the command whose SUBMIT is in progress),
      and never exceeds the ring depth. */
  lemma ThrottleMeetsDriver(r: SRun, s: SessId)
    requires IsSRun(r) && s in Now(r).streams
    ensures var y := Now(r); var st, core := y.streams[s], y.k.core;
            && s in core.inflight && s in core.rings
            && core.inflight[s] + |core.rings[s]| == |st.outstanding| + (if st.ioctl.Some? then 1 else 0)
            && core.inflight[s] + |core.rings[s]| <= QUEUE_DEPTH
            && (forall id :: id in st.outstanding <==> id in st.order && id in y.fences && !y.fences[id].ready)
  {
    SRunInv(r);
    var y := Now(r);
    StreamCounts(y.k.core, y.k.posted, y.fences, y.streams[s], s);
  }

  /** The drop-oldest branch of the interrupt handler is unreachable, also while closing. */
  lemma NothingDropped(r: SRun)
    requires IsSRun(r) && Now(r).k.cq != []
    ensures |Now(r).k.hw.cqBuf| == QUEUE_DEPTH
    ensures var k := Now(r).k; var c := k.hw.cqBuf[k.hw.cqHead % QUEUE_DEPTH];
            && FindId(k.core.table, c.id, 0).Some?
            && var s := k.core.table[FindId(k.core.table, c.id, 0).value].sess;
               s in k.core.rings && |k.core.rings[s]| < COMP_RING_SIZE
  {
    SRunInv(r);
    var y := Now(r);
    HeadIsKnown(y.k);
    var s := y.k.core.table[FindId(y.k.core.table, y.k.cq[0].id, 0).value].sess;
    InflightCount(y.k.core, s);
  }

  /** A pump never meets an id it does not know, and one short read drains the ring. */
  lemma PumpKnowsEveryId(r: SRun, s: SessId, j: nat)
    requires IsSRun(r) && BetweenCalls(Now(r), s)
    ensures s in Now(r).k.core.rings && |Now(r).k.core.rings[s]| < PUMP_BATCH
    ensures j < |Now(r).k.core.rings[s]| ==> Now(r).k.core.rings[s][j].id in Now(r).streams[s].outstanding
  {
    SRunInv(r);
    ThrottleMeetsDriver(r, s);
    var y := Now(r);
    InflightCount(y.k.core, s);
    if j < |y.k.core.rings[s]| { assert y.k.core.rings[s][j].id in CompIds(y.k.core.rings[s]); }
  }

  /** A lone Stream is never refused once the commands of closed sessions have drained: its own
      throttle keeps it below the driver's limits. */
  lemma LoneStreamNeverBlocks(r: SRun, s: SessId)
    requires IsSRun(r) && BetweenCalls(Now(r), s) && |Now(r).streams[s].order| < QUEUE_DEPTH
    requires forall u :: u in Now(r).streams ==> u == s
    requires forall u :: u in Now(r).k.core.inflight && u != s ==> Now(r).k.core.inflight[u] == 0
    ensures s in Now(r).k.core.inflight && AdmissionOk(Now(r).k.core, s) && FirstFree(Now(r).k.core.table, 0).Some?
  {
    SRunInv(r);
    var y := Now(r);
    StreamCounts(y.k.core, y.k.posted, y.fences, y.streams[s], s);
    OnlyOpen(y.k.core.closing, y.streams, s);
    LoneSessionAdmitted(y.k.core, s);
  }

  lemma OnlyOpen(closing: map<SessId, bool>, streams: map<SessId, Stream>, s: SessId)
    requires OneStreamPerSession(closing, streams) && s in streams && forall u :: u in streams ==> u == s
    ensures OpenSessions(closing) == {s}
  {
  }

  lemma LoneSessionAdmitted(st: State, s: SessId)
    requires Inv(st) && Quiet(st) && s in st.inflight && OpenSessions(st.closing) == {s}
    requires st.inflight[s] < QUEUE_DEPTH
    requires forall u :: u in st.inflight && u != s ==> st.inflight[u] == 0
    ensures AdmissionOk(st, s) && FirstFree(st.table, 0).Some?
  {
    QuotaMeaning(st.active);
    OnlySession(st, s);
    assert RegisteredAll(st.ops) == {};
    SlotScanSucceeds(st);
  }

  lemma OnlySession(st: State, s: SessId)
    requires Inv(st) && Quiet(st) && s in st.inflight
    requires forall u :: u in st.inflight && u != s ==> st.inflight[u] == 0
    ensures st.total == st.inflight[s]
  {
    assert RegisteredAll(st.ops) == {};
    forall i | i in ValidAll(st.table) ensures i in ValidOf(st.table, s) {
      var u := st.table[i].sess;
      assert AccountedFor(st.inflight[u], st.table, st.ops, st.isr, u);
      assert i in ValidOf(st.table, u);
    }
    assert ValidAll(st.table) == ValidOf(st.table, s);
    assert AccountedFor(st.inflight[s], st.table, st.ops, st.isr, s);
    assert RegisteredOf(st.ops, s) == {};
  }

  // -------------------------------------------------------- submission order --

  /** The window is in submission order: ids are handed out in increasing order, and the
      command whose SUBMIT is in progress is newer than everything in the window. */
  ghost predicate Ascending(st: Stream) {
    && (forall a, b :: 0 <= a < b < |st.order| ==> st.order[a] < st.order[b])
    && (st.ioctl.Some? ==> forall j :: 0 <= j < |st.order| ==> st.order[j] < st.ioctl.value)
  }

  lemma StepAscending(y: Sys, step: SStep, y': Sys, s: SessId)
    requires StreamsOwned(y.streams, y.submitter) && (forall id :: id in y.submitter ==> id <= y.k.core.nextId)
    requires SNext(y, step, y') && s in y'.streams && (s in y.streams ==> Ascending(y.streams[s]))
    ensures Ascending(y'.streams[s])
  {
    match step
    case Ioctl(u, desc) => IoctlAscending(y, u, desc, y', s);
    case _ =>
  }

  lemma IoctlAscending(y: Sys, u: SessId, desc: Descriptor, y': Sys, s: SessId)
    requires StreamsOwned(y.streams, y.submitter) && (forall id :: id in y.submitter ==> id <= y.k.core.nextId)
    requires SNext(y, Ioctl(u, desc), y') && s in y.streams && Ascending(y.streams[s])
    ensures s in y'.streams && Ascending(y'.streams[s])
  {
  }

  /** Over every run each Stream's window is in submission order, so the entry that the throttle
      waits for and removes is the oldest one. */
  lemma {:induction false} OldestFirst(r: SRun, s: SessId)
    requires IsSRun(r) && s in Now(r).streams
    ensures Ascending(Now(r).streams[s])
    ensures forall j :: 0 < j < |Now(r).streams[s].order| ==> Now(r).streams[s].order[0] < Now(r).streams[s].order[j]
  {
    if r.After? {
      SRunInv(r.prev);
      if s in Now(r.prev).streams { OldestFirst(r.prev, s); }
      StepAscending(Now(r.prev), r.step, r.y, s);
    }
  }

  // ------------------------------------------------------------------- kernel --

  /** The run of the kernel inside a run of the system. */
  ghost function KernelOf(r: SRun): KRun {
    match r
    case At(start) => KAt(start.k)
    case After(prev, step, y) =>
      match KernelStep(step)
      case None => KernelOf(prev)
      case Some(kstep) => KAfter(KernelOf(prev), kstep, y.k)
  }

  /** Streams are one way to use the kernel, so what holds over its runs (`RingsSafe`,
      `PendingIsBacked`) holds here. */
  lemma {:induction false} KernelRunInside(r: SRun)
    requires IsSRun(r)
    ensures IsKRun(KernelOf(r)) && KNow(KernelOf(r)) == Now(r).k
  {
    match r
    case At(_) =>
    case After(prev, step, y) =>
      KernelRunInside(prev);
      KernelStepTaken(Now(prev), step, y);
  }

  /** The device never touches memory that is not allocated to the submitting session: this
      covers a descriptor from the moment it is queued until its completion is routed. */
  lemma DeviceTouchesLiveMemory(r: SRun, id: nat)
    requires IsSRun(r)
    requires Queued(Now(r).k.sq, id) || id in Now(r).k.executing || Completed(Now(r).k.cq, id)
    ensures var y := Now(r);
            id in y.submitter && id in y.k.core.issued && DescBacked(y.k.core.buffers, y.submitter[id], y.k.core.issued[id])
    ensures id in Now(r).k.executing ==> Now(r).k.executing[id] == Now(r).k.core.issued[id]
  {
    SRunInv(r);
    var core := Now(r).k.core;
    assert InTable(core.table, id);
    var i :| 0 <= i < |core.table| && core.table[i].valid && core.table[i].id == id;
  }
}
