/**
 Driver and device together, with serialised submission: admitting a command and writing its
 descriptor is one step, routing one completion is one step.  (The ring tail is updated
 without a lock, so the ring properties hold at this grain only.)

 The device fetches descriptors in ring order and later posts one completion for each, in any
 order.  `sq` and `cq` are the unbounded queues that the 16-slot rings stand for; what the
 device fetches and what the driver routes is read from the rings.
 */
module SerialDriver {
  import opened Basics
  import opened DriverCore
  import opened DriverInvariants
  import Rings

  /** The two rings in shared memory with their 32-bit counters. */
  datatype Hw = Hw(
    sqBuf: seq<Descriptor>, sqHead: nat, sqTail: nat,
    cqBuf: seq<Completion>, cqHead: nat, cqTail: nat)

  datatype Kernel = Kernel(
    core: State,
    hw: Hw,
    sq: seq<Descriptor>,
    executing: map<nat, Descriptor>,
    cq: seq<Completion>,
    posted: map<nat, nat>)

  // ----------------------------------------------------------- serial steps --

  /** Admission and registration in one step. */
  function SubmitCore(st: State, s: SessId, desc: Descriptor): State
    requires s in st.inflight && FirstFree(st.table, 0).Some?
  {
    st.(table := st.table[FirstFree(st.table, 0).value := CmdCtx(true, desc.id, s)],
        inflight := st.inflight[s := st.inflight[s] + 1],
        total := st.total + 1,
        nextId := desc.id,
        issued := st.issued[desc.id := desc])
  }

  /** The state after a SUBMIT that passed validation and was interrupted while it waited for
      admission: its id is used up. */
  function IdSpent(st: State, desc: Descriptor): State {
    st.(nextId := desc.id, issued := st.issued[desc.id := desc])
  }

  /** Routing one completion in one step; an unknown id is dropped. */
  function RouteCore(st: State, comp: Completion): State
    requires FindId(st.table, comp.id, 0).Some? ==>
               var s := st.table[FindId(st.table, comp.id, 0).value].sess; s in st.rings && s in st.inflight
  {
    match FindId(st.table, comp.id, 0)
    case None => st
    case Some(i) =>
      var s := st.table[i].sess;
      st.(table := st.table[i := st.table[i].(valid := false)],
          rings := st.rings[s := PushRing(st.rings[s], comp)],
          inflight := st.inflight[s := st.inflight[s] - 1],
          total := st.total - 1)
  }

  predicate Quiet(st: State) {
    st.ops == map[] && st.isr.Idle?
  }

  lemma StartedIsFineRun(st: State, s: SessId, desc: Descriptor)
    requires Quiet(st) && IsOpen(st, s) && s in st.inflight && AdmissionOk(st, s) && FirstFree(st.table, 0).Some?
    ensures exists b, c, d ::
              && Next(StartOp(st, 0, s, desc), ReadQuota(0), b) && Next(b, Register(0), c)
              && Next(c, Count(0), d) && Next(d, Enqueue(0), SubmitCore(st, s, desc))
  {
    var a := StartOp(st, 0, s, desc);
    var b := DoReadQuota(a, 0);
    var c := DoRegister(b, 0);
    var d := DoCount(c, 0);
    assert Next(a, ReadQuota(0), b);
    assert Next(b, Register(0), c);
    assert Next(c, Count(0), d);
    assert DoEndOp(d, 0).ops == map[];
    assert DoEndOp(d, 0) == SubmitCore(st, s, desc);
    assert Next(d, Enqueue(0), SubmitCore(st, s, desc));
  }

  /** The serial submit is the fine-grained submit of one thread run without interruption. */
  lemma SubmitIsFineRun(st: State, s: SessId, req: Request)
    requires Quiet(st) && IsOpen(st, s) && s in st.inflight && AdmissionOk(st, s) && FirstFree(st.table, 0).Some?
    requires Validate(st.buffers, s, req, st.nextId + 1).Ok?
    ensures var desc := Validate(st.buffers, s, req, st.nextId + 1).desc;
            exists a, b, c, d ::
              && Next(st, Begin(0, s, req), a) && Next(a, ReadQuota(0), b) && Next(b, Register(0), c)
              && Next(c, Count(0), d) && Next(d, Enqueue(0), SubmitCore(st, s, desc))
  {
    var desc := Validate(st.buffers, s, req, st.nextId + 1).desc;
    assert Next(st, Begin(0, s, req), StartOp(st, 0, s, desc));
    StartedIsFineRun(st, s, desc);
  }

  lemma RouteIsFineRun(st: State, comp: Completion)
    requires Quiet(st) && FindId(st.table, comp.id, 0).Some?
    requires var s := st.table[FindId(st.table, comp.id, 0).value].sess; s in st.rings && s in st.inflight
    ensures exists a, b :: Next(st, IsrClaim(comp), a) && Next(a, IsrDeliver, b) && Next(b, IsrUncount, RouteCore(st, comp))
  {
    var a := DoClaim(st, comp);
    var b := DoDeliver(a);
    assert Next(st, IsrClaim(comp), a);
    assert Next(a, IsrDeliver, b);
    assert Next(b, IsrUncount, DoUncount(b));
    assert DoUncount(b) == RouteCore(st, comp);
  }

  datatype KStep =
    | Session(step: Step)
    | ReadSome(s: SessId, n: nat)
    | Submit(s: SessId, desc: Descriptor)
    | Interrupted(s: SessId, desc: Descriptor)
    | Fetch
    | Post(id: nat, status: nat)
    | Route

  /** The descriptor is any that validation lets through (`ValidatedIsBacked`): its ranges lie
      in buffers of the session. */
  ghost predicate PassedChecks(k: Kernel, s: SessId, desc: Descriptor) {
    IsOpen(k.core, s) && DescBacked(k.core.buffers, s, desc) && desc.id == k.core.nextId + 1
  }

  ghost predicate CanSubmit(k: Kernel, s: SessId, desc: Descriptor) {
    PassedChecks(k, s, desc) && s in k.core.inflight && AdmissionOk(k.core, s) && FirstFree(k.core.table, 0).Some?
  }

  /** The descriptor goes to the slot of the tail counter, whatever is there. */
  function Enqueued(hw: Hw, d: Descriptor): Hw
    requires |hw.sqBuf| == QUEUE_DEPTH
  {
    hw.(sqBuf := hw.sqBuf[hw.sqTail % QUEUE_DEPTH := d], sqTail := (hw.sqTail + 1) % Rings.U32)
  }

  function DoSubmit(k: Kernel, s: SessId, desc: Descriptor): Kernel
    requires |k.hw.sqBuf| == QUEUE_DEPTH && s in k.core.inflight && FirstFree(k.core.table, 0).Some?
  {
    k.(core := SubmitCore(k.core, s, desc), hw := Enqueued(k.hw, desc), sq := k.sq + [desc])
  }

  predicate CanFetch(k: Kernel) {
    |k.hw.sqBuf| == QUEUE_DEPTH && k.hw.sqHead != k.hw.sqTail && k.sq != []
  }

  function DoFetch(k: Kernel): Kernel
    requires CanFetch(k)
  {
    var d := k.hw.sqBuf[k.hw.sqHead % QUEUE_DEPTH];
    k.(hw := k.hw.(sqHead := (k.hw.sqHead + 1) % Rings.U32),
       sq := k.sq[1..],
       executing := k.executing[d.id := d])
  }

  predicate CanPost(k: Kernel, id: nat) {
    |k.hw.cqBuf| == QUEUE_DEPTH && id in k.executing
  }

  function DoPost(k: Kernel, id: nat, status: nat): Kernel
    requires CanPost(k, id)
  {
    var c := Completion(id, status);
    k.(hw := k.hw.(cqBuf := k.hw.cqBuf[k.hw.cqTail % QUEUE_DEPTH := c], cqTail := (k.hw.cqTail + 1) % Rings.U32),
       executing := k.executing - {id},
       cq := k.cq + [c],
       posted := k.posted[id := status])
  }

  predicate CanRoute(k: Kernel) {
    && |k.hw.cqBuf| == QUEUE_DEPTH && k.hw.cqHead != k.hw.cqTail && k.cq != []
    && var comp := k.hw.cqBuf[k.hw.cqHead % QUEUE_DEPTH];
       FindId(k.core.table, comp.id, 0).Some? ==>
         var s := k.core.table[FindId(k.core.table, comp.id, 0).value].sess; s in k.core.rings && s in k.core.inflight
  }

  function DoRoute(k: Kernel): Kernel
    requires CanRoute(k)
  {
    k.(core := RouteCore(k.core, k.hw.cqBuf[k.hw.cqHead % QUEUE_DEPTH]),
       hw := k.hw.(cqHead := (k.hw.cqHead + 1) % Rings.U32),
       cq := k.cq[1..])
  }

  predicate CanReadSome(st: State, s: SessId, n: nat) {
    IsOpen(st, s) && s in st.rings && 0 < n <= |st.rings[s]|
  }

  function DoReadSome(st: State, s: SessId, n: nat): State
    requires CanReadSome(st, s, n)
  {
    st.(rings := st.rings[s := st.rings[s][n..]])
  }

  /** `n` fine-grained reads, one after the other. */
  function ReadTimes(st: State, s: SessId, n: nat): State
    requires CanReadTimes(st, s, n)
    decreases n
  {
    if n == 0 then st else ReadTimes(DoRead(st, s), s, n - 1)
  }

  predicate CanReadTimes(st: State, s: SessId, n: nat)
    decreases n
  {
    n > 0 ==> CanRead(st, s) && CanReadTimes(DoRead(st, s), s, n - 1)
  }

  /** The serial read of `n` completions is `n` fine-grained reads, each taking the oldest. */
  lemma {:induction false} ReadIsFineRun(st: State, s: SessId, n: nat)
    requires IsOpen(st, s) && s in st.rings && n <= |st.rings[s]|
    ensures CanReadTimes(st, s, n) && ReadTimes(st, s, n) == st.(rings := st.rings[s := st.rings[s][n..]])
    decreases n
  {
    if n > 0 {
      var st1 := DoRead(st, s);
      ReadIsFineRun(st1, s, n - 1);
      assert st1.rings[s] == st.rings[s][1..] && st.rings[s][1..][n - 1..] == st.rings[s][n..];
      assert st1.rings[s := st.rings[s][n..]] == st.rings[s := st.rings[s][n..]];
    } else {
      assert st.rings[s := st.rings[s][0..]] == st.rings;
    }
  }

  predicate IsSessionStep(step: Step) {
    step.Open? || step.BufferAlloc? || step.CloseBegin? || step.CloseFinish?
  }

  ghost predicate KNext(k: Kernel, step: KStep, k': Kernel) {
    match step
    case Session(st) => IsSessionStep(st) && Next(k.core, st, k'.core) && k' == k.(core := k'.core)
    case ReadSome(s, n) => CanReadSome(k.core, s, n) && k' == k.(core := DoReadSome(k.core, s, n))
    case Submit(s, desc) => CanSubmit(k, s, desc) && |k.hw.sqBuf| == QUEUE_DEPTH && k' == DoSubmit(k, s, desc)
    case Interrupted(s, desc) => PassedChecks(k, s, desc) && k' == k.(core := IdSpent(k.core, desc))
    case Fetch => CanFetch(k) && k' == DoFetch(k)
    case Post(id, status) => CanPost(k, id) && k' == DoPost(k, id, status)
    case Route => CanRoute(k) && k' == DoRoute(k)
  }

  // -------------------------------------------------------------- invariant --

  ghost predicate InTable(table: seq<CmdCtx>, id: nat) {
    exists i :: 0 <= i < |table| && table[i].valid && table[i].id == id
  }

  ghost predicate Queued(sq: seq<Descriptor>, id: nat) {
    exists k :: 0 <= k < |sq| && sq[k].id == id
  }

  ghost predicate Completed(cq: seq<Completion>, id: nat) {
    exists k :: 0 <= k < |cq| && cq[k].id == id
  }

  ghost predicate DistinctDescs(sq: seq<Descriptor>) {
    forall a, b :: 0 <= a < b < |sq| ==> sq[a].id != sq[b].id
  }

  ghost predicate DistinctComps(cq: seq<Completion>) {
    forall a, b :: 0 <= a < b < |cq| ==> cq[a].id != cq[b].id
  }

  /** Every table entry is for a command that is in exactly one place: waiting in the
      submission queue, executing, or completed and waiting in the completion queue; and every
      command in one of these places has its entry. */
  ghost predicate Placed(table: seq<CmdCtx>, sq: seq<Descriptor>, executing: map<nat, Descriptor>, cq: seq<Completion>) {
    && (forall id :: InTable(table, id) <==> Queued(sq, id) || id in executing || Completed(cq, id))
    && (forall id :: Queued(sq, id) ==> id !in executing)
    && DistinctDescs(sq) && DistinctComps(cq)
  }

  /** What the device works on is what was validated. */
  ghost predicate Genuine(issued: map<nat, Descriptor>, sq: seq<Descriptor>, executing: map<nat, Descriptor>) {
    && (forall k :: 0 <= k < |sq| ==> sq[k].id in issued && issued[sq[k].id] == sq[k])
    && (forall id :: id in executing ==> id in issued && issued[id] == executing[id])
  }

  /** A command has a posted status from its completion on, and only then. */
  ghost predicate PostedOnce(nextId: nat, sq: seq<Descriptor>, executing: map<nat, Descriptor>, cq: seq<Completion>,
                             posted: map<nat, nat>)
  {
    && (forall id :: Queued(sq, id) || id in executing ==> id !in posted)
    && (forall k :: 0 <= k < |cq| ==> cq[k].id in posted && posted[cq[k].id] == cq[k].status)
    && (forall id :: id in posted ==> id <= nextId)
  }

  /** Unread completions are for commands that are done, with their status, each once. */
  ghost predicate RingGenuine(table: seq<CmdCtx>, posted: map<nat, nat>, ring: seq<Completion>) {
    && DistinctComps(ring)
    && (forall k :: 0 <= k < |ring| ==>
          ring[k].id in posted && posted[ring[k].id] == ring[k].status && !InTable(table, ring[k].id))
  }

  ghost predicate RingsGenuine(table: seq<CmdCtx>, posted: map<nat, nat>, rings: map<SessId, seq<Completion>>) {
    forall s :: s in rings ==> RingGenuine(table, posted, rings[s])
  }

  ghost predicate RingsHold(hw: Hw, sq: seq<Descriptor>, cq: seq<Completion>) {
    && |hw.sqBuf| == QUEUE_DEPTH && |hw.cqBuf| == QUEUE_DEPTH
    && Rings.Holds(hw.sqBuf, hw.sqHead, hw.sqTail, sq)
    && Rings.Holds(hw.cqBuf, hw.cqHead, hw.cqTail, cq)
  }

  ghost predicate Bounded(k: Kernel) {
    |k.sq| + |k.executing| + |k.cq| == k.core.total <= QUEUE_DEPTH
  }

  ghost predicate Flow(k: Kernel) {
    && Placed(k.core.table, k.sq, k.executing, k.cq)
    && Genuine(k.core.issued, k.sq, k.executing)
    && PostedOnce(k.core.nextId, k.sq, k.executing, k.cq, k.posted)
    && RingsGenuine(k.core.table, k.posted, k.core.rings)
  }

  ghost predicate KInv(k: Kernel) {
    && Inv(k.core) && Quiet(k.core)
    && RingsHold(k.hw, k.sq, k.cq)
    && Bounded(k)
    && Flow(k)
  }

  // ------------------------------------------------- the core stays invariant --

  lemma SubmitCoreInv(st: State, s: SessId, desc: Descriptor)
    requires Inv(st) && Quiet(st) && IsOpen(st, s) && s in st.inflight && AdmissionOk(st, s) && FirstFree(st.table, 0).Some?
    requires DescBacked(st.buffers, s, desc) && desc.id == st.nextId + 1
    ensures Inv(SubmitCore(st, s, desc)) && Quiet(SubmitCore(st, s, desc))
  {
    StartOpRouting(st, 0, s, desc);
    StartOpOwnership(st, 0, s, desc);
    StartedIsFineRun(st, s, desc);
    var b, c, d :|
      && Next(StartOp(st, 0, s, desc), ReadQuota(0), b) && Next(b, Register(0), c)
      && Next(c, Count(0), d) && Next(d, Enqueue(0), SubmitCore(st, s, desc));
    StepInv(StartOp(st, 0, s, desc), ReadQuota(0), b);
    StepInv(b, Register(0), c);
    StepInv(c, Count(0), d);
    StepInv(d, Enqueue(0), SubmitCore(st, s, desc));
  }

  lemma RouteCoreInv(st: State, comp: Completion)
    requires Inv(st) && Quiet(st) && FindId(st.table, comp.id, 0).Some?
    ensures var s := st.table[FindId(st.table, comp.id, 0).value].sess; s in st.rings && s in st.inflight
    ensures Inv(RouteCore(st, comp))
  {
    RouteIsFineRun(st, comp);
    var a, b :| Next(st, IsrClaim(comp), a) && Next(a, IsrDeliver, b) && Next(b, IsrUncount, RouteCore(st, comp));
    StepInv(st, IsrClaim(comp), a);
    StepInv(a, IsrDeliver, b);
    StepInv(b, IsrUncount, RouteCore(st, comp));
  }
}
