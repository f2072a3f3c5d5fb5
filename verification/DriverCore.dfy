/**
 The kernel driver's shared state and its atomic steps, at the grain at which other CPUs can
 observe it: a submit registers under the command lock and is counted only after the unlock,
 and the interrupt handler claims, delivers and uncounts one completion in three steps.

 The device may post any completion at any time here, including for ids it was never given or
 has completed before: what this module proves does not rely on the device.
 */
module DriverCore {
  import opened Basics

  const QUEUE_DEPTH := 16
  const COMP_RING_SIZE := 64
  const MAX_BUFFERS := 64
  const MAX_INFLIGHT_CMDS := COMP_RING_SIZE
  const DEFAULT_BUFFER_QUOTA := MAX_BUFFERS / 4
  const BUFFER_ALLOC_MAX := 16 * 1024 * 1024
  const PAGE_SIZE := 4096

  const OPCODE_SCALE_ADD := 1
  const OPCODE_TILE_MATMUL := 2

  /** A session is named by its address, which the allocator may hand out again after a free. */
  type SessId = nat
  type ThreadId = nat

  datatype Completion = Completion(id: nat, status: nat)

  /** The SUBMIT request as user space fills it in. */
  datatype Request = Request(
    opcode: nat, len: nat,
    srcBuf: nat, srcOff: nat, dstBuf: nat, dstOff: nat, src2Buf: nat, src2Off: nat)

  /** The descriptor as the device sees it, with resolved bus addresses. */
  datatype Descriptor = Descriptor(id: nat, opcode: nat, len: nat, src: nat, dst: nat, src2: nat)

  datatype CmdCtx = CmdCtx(valid: bool, id: nat, sess: SessId)

  datatype BufEntry = BufEntry(inUse: bool, owner: SessId, base: nat, size: nat)

  datatype Phase = Validated | QuotaRead(quota: nat) | Registered | Counted

  /** A SUBMIT ioctl in progress. */
  datatype Op = Op(sess: SessId, desc: Descriptor, phase: Phase)

  /** Where the interrupt handler is with its current completion. */
  datatype Isr = Idle | Claimed(comp: Completion, owner: SessId) | Delivered(owner: SessId)

  /** The device structure.  The fields of the sessions are kept as one map per field, all with
      the live sessions as domain: `closing`, `inflight`, `owned` (the buffer bitmap) and
      `rings` (the unread completions).  `issued` records the descriptor of each command id. */
  datatype State = State(
    closing: map<SessId, bool>,
    inflight: map<SessId, int>,
    owned: map<SessId, set<nat>>,
    rings: map<SessId, seq<Completion>>,
    table: seq<CmdCtx>,
    total: int,
    active: int,
    buffers: seq<BufEntry>,
    nextId: nat,
    ops: map<ThreadId, Op>,
    isr: Isr,
    issued: map<nat, Descriptor>)

  const FreeEntry := CmdCtx(false, 0, 0)
  const FreeBuffer := BufEntry(false, 0, 0, 0)

  /** After probe: nothing open, nothing in flight. */
  function Initial(): State {
    State(map[], map[], map[], map[],
          seq(MAX_INFLIGHT_CMDS, i => FreeEntry), 0, 0,
          seq(MAX_BUFFERS, i => FreeBuffer), 1, map[], Idle, map[])
  }

  // -------------------------------------------------------------- validation --

  predicate NeedsSrc2(opcode: nat) {
    opcode == OPCODE_SCALE_ADD || opcode == OPCODE_TILE_MATMUL
  }

  datatype Check = Ok(desc: Descriptor) | InvalidArgument | NotPermitted

  predicate InUse(buffers: seq<BufEntry>, i: nat) {
    i < |buffers| && buffers[i].inUse
  }

  /** The buffer checks of SUBMIT, in the order in which they decide the error code. */
  function Validate(buffers: seq<BufEntry>, s: SessId, r: Request, id: nat): Check {
    if !InUse(buffers, r.srcBuf) || !InUse(buffers, r.dstBuf) then InvalidArgument
    else if buffers[r.srcBuf].owner != s || buffers[r.dstBuf].owner != s then NotPermitted
    else if r.srcOff + r.len > buffers[r.srcBuf].size || r.dstOff + r.len > buffers[r.dstBuf].size
    then InvalidArgument
    else
      var src, dst := buffers[r.srcBuf].base + r.srcOff, buffers[r.dstBuf].base + r.dstOff;
      if !NeedsSrc2(r.opcode) then Ok(Descriptor(id, r.opcode, r.len, src, dst, 0))
      else if !InUse(buffers, r.src2Buf) then InvalidArgument
      else if buffers[r.src2Buf].owner != s then NotPermitted
      else if r.src2Off + r.len > buffers[r.src2Buf].size then InvalidArgument
      else Ok(Descriptor(id, r.opcode, r.len, src, dst, buffers[r.src2Buf].base + r.src2Off))
  }

  /** Slot `buf` is in use by session `s` and has room for `len` bytes at `off`. */
  predicate Covers(buffers: seq<BufEntry>, s: SessId, buf: nat, off: nat, len: nat) {
    buf < |buffers| && buffers[buf].inUse && buffers[buf].owner == s && off + len <= buffers[buf].size
  }

  /** A request the driver lets through: source and destination, and for SCALE_ADD and
      TILE_MATMUL the second source, are ranges of the session's own buffers. */
  predicate ValidRequest(buffers: seq<BufEntry>, s: SessId, r: Request) {
    && Covers(buffers, s, r.srcBuf, r.srcOff, r.len)
    && Covers(buffers, s, r.dstBuf, r.dstOff, r.len)
    && (r.opcode == 1 || r.opcode == 2 ==> Covers(buffers, s, r.src2Buf, r.src2Off, r.len))
  }

  /** The descriptor asks for what was requested, at the bus addresses of the named slots. */
  predicate NamesRequest(buffers: seq<BufEntry>, r: Request, d: Descriptor) {
    && d.opcode == r.opcode && d.len == r.len
    && r.srcBuf < |buffers| && d.src == buffers[r.srcBuf].base + r.srcOff
    && r.dstBuf < |buffers| && d.dst == buffers[r.dstBuf].base + r.dstOff
    && (if r.opcode == 1 || r.opcode == 2
        then r.src2Buf < |buffers| && d.src2 == buffers[r.src2Buf].base + r.src2Off
        else d.src2 == 0)
  }

  /** The slots exist and are in use, but one of them is somebody else's. */
  predicate Foreign(buffers: seq<BufEntry>, s: SessId, slots: set<nat>) {
    && (forall b :: b in slots ==> b < |buffers| && buffers[b].inUse)
    && (exists b :: b in slots && buffers[b].owner != s)
  }

  /** What validation decides, for every request: it succeeds exactly for valid requests and
      then names exactly the requested ranges; it fails with EPERM exactly when ownership is the
      first check that is not met, and otherwise with EINVAL. */
  lemma ValidateMeaning(buffers: seq<BufEntry>, s: SessId, r: Request, id: nat)
    ensures var c := Validate(buffers, s, r, id);
            && (c.Ok? <==> ValidRequest(buffers, s, r))
            && (c.Ok? ==> NamesRequest(buffers, r, c.desc) && c.desc.id == id)
            && (c.NotPermitted? <==>
                  || Foreign(buffers, s, {r.srcBuf, r.dstBuf})
                  || (&& Covers(buffers, s, r.srcBuf, r.srcOff, r.len) && Covers(buffers, s, r.dstBuf, r.dstOff, r.len)
                      && (r.opcode == 1 || r.opcode == 2) && Foreign(buffers, s, {r.src2Buf})))
  {
    ForeignPair(buffers, s, r.srcBuf, r.dstBuf);
    ForeignPair(buffers, s, r.src2Buf, r.src2Buf);
    assert {r.src2Buf} == {r.src2Buf, r.src2Buf};
  }

  lemma ForeignPair(buffers: seq<BufEntry>, s: SessId, a: nat, b: nat)
    ensures Foreign(buffers, s, {a, b}) <==>
              && a < |buffers| && buffers[a].inUse && b < |buffers| && buffers[b].inUse
              && (buffers[a].owner != s || buffers[b].owner != s)
  {
    assert a in {a, b} && b in {a, b};
  }

  // --------------------------------------------------------------- admission --

  /** DIV_ROUND_UP(16, max(active, 1)). */
  function Quota(active: int): nat {
    var a := if active < 1 then 1 else active;
    (QUEUE_DEPTH + a - 1) / a
  }

  /** The fair share is never zero, never more than the ring, and is the least number of
      slots per session with which the open sessions can fill the ring. */
  lemma QuotaMeaning(active: int)
    ensures 1 <= Quota(active) <= QUEUE_DEPTH
    ensures var a := if active < 1 then 1 else active;
            (Quota(active) - 1) * a < QUEUE_DEPTH <= Quota(active) * a
    ensures active <= 1 ==> Quota(active) == QUEUE_DEPTH
  {
    var a := if active < 1 then 1 else active;
    var q := Quota(active);
    assert q * a <= QUEUE_DEPTH + a - 1 < q * a + a;
    assert (q - 1) * a == q * a - a;
  }

  lemma QuotaShrinks(a: int, b: int)
    requires a <= b
    ensures Quota(b) <= Quota(a)
  {
    var x, y := if a < 1 then 1 else a, if b < 1 then 1 else b;
    var p, q := Quota(a), Quota(b);
    QuotaMeaning(a);
    QuotaMeaning(b);
    // (q - 1) * x <= (q - 1) * y < 16 <= p * x
    assert (q - 1) * x <= (q - 1) * y by { MulMonotone(q - 1, x, y); }
    if q > p { MulMonotone(x, p, q - 1); }
  }

  lemma MulMonotone(k: nat, x: nat, y: nat)
    requires x <= y
    ensures k * x <= k * y && x * k <= y * k
  {
  }

  /** The admission predicate: ring not full and session below its fair share. */
  predicate AdmissionOk(st: State, s: SessId)
    requires s in st.inflight
  {
    st.total < QUEUE_DEPTH && st.inflight[s] < Quota(st.active)
  }

  /** The session's share of the ring, said without dividing: its commands in flight, times the
      number of open sessions, stay below the ring depth. */
  predicate FairShare(inflight: int, active: int) {
    inflight * (if active < 1 then 1 else active) < 16
  }

  lemma ShareMeaning(inflight: int, active: int)
    ensures inflight < Quota(active) <==> FairShare(inflight, active)
  {
    var a, q := if active < 1 then 1 else active, Quota(active);
    QuotaMeaning(active);
    if inflight < q { ScaleLe(inflight, q - 1, a); } else { ScaleLe(q, inflight, a); }
  }

  lemma ScaleLe(x: int, y: int, a: nat)
    requires x <= y
    ensures x * a <= y * a
  {
  }

  /** Fair admission: the test passes exactly if the ring has room and the session is below its
      share. */
  lemma FairAdmission(st: State, s: SessId)
    requires s in st.inflight
    ensures AdmissionOk(st, s) <==> st.total < 16 && FairShare(st.inflight[s], st.active)
  {
    ShareMeaning(st.inflight[s], st.active);
  }

  /** First free slot of the routing table at or after `i`, or none. */
  function FirstFree(table: seq<CmdCtx>, i: nat): (r: Option<nat>)
    requires i <= |table|
    ensures r.Some? ==> i <= r.value < |table| && !table[r.value].valid
    ensures r.None? ==> forall k :: i <= k < |table| ==> table[k].valid
    decreases |table| - i
  {
    if i == |table| then None
    else if !table[i].valid then Some(i)
    else FirstFree(table, i + 1)
  }

  /** First valid entry for `id` at or after `i`, or none. */
  function FindId(table: seq<CmdCtx>, id: nat, i: nat): (r: Option<nat>)
    requires i <= |table|
    ensures r.Some? ==> i <= r.value < |table| && table[r.value].valid && table[r.value].id == id
    ensures r.None? ==> forall k :: i <= k < |table| && table[k].valid ==> table[k].id != id
    decreases |table| - i
  {
    if i == |table| then None
    else if table[i].valid && table[i].id == id then Some(i)
    else FindId(table, id, i + 1)
  }

  function FirstFreeBuffer(buffers: seq<BufEntry>, i: nat): (r: Option<nat>)
    requires i <= |buffers|
    ensures r.Some? ==> i <= r.value < |buffers| && !buffers[r.value].inUse
    ensures r.None? ==> forall k :: i <= k < |buffers| ==> buffers[k].inUse
    decreases |buffers| - i
  {
    if i == |buffers| then None
    else if !buffers[i].inUse then Some(i)
    else FirstFreeBuffer(buffers, i + 1)
  }

  // -------------------------------------------------------------------- steps --

  /** An open file.  Calls through a file descriptor end before its release begins. */
  predicate IsOpen(st: State, s: SessId) {
    s in st.closing && !st.closing[s]
  }

  /** A SUBMIT that has an id but is not in the routing table yet. */
  predicate Unregistered(op: Op) {
    op.phase.Validated? || op.phase.QuotaRead?
  }

  function DoOpen(st: State, s: SessId): State {
    st.(closing := st.closing[s := false], inflight := st.inflight[s := 0],
        owned := st.owned[s := {}], rings := st.rings[s := []], active := st.active + 1)
  }

  function PageAlign(size: nat): nat {
    (size + PAGE_SIZE - 1) / PAGE_SIZE * PAGE_SIZE
  }

  /** The buffer is the requested size rounded up to whole pages. */
  lemma PageAlignMeaning(size: nat)
    ensures size <= PageAlign(size) < size + 4096 && PageAlign(size) % 4096 == 0
  {
    var q := (size + PAGE_SIZE - 1) / PAGE_SIZE;
    assert PageAlign(size) == q * 4096;
  }

  predicate Apart(b: BufEntry, c: BufEntry) {
    b.base + b.size <= c.base || c.base + c.size <= b.base
  }

  /** The coherent allocator returns memory that is not in use. */
  predicate FreshMemory(st: State, base: nat, size: nat) {
    forall i :: 0 <= i < |st.buffers| && st.buffers[i].inUse ==>
      Apart(BufEntry(true, 0, base, size), st.buffers[i])
  }

  datatype AllocResult = AllocOk(slot: nat) | AllocInvalid | AllocOverQuota | AllocNoSpace | AllocNoMemory

  function Alloc(st: State, s: SessId, size: nat): AllocResult
    requires s in st.owned
  {
    if size == 0 || size > BUFFER_ALLOC_MAX then AllocInvalid
    else if |st.owned[s]| >= DEFAULT_BUFFER_QUOTA then AllocOverQuota
    else match FirstFreeBuffer(st.buffers, 0)
      case None => AllocNoSpace
      case Some(slot) => AllocOk(slot)
  }

  /** When an allocation succeeds, and which error it gives otherwise. */
  lemma AllocMeaning(st: State, s: SessId, size: nat)
    requires s in st.owned
    ensures var r := Alloc(st, s, size); var full := forall i :: 0 <= i < |st.buffers| ==> st.buffers[i].inUse;
            && (r == AllocInvalid <==> !(0 < size <= 16777216))
            && (r == AllocOverQuota <==> 0 < size <= 16777216 && |st.owned[s]| >= 16)
            && (r == AllocNoSpace <==> 0 < size <= 16777216 && |st.owned[s]| < 16 && full)
            && (r.AllocOk? <==> 0 < size <= 16777216 && |st.owned[s]| < 16 && !full)
            && (r.AllocOk? ==> r.slot < |st.buffers| && !st.buffers[r.slot].inUse)
  {
    var f := FirstFreeBuffer(st.buffers, 0);
  }

  /** The new buffer is usable as asked for: it is the session's, starts at the allocated memory
      and holds at least the requested bytes; any command on a range of that length at its start
      passes validation.  Every other slot is as before. */
  lemma AllocUsable(st: State, s: SessId, size: nat, base: nat, opcode: nat, len: nat, id: nat)
    requires s in st.owned && Alloc(st, s, size).AllocOk? && len <= size
    ensures var slot, st' := Alloc(st, s, size).slot, DoAlloc(st, s, size, base);
            && slot < |st'.buffers| == |st.buffers|
            && st'.buffers[slot].inUse && st'.buffers[slot].owner == s && st'.buffers[slot].base == base
            && size <= st'.buffers[slot].size < size + 4096
            && (forall i :: 0 <= i < |st.buffers| && i != slot ==> st'.buffers[i] == st.buffers[i])
            && Validate(st'.buffers, s, Request(opcode, len, slot, 0, slot, 0, slot, 0), id).Ok?
  {
    PageAlignMeaning(size);
    var slot, st' := Alloc(st, s, size).slot, DoAlloc(st, s, size, base);
    ValidateMeaning(st'.buffers, s, Request(opcode, len, slot, 0, slot, 0, slot, 0), id);
  }

  function DoAlloc(st: State, s: SessId, size: nat, base: nat): State
    requires s in st.owned
  {
    match Alloc(st, s, size)
    case AllocOk(slot) =>
      st.(buffers := st.buffers[slot := BufEntry(true, s, base, PageAlign(size))],
          owned := st.owned[s := st.owned[s] + {slot}])
    case _ => st
  }

  /** The command gets the next id and its ioctl goes on to admission. */
  function StartOp(st: State, t: ThreadId, s: SessId, desc: Descriptor): State {
    st.(nextId := desc.id,
        ops := st.ops[t := Op(s, desc, Validated)],
        issued := st.issued[desc.id := desc])
  }

  /** A SUBMIT that fails validation returns its error and changes nothing. */
  function DoBegin(st: State, t: ThreadId, s: SessId, check: Check): State {
    match check
    case Ok(desc) => StartOp(st, t, s, desc)
    case _ => st
  }

  function DoReadQuota(st: State, t: ThreadId): State
    requires t in st.ops
  {
    st.(ops := st.ops[t := st.ops[t].(phase := QuotaRead(Quota(st.active)))])
  }

  /** The decision under the command lock, with the quota read before taking it. */
  predicate CanRegister(st: State, t: ThreadId) {
    && t in st.ops && st.ops[t].phase.QuotaRead? && st.ops[t].sess in st.inflight
    && st.total < QUEUE_DEPTH && st.inflight[st.ops[t].sess] < st.ops[t].phase.quota
    && FirstFree(st.table, 0).Some?
  }

  function DoRegister(st: State, t: ThreadId): State
    requires CanRegister(st, t)
  {
    var op := st.ops[t];
    st.(table := st.table[FirstFree(st.table, 0).value := CmdCtx(true, op.desc.id, op.sess)],
        ops := st.ops[t := op.(phase := Registered)])
  }

  predicate CanCount(st: State, t: ThreadId) {
    t in st.ops && st.ops[t].phase.Registered? && st.ops[t].sess in st.inflight
  }

  function DoCount(st: State, t: ThreadId): State
    requires CanCount(st, t)
  {
    var op := st.ops[t];
    st.(inflight := st.inflight[op.sess := st.inflight[op.sess] + 1],
        total := st.total + 1,
        ops := st.ops[t := op.(phase := Counted)])
  }

  /** The ioctl ends: its descriptor went to the ring, or a signal interrupted the wait. */
  function DoEndOp(st: State, t: ThreadId): State {
    st.(ops := st.ops - {t})
  }

  /** Unknown ids are reported and dropped. */
  function DoClaim(st: State, comp: Completion): State {
    match FindId(st.table, comp.id, 0)
    case None => st
    case Some(i) =>
      st.(table := st.table[i := st.table[i].(valid := false)],
          isr := Claimed(comp, st.table[i].sess))
  }

  /** Drop the oldest unread completion rather than overrun the ring. */
  function PushRing(ring: seq<Completion>, comp: Completion): seq<Completion> {
    (if |ring| >= COMP_RING_SIZE then ring[1..] else ring) + [comp]
  }

  /** The ring keeps the newest 64 completions, in order. */
  lemma PushRingMeaning(ring: seq<Completion>, comp: Completion)
    requires |ring| <= 64
    ensures var r, all := PushRing(ring, comp), ring + [comp];
            && |r| == (if |all| <= 64 then |all| else 64)
            && r == all[|all| - |r|..]
  {
  }

  predicate CanDeliver(st: State) {
    st.isr.Claimed? && st.isr.owner in st.rings
  }

  function DoDeliver(st: State): State
    requires CanDeliver(st)
  {
    st.(rings := st.rings[st.isr.owner := PushRing(st.rings[st.isr.owner], st.isr.comp)],
        isr := Delivered(st.isr.owner))
  }

  predicate CanUncount(st: State) {
    st.isr.Delivered? && st.isr.owner in st.inflight
  }

  function DoUncount(st: State): State
    requires CanUncount(st)
  {
    st.(inflight := st.inflight[st.isr.owner := st.inflight[st.isr.owner] - 1],
        total := st.total - 1,
        isr := Idle)
  }

  predicate CanRead(st: State, s: SessId) {
    IsOpen(st, s) && s in st.rings && st.rings[s] != []
  }

  function DoRead(st: State, s: SessId): State
    requires CanRead(st, s)
  {
    st.(rings := st.rings[s := st.rings[s][1..]])
  }

  predicate CanCloseBegin(st: State, s: SessId) {
    IsOpen(st, s) && forall t :: t in st.ops ==> st.ops[t].sess != s
  }

  function DoCloseBegin(st: State, s: SessId): State
    requires CanCloseBegin(st, s)
  {
    st.(closing := st.closing[s := true], active := st.active - 1)
  }

  predicate CanCloseFinish(st: State, s: SessId) {
    s in st.closing && st.closing[s] && s in st.inflight && st.inflight[s] <= 0 && s in st.owned
  }

  function FreeSlots(buffers: seq<BufEntry>, owned: set<nat>): seq<BufEntry> {
    seq(|buffers|, i requires 0 <= i < |buffers| =>
      if i in owned then buffers[i].(inUse := false, owner := 0) else buffers[i])
  }

  function DoCloseFinish(st: State, s: SessId): State
    requires CanCloseFinish(st, s)
  {
    st.(buffers := FreeSlots(st.buffers, st.owned[s]),
        closing := st.closing - {s}, inflight := st.inflight - {s},
        owned := st.owned - {s}, rings := st.rings - {s})
  }

  datatype Step =
    | Open(s: SessId)
    | BufferAlloc(s: SessId, size: nat, base: nat)
    | Begin(t: ThreadId, s: SessId, req: Request)
    | ReadQuota(t: ThreadId)
    | Abandon(t: ThreadId)
    | Register(t: ThreadId)
    | Count(t: ThreadId)
    | Enqueue(t: ThreadId)
    | IsrClaim(comp: Completion)
    | IsrDeliver
    | IsrUncount
    | Read(s: SessId)
    | CloseBegin(s: SessId)
    | CloseFinish(s: SessId)

  /** The atomic steps. */
  predicate Next(st: State, step: Step, st': State) {
    match step
    case Open(s) => s !in st.closing && st' == DoOpen(st, s)
    case BufferAlloc(s, size, base) =>
      IsOpen(st, s) && s in st.owned && FreshMemory(st, base, PageAlign(size)) && st' == DoAlloc(st, s, size, base)
    case Begin(t, s, req) =>
      t !in st.ops && IsOpen(st, s) && st' == DoBegin(st, t, s, Validate(st.buffers, s, req, st.nextId + 1))
    case ReadQuota(t) => t in st.ops && Unregistered(st.ops[t]) && st' == DoReadQuota(st, t)
    case Abandon(t) => t in st.ops && Unregistered(st.ops[t]) && st' == DoEndOp(st, t)
    case Register(t) => CanRegister(st, t) && st' == DoRegister(st, t)
    case Count(t) => CanCount(st, t) && st' == DoCount(st, t)
    case Enqueue(t) => t in st.ops && st.ops[t].phase.Counted? && st' == DoEndOp(st, t)
    case IsrClaim(comp) => st.isr.Idle? && st' == DoClaim(st, comp)
    case IsrDeliver => CanDeliver(st) && st' == DoDeliver(st)
    case IsrUncount => CanUncount(st) && st' == DoUncount(st)
    case Read(s) => CanRead(st, s) && st' == DoRead(st, s)
    case CloseBegin(s) => CanCloseBegin(st, s) && st' == DoCloseBegin(st, s)
    case CloseFinish(s) => CanCloseFinish(st, s) && st' == DoCloseFinish(st, s)
  }

  /** A finite run: a start state and the steps taken since.  Every prefix of a run is a run. */
  datatype Run = From(start: State) | Then(prev: Run, step: Step, st: State)

  function Last(r: Run): State {
    match r
    case From(start) => start
    case Then(_, _, st) => st
  }

  function First(r: Run): State {
    match r
    case From(start) => start
    case Then(prev, _, _) => First(prev)
  }

  ghost predicate IsRun(r: Run) {
    match r
    case From(_) => true
    case Then(prev, step, st) => IsRun(prev) && Next(Last(prev), step, st)
  }
}
