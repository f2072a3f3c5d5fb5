/**
 User space on top of the driver: every open session is driven by a Stream, which throttles
 its submissions, keeps a Fence per command and pumps completions out of its session's ring.
 Any number of Streams, the driver and the device interleave freely.

 A SUBMIT ioctl and the bookkeeping after it are two steps, so completions may arrive between
 them.  A Stream is single-threaded and is not moved after its first submit.
 */
module StreamSystem {
  import opened Basics
  import opened DriverCore
  import opened DriverInvariants
  import opened SerialDriver

  const PUMP_BATCH := 32

  /** The FenceState that Stream and Fence share. */
  datatype Fence = Fence(ready: bool, status: nat)

  /** `outstanding` and `order` are `outstanding_` and `submission_order_`; `ioctl` is the
      command whose SUBMIT has reached the driver but is not booked yet. */
  datatype Stream = Stream(outstanding: set<nat>, order: seq<nat>, ioctl: Option<nat>)

  /** `submitter` records which session each command was submitted on. */
  datatype Sys = Sys(
    k: Kernel,
    streams: map<SessId, Stream>,
    fences: map<nat, Fence>,
    submitter: map<nat, SessId>)

  // ------------------------------------------------------------------- pump --

  /** One completion of a batch: make the Fence ready and stop tracking it; skip unknown ids. */
  function PumpOne(c: Completion, outstanding: set<nat>, fences: map<nat, Fence>): (set<nat>, map<nat, Fence>) {
    if c.id !in outstanding || c.id !in fences then (outstanding, fences)
    else (outstanding - {c.id}, fences[c.id := Fence(true, c.status)])
  }

  function PumpAll(batch: seq<Completion>, outstanding: set<nat>, fences: map<nat, Fence>): (set<nat>, map<nat, Fence>)
    decreases |batch|
  {
    if batch == [] then (outstanding, fences)
    else
      var (o, f) := PumpOne(batch[0], outstanding, fences);
      PumpAll(batch[1..], o, f)
  }

  // ------------------------------------------------------------------ steps --

  datatype SStep =
    | OpenStream(s: SessId)
    | Alloc(step: Step)
    | CloseStream(s: SessId)
    | Finish(s: SessId)
    | Throttle(s: SessId)
    | Ioctl(s: SessId, desc: Descriptor)
    | IoctlInterrupted(s: SessId, desc: Descriptor)
    | Book(s: SessId)
    | Pump(s: SessId, n: nat)
    | Device(kstep: KStep)

  predicate BetweenCalls(y: Sys, s: SessId) {
    s in y.streams && y.streams[s].ioctl.None?
  }

  ghost predicate SNext(y: Sys, step: SStep, y': Sys) {
    match step
    case OpenStream(s) =>
      && KNext(y.k, KStep.Session(Step.Open(s)), y'.k)
      && y' == y.(k := y'.k, streams := y.streams[s := Stream({}, [], None)])
    case Alloc(step) => step.BufferAlloc? && KNext(y.k, KStep.Session(step), y'.k) && y' == y.(k := y'.k)
    case CloseStream(s) =>
      && BetweenCalls(y, s) && KNext(y.k, KStep.Session(Step.CloseBegin(s)), y'.k)
      && y' == y.(k := y'.k, streams := y.streams - {s})
    case Finish(s) => KNext(y.k, KStep.Session(Step.CloseFinish(s)), y'.k) && y' == y.(k := y'.k)
    case Throttle(s) =>
      && BetweenCalls(y, s) && |y.streams[s].order| >= QUEUE_DEPTH
      && y.streams[s].order[0] in y.fences && y.fences[y.streams[s].order[0]].ready
      && y' == y.(streams := y.streams[s := Throttled(y.streams[s])])
    case Ioctl(s, desc) =>
      && BetweenCalls(y, s) && |y.streams[s].order| < QUEUE_DEPTH && KNext(y.k, KStep.Submit(s, desc), y'.k)
      && y' == y.(k := y'.k, streams := y.streams[s := y.streams[s].(ioctl := Some(desc.id))],
                  submitter := y.submitter[desc.id := s])
    case IoctlInterrupted(s, desc) =>
      && BetweenCalls(y, s) && |y.streams[s].order| < QUEUE_DEPTH && KNext(y.k, KStep.Interrupted(s, desc), y'.k)
      && y' == y.(k := y'.k)
    case Book(s) =>
      && s in y.streams && y.streams[s].ioctl.Some?
      && y' == y.(streams := y.streams[s := Booked(y.streams[s])],
                  fences := y.fences[y.streams[s].ioctl.value := Fence(false, 0)])
    case Pump(s, n) =>
      && BetweenCalls(y, s) && n <= PUMP_BATCH && CanReadSome(y.k.core, s, n)
      && KNext(y.k, KStep.ReadSome(s, n), y'.k)
      && var (o, f) := PumpAll(y.k.core.rings[s][..n], y.streams[s].outstanding, y.fences);
         y' == y.(k := y'.k, streams := y.streams[s := y.streams[s].(outstanding := o)], fences := f)
    case Device(kstep) =>
      (kstep.Fetch? || kstep.Post? || kstep.Route?) && KNext(y.k, kstep, y'.k) && y' == y.(k := y'.k)
  }

  /** Backpressure: the oldest submission has completed and leaves the window. */
  function Throttled(st: Stream): Stream
    requires st.order != []
  {
    st.(outstanding := st.outstanding - {st.order[0]}, order := st.order[1..])
  }

  function Booked(st: Stream): Stream
    requires st.ioctl.Some?
  {
    Stream(st.outstanding + {st.ioctl.value}, st.order + [st.ioctl.value], None)
  }

  // -------------------------------------------------------------- invariant --

  /** Ids of the session's commands that are in the routing table. */
  ghost function FlightIds(table: seq<CmdCtx>, s: SessId): set<nat> {
    set i | 0 <= i < |table| && table[i].valid && table[i].sess == s :: table[i].id
  }

  ghost function CompIds(ring: seq<Completion>): set<nat> {
    set j | 0 <= j < |ring| :: ring[j].id
  }

  ghost function PendingIoctl(ioctl: Option<nat>): set<nat> {
    if ioctl.None? then {} else {ioctl.value}
  }

  /** `outstanding_` holds exactly the entries of `submission_order_` that are not ready. */
  ghost predicate Tracks(st: Stream, fences: map<nat, Fence>) {
    && |st.order| <= QUEUE_DEPTH && Distinct(st.order)
    && (forall j :: 0 <= j < |st.order| ==> st.order[j] in fences)
    && (forall id :: id in st.outstanding <==> id in st.order && id in fences && !fences[id].ready)
  }

  /** The driver holds, in flight or unread, exactly what the Stream waits for. */
  ghost predicate StreamOk(flight: set<nat>, ring: seq<Completion>, fences: map<nat, Fence>, st: Stream) {
    && Tracks(st, fences)
    && flight + CompIds(ring) == st.outstanding + PendingIoctl(st.ioctl)
    && (st.ioctl.Some? ==> st.ioctl.value !in fences && |st.order| < QUEUE_DEPTH)
  }

  ghost predicate StreamsOk(table: seq<CmdCtx>, rings: map<SessId, seq<Completion>>, fences: map<nat, Fence>,
                            streams: map<SessId, Stream>)
  {
    forall s :: s in streams ==> s in rings && StreamOk(FlightIds(table, s), rings[s], fences, streams[s])
  }

  /** A ready Fence has the status that was posted for its command. */
  ghost predicate FencesOk(fences: map<nat, Fence>, posted: map<nat, nat>, nextId: nat) {
    forall id :: id in fences ==>
      id <= nextId && (fences[id].ready ==> id in posted && posted[id] == fences[id].status)
  }

  /** Commands stay with the session they were submitted on. */
  ghost predicate Owned(table: seq<CmdCtx>, rings: map<SessId, seq<Completion>>, submitter: map<nat, SessId>) {
    && (forall i :: 0 <= i < |table| && table[i].valid ==>
          table[i].id in submitter && submitter[table[i].id] == table[i].sess)
    && (forall s, j :: s in rings && 0 <= j < |rings[s]| ==>
          rings[s][j].id in submitter && submitter[rings[s][j].id] == s)
  }

  ghost predicate StreamsOwned(streams: map<SessId, Stream>, submitter: map<nat, SessId>) {
    forall s :: s in streams ==>
      && (forall j :: 0 <= j < |streams[s].order| ==>
            streams[s].order[j] in submitter && submitter[streams[s].order[j]] == s)
      && (streams[s].ioctl.Some? ==> streams[s].ioctl.value in submitter && submitter[streams[s].ioctl.value] == s)
  }

  /** Room in every session's ring for whatever is still in flight. */
  ghost predicate RoomLeft(inflight: map<SessId, int>, rings: map<SessId, seq<Completion>>) {
    forall s :: s in rings && s in inflight ==> |rings[s]| + inflight[s] <= QUEUE_DEPTH
  }

  ghost predicate OneStreamPerSession(closing: map<SessId, bool>, streams: map<SessId, Stream>) {
    forall s :: s in streams <==> s in closing && !closing[s]
  }

  ghost predicate UserSide(y: Sys) {
    && OneStreamPerSession(y.k.core.closing, y.streams)
    && StreamsOk(y.k.core.table, y.k.core.rings, y.fences, y.streams)
    && FencesOk(y.fences, y.k.posted, y.k.core.nextId)
    && Owned(y.k.core.table, y.k.core.rings, y.submitter)
    && StreamsOwned(y.streams, y.submitter)
    && RoomLeft(y.k.core.inflight, y.k.core.rings)
    && (forall id :: id in y.submitter ==> id <= y.k.core.nextId)
  }

  ghost predicate SInv(y: Sys) {
    KInv(y.k) && UserSide(y)
  }
}
