/**
 Every step of driver and device keeps the serial invariant: the rings refine unbounded FIFO
 queues across counter wrap, at most 16 commands are between submission and routing, and each
 command passes through queue, execution and completion exactly once.
 */
module SerialInvariants {
  import opened Basics
  import opened DriverCore
  import opened DriverInvariants
  import opened SerialDriver
  import Rings

  // ------------------------------------------------------- table membership --

  lemma EntryAdded(table: seq<CmdCtx>, slot: nat, e: CmdCtx, id: nat)
    requires slot < |table| && !table[slot].valid && e.valid
    ensures InTable(table[slot := e], id) <==> InTable(table, id) || id == e.id
  {
    var table' := table[slot := e];
    if InTable(table, id) {
      var i :| 0 <= i < |table| && table[i].valid && table[i].id == id;
      assert table'[i].valid && table'[i].id == id;
    }
    if id == e.id { assert table'[slot].valid && table'[slot].id == id; }
  }

  lemma EntryCleared(table: seq<CmdCtx>, ops: map<ThreadId, Op>, nextId: nat, i: nat, id: nat)
    requires Ids(table, ops, nextId) && i < |table| && table[i].valid
    ensures InTable(table[i := table[i].(valid := false)], id) <==> InTable(table, id) && id != table[i].id
  {
    var table' := table[i := table[i].(valid := false)];
    if InTable(table, id) && id != table[i].id {
      var j :| 0 <= j < |table| && table[j].valid && table[j].id == id;
      assert table'[j].valid && table'[j].id == id;
    }
    if InTable(table', id) {
      var j :| 0 <= j < |table'| && table'[j].valid && table'[j].id == id;
      assert table[j].valid && j != i;
    }
  }

  lemma InTableBounded(table: seq<CmdCtx>, ops: map<ThreadId, Op>, nextId: nat, id: nat)
    requires Ids(table, ops, nextId) && InTable(table, id)
    ensures id <= nextId
  {
  }

  lemma QueuedAppend(sq: seq<Descriptor>, d: Descriptor, id: nat)
    ensures Queued(sq + [d], id) <==> Queued(sq, id) || id == d.id
  {
    if Queued(sq, id) {
      var k :| 0 <= k < |sq| && sq[k].id == id;
      assert (sq + [d])[k].id == id;
    }
    if id == d.id { assert (sq + [d])[|sq|].id == id; }
  }

  lemma QueuedTail(sq: seq<Descriptor>, id: nat)
    requires sq != [] && DistinctDescs(sq)
    ensures Queued(sq[1..], id) <==> Queued(sq, id) && id != sq[0].id
  {
    if Queued(sq, id) && id != sq[0].id {
      var k :| 0 <= k < |sq| && sq[k].id == id;
      assert sq[1..][k - 1].id == id;
    }
    if Queued(sq[1..], id) {
      var k :| 0 <= k < |sq[1..]| && sq[1..][k].id == id;
      assert sq[k + 1].id == id;
    }
  }

  lemma CompletedAppend(cq: seq<Completion>, c: Completion, id: nat)
    ensures Completed(cq + [c], id) <==> Completed(cq, id) || id == c.id
  {
    if Completed(cq, id) {
      var k :| 0 <= k < |cq| && cq[k].id == id;
      assert (cq + [c])[k].id == id;
    }
    if id == c.id { assert (cq + [c])[|cq|].id == id; }
  }

  lemma CompletedTail(cq: seq<Completion>, id: nat)
    requires cq != [] && DistinctComps(cq)
    ensures Completed(cq[1..], id) <==> Completed(cq, id) && id != cq[0].id
  {
    if Completed(cq, id) && id != cq[0].id {
      var k :| 0 <= k < |cq| && cq[k].id == id;
      assert cq[1..][k - 1].id == id;
    }
    if Completed(cq[1..], id) {
      var k :| 0 <= k < |cq[1..]| && cq[1..][k].id == id;
      assert cq[k + 1].id == id;
    }
  }

  // ------------------------------------------------------------- submitting --

  lemma SubmitPlaced(k: Kernel, s: SessId, d: Descriptor)
    requires Placed(k.core.table, k.sq, k.executing, k.cq) && Ids(k.core.table, k.core.ops, k.core.nextId)
    requires d.id == k.core.nextId + 1 && FirstFree(k.core.table, 0).Some?
    ensures Placed(k.core.table[FirstFree(k.core.table, 0).value := CmdCtx(true, d.id, s)], k.sq + [d], k.executing, k.cq)
    ensures forall id: nat :: Queued(k.sq, id) || id in k.executing || Completed(k.cq, id) ==> id <= k.core.nextId
  {
    var table := k.core.table;
    var slot, e := FirstFree(table, 0).value, CmdCtx(true, d.id, s);
    forall id: nat | Queued(k.sq, id) || id in k.executing || Completed(k.cq, id) ensures id <= k.core.nextId {
      InTableBounded(table, k.core.ops, k.core.nextId, id);
    }
    forall id
      ensures InTable(table[slot := e], id) <==> Queued(k.sq + [d], id) || id in k.executing || Completed(k.cq, id)
      ensures Queued(k.sq + [d], id) ==> id !in k.executing
    {
      EntryAdded(table, slot, e, id);
      QueuedAppend(k.sq, d, id);
    }
    forall a, b | 0 <= a < b < |k.sq + [d]| ensures (k.sq + [d])[a].id != (k.sq + [d])[b].id {
      assert Queued(k.sq, k.sq[a].id);
    }
  }

  lemma SubmitPosted(k: Kernel, d: Descriptor)
    requires PostedOnce(k.core.nextId, k.sq, k.executing, k.cq, k.posted) && d.id == k.core.nextId + 1
    ensures PostedOnce(d.id, k.sq + [d], k.executing, k.cq, k.posted)
  {
    forall id | Queued(k.sq + [d], id) ensures id !in k.posted {
      QueuedAppend(k.sq, d, id);
    }
  }

  lemma SubmitRings(k: Kernel, e: CmdCtx)
    requires RingsGenuine(k.core.table, k.posted, k.core.rings) && FirstFree(k.core.table, 0).Some?
    requires e.valid && e.id !in k.posted
    ensures RingsGenuine(k.core.table[FirstFree(k.core.table, 0).value := e], k.posted, k.core.rings)
  {
    var slot := FirstFree(k.core.table, 0).value;
    forall s | s in k.core.rings ensures RingGenuine(k.core.table[slot := e], k.posted, k.core.rings[s]) {
      var ring := k.core.rings[s];
      assert RingGenuine(k.core.table, k.posted, ring);
      forall j | 0 <= j < |ring| ensures !InTable(k.core.table[slot := e], ring[j].id) {
        EntryAdded(k.core.table, slot, e, ring[j].id);
      }
    }
  }

  lemma SubmitFlow(k: Kernel, s: SessId, d: Descriptor)
    requires Flow(k) && Ids(k.core.table, k.core.ops, k.core.nextId)
    requires d.id == k.core.nextId + 1 && FirstFree(k.core.table, 0).Some? && s in k.core.inflight && |k.hw.sqBuf| == QUEUE_DEPTH
    ensures Flow(DoSubmit(k, s, d))
  {
    SubmitPlaced(k, s, d);
    SubmitPosted(k, d);
    SubmitRings(k, CmdCtx(true, d.id, s));
    forall j | 0 <= j < |k.sq + [d]|
      ensures (k.sq + [d])[j].id in k.core.issued[d.id := d] && k.core.issued[d.id := d][(k.sq + [d])[j].id] == (k.sq + [d])[j]
    {
      if j < |k.sq| { assert Queued(k.sq, k.sq[j].id); }
    }
  }

  /** The device side of the invariant. */
  ghost predicate Pipeline(k: Kernel) {
    RingsHold(k.hw, k.sq, k.cq) && Bounded(k) && Flow(k)
  }

  lemma SubmitPipeline(k: Kernel, s: SessId, d: Descriptor)
    requires Pipeline(k) && Ids(k.core.table, k.core.ops, k.core.nextId) && k.core.total < QUEUE_DEPTH
    requires d.id == k.core.nextId + 1 && FirstFree(k.core.table, 0).Some? && s in k.core.inflight
    ensures Pipeline(DoSubmit(k, s, d))
  {
    SubmitFlow(k, s, d);
    Rings.Push(k.hw.sqBuf, k.hw.sqHead, k.hw.sqTail, k.sq, d);
  }

  lemma SubmitInv(k: Kernel, s: SessId, d: Descriptor)
    requires KInv(k) && CanSubmit(k, s, d)
    ensures KInv(DoSubmit(k, s, d))
  {
    SubmitCoreInv(k.core, s, d);
    SubmitPipeline(k, s, d);
  }

  // --------------------------------------------------------------- executing --

  lemma FetchFlow(k: Kernel, d: Descriptor)
    requires Flow(k) && k.sq != [] && d == k.sq[0]
    ensures Flow(k.(sq := k.sq[1..], executing := k.executing[d.id := d]))
  {
    assert Queued(k.sq, d.id);
    forall id
      ensures InTable(k.core.table, id) <==> Queued(k.sq[1..], id) || id in k.executing[d.id := d] || Completed(k.cq, id)
      ensures Queued(k.sq[1..], id) ==> id !in k.executing[d.id := d]
      ensures Queued(k.sq[1..], id) ==> Queued(k.sq, id)
    {
      QueuedTail(k.sq, id);
    }
  }

  lemma FetchSize(sq: seq<Descriptor>, executing: map<nat, Descriptor>)
    requires sq != [] && forall id :: Queued(sq, id) ==> id !in executing
    ensures |executing[sq[0].id := sq[0]]| == |executing| + 1
  {
    assert Queued(sq, sq[0].id);
    assert executing[sq[0].id := sq[0]].Keys == executing.Keys + {sq[0].id};
  }

  lemma FetchPipeline(k: Kernel)
    requires Pipeline(k) && CanFetch(k)
    ensures Pipeline(DoFetch(k))
  {
    Rings.Pop(k.hw.sqBuf, k.hw.sqHead, k.hw.sqTail, k.sq);
    FetchFlow(k, k.sq[0]);
    FetchSize(k.sq, k.executing);
  }

  lemma PostFlow(k: Kernel, id: nat, status: nat)
    requires Flow(k) && Ids(k.core.table, k.core.ops, k.core.nextId) && CanPost(k, id)
    ensures Flow(DoPost(k, id, status))
  {
    var c := Completion(id, status);
    assert InTable(k.core.table, id);
    InTableBounded(k.core.table, k.core.ops, k.core.nextId, id);
    forall x
      ensures InTable(k.core.table, x) <==> Queued(k.sq, x) || x in k.executing - {id} || Completed(k.cq + [c], x)
    {
      CompletedAppend(k.cq, c, x);
    }
    forall s | s in k.core.rings ensures RingGenuine(k.core.table, k.posted[id := status], k.core.rings[s]) {
      assert RingGenuine(k.core.table, k.posted, k.core.rings[s]);
    }
  }

  lemma PostSize(executing: map<nat, Descriptor>, id: nat)
    requires id in executing
    ensures |executing - {id}| == |executing| - 1
  {
    assert (executing - {id}).Keys == executing.Keys - {id};
  }

  lemma PostPipeline(k: Kernel, id: nat, status: nat)
    requires Pipeline(k) && Ids(k.core.table, k.core.ops, k.core.nextId) && CanPost(k, id)
    ensures Pipeline(DoPost(k, id, status))
  {
    PostSize(k.executing, id);
    PostFlow(k, id, status);
    PostRing(k, id, status);
  }

  lemma PostRing(k: Kernel, id: nat, status: nat)
    requires RingsHold(k.hw, k.sq, k.cq) && CanPost(k, id) && |k.cq| < QUEUE_DEPTH
    ensures var k' := DoPost(k, id, status); RingsHold(k'.hw, k'.sq, k'.cq)
  {
    Rings.Push(k.hw.cqBuf, k.hw.cqHead, k.hw.cqTail, k.cq, Completion(id, status));
  }

  // ----------------------------------------------------------------- routing --

  lemma RoutePlaced(k: Kernel, i: nat)
    requires Placed(k.core.table, k.sq, k.executing, k.cq) && Ids(k.core.table, k.core.ops, k.core.nextId)
    requires PostedOnce(k.core.nextId, k.sq, k.executing, k.cq, k.posted)
    requires k.cq != [] && i < |k.core.table| && k.core.table[i].valid && k.core.table[i].id == k.cq[0].id
    ensures Placed(k.core.table[i := k.core.table[i].(valid := false)], k.sq, k.executing, k.cq[1..])
  {
    var table := k.core.table;
    forall x
      ensures InTable(table[i := table[i].(valid := false)], x) <==>
              Queued(k.sq, x) || x in k.executing || Completed(k.cq[1..], x)
    {
      EntryCleared(table, k.core.ops, k.core.nextId, i, x);
      CompletedTail(k.cq, x);
    }
  }

  lemma RouteRings(k: Kernel, i: nat, c: Completion)
    requires RingsGenuine(k.core.table, k.posted, k.core.rings) && Ids(k.core.table, k.core.ops, k.core.nextId)
    requires i < |k.core.table| && k.core.table[i].valid && k.core.table[i].id == c.id
    requires c.id in k.posted && k.posted[c.id] == c.status && k.core.table[i].sess in k.core.rings
    ensures var s := k.core.table[i].sess;
            RingsGenuine(k.core.table[i := k.core.table[i].(valid := false)], k.posted,
                         k.core.rings[s := PushRing(k.core.rings[s], c)])
  {
    var table, s := k.core.table, k.core.table[i].sess;
    var table' := table[i := table[i].(valid := false)];
    assert InTable(table, c.id);
    forall u | u in k.core.rings
      ensures RingGenuine(table', k.posted, k.core.rings[u])
      ensures RingGenuine(table', k.posted, PushRing(k.core.rings[u], c))
    {
      var ring := k.core.rings[u];
      assert RingGenuine(table, k.posted, ring);
      forall x ensures InTable(table', x) ==> InTable(table, x) && x != c.id {
        EntryCleared(table, k.core.ops, k.core.nextId, i, x);
      }
    }
  }

  lemma RouteFlow(k: Kernel, i: nat)
    requires Flow(k) && Ids(k.core.table, k.core.ops, k.core.nextId) && k.cq != []
    requires i < |k.core.table| && k.core.table[i].valid && k.core.table[i].id == k.cq[0].id
    requires k.core.table[i].sess in k.core.rings && k.core.table[i].sess in k.core.inflight
    requires FindId(k.core.table, k.cq[0].id, 0) == Some(i)
    ensures Flow(k.(core := RouteCore(k.core, k.cq[0]), cq := k.cq[1..]))
  {
    RoutePlaced(k, i);
    RouteRings(k, i, k.cq[0]);
    forall j | 0 <= j < |k.cq[1..]| ensures k.cq[1..][j].id in k.posted && k.posted[k.cq[1..][j].id] == k.cq[1..][j].status {
      assert k.cq[1..][j] == k.cq[j + 1];
    }
  }

  /** The completion at the head of the ring always has its table entry, so the handler's
      unknown-id branch is not taken. */
  lemma HeadIsKnown(k: Kernel)
    requires Pipeline(k) && k.cq != []
    ensures k.hw.cqBuf[k.hw.cqHead % QUEUE_DEPTH] == k.cq[0]
    ensures FindId(k.core.table, k.cq[0].id, 0).Some?
  {
    Rings.Pop(k.hw.cqBuf, k.hw.cqHead, k.hw.cqTail, k.cq);
    assert Completed(k.cq, k.cq[0].id);
    assert InTable(k.core.table, k.cq[0].id);
  }

  lemma RoutePipeline(k: Kernel)
    requires Pipeline(k) && Ids(k.core.table, k.core.ops, k.core.nextId) && CanRoute(k)
    ensures Pipeline(DoRoute(k))
  {
    HeadIsKnown(k);
    RouteFlow(k, FindId(k.core.table, k.cq[0].id, 0).value);
    Rings.Pop(k.hw.cqBuf, k.hw.cqHead, k.hw.cqTail, k.cq);
  }

  lemma RouteInv(k: Kernel)
    requires KInv(k) && CanRoute(k)
    ensures KInv(DoRoute(k))
  {
    HeadIsKnown(k);
    RouteCoreInv(k.core, k.cq[0]);
    RoutePipeline(k);
  }

  // ------------------------------------------------------ interrupted submits --

  lemma SpentKeeps(k: Kernel, s: SessId, desc: Descriptor)
    requires KInv(k) && IsOpen(k.core, s) && DescBacked(k.core.buffers, s, desc) && desc.id == k.core.nextId + 1
    ensures KInv(k.(core := IdSpent(k.core, desc)))
  {
    SpentCore(k.core, s, desc);
    SpentFlow(k, desc);
  }

  lemma SpentCore(st: State, s: SessId, desc: Descriptor)
    requires Inv(st) && Quiet(st) && IsOpen(st, s) && DescBacked(st.buffers, s, desc) && desc.id == st.nextId + 1
    ensures Inv(IdSpent(st, desc))
  {
    StartOpRouting(st, 0, s, desc);
    StartOpOwnership(st, 0, s, desc);
    SpentIsAbandoned(st, s, desc);
    StepInv(StartOp(st, 0, s, desc), Abandon(0), IdSpent(st, desc));
  }

  /** An interrupted SUBMIT is a fine-grained begin followed by giving up. */
  lemma SpentIsAbandoned(st: State, s: SessId, desc: Descriptor)
    requires Quiet(st)
    ensures Next(StartOp(st, 0, s, desc), Abandon(0), IdSpent(st, desc))
  {
    assert DoEndOp(StartOp(st, 0, s, desc), 0).ops == map[];
  }

  lemma SpentFlow(k: Kernel, desc: Descriptor)
    requires Flow(k) && desc.id == k.core.nextId + 1 && (forall id :: id in k.core.issued ==> id <= k.core.nextId)
    ensures Flow(k.(core := IdSpent(k.core, desc)))
  {
  }

  // ---------------------------------------------------------------- sessions --

  lemma SessionFlow(k: Kernel, step: Step, core': State)
    requires Flow(k) && IsSessionStep(step) && Next(k.core, step, core')
    ensures Flow(k.(core := core'))
    ensures core'.table == k.core.table && core'.ops == k.core.ops && core'.isr == k.core.isr && core'.total == k.core.total
  {
    forall s | s in core'.rings ensures RingGenuine(core'.table, k.posted, core'.rings[s]) {
      if s in k.core.rings { assert RingGenuine(k.core.table, k.posted, k.core.rings[s]); }
    }
  }

  lemma SessionInv(k: Kernel, step: Step, core': State)
    requires KInv(k) && IsSessionStep(step) && Next(k.core, step, core')
    ensures KInv(k.(core := core'))
  {
    StepInv(k.core, step, core');
    SessionFlow(k, step, core');
  }

  lemma ReadRings(k: Kernel, s: SessId, n: nat)
    requires RingsGenuine(k.core.table, k.posted, k.core.rings) && s in k.core.rings && n <= |k.core.rings[s]|
    ensures RingsGenuine(k.core.table, k.posted, k.core.rings[s := k.core.rings[s][n..]])
  {
    var ring := k.core.rings[s];
    assert RingGenuine(k.core.table, k.posted, ring);
    forall u | u in k.core.rings ensures RingGenuine(k.core.table, k.posted, k.core.rings[s := ring[n..]][u]) {
      assert RingGenuine(k.core.table, k.posted, k.core.rings[u]);
      forall j | 0 <= j < |ring[n..]| ensures ring[n..][j] == ring[n + j] {}
    }
  }

  lemma ReadSomeCore(st: State, s: SessId, n: nat)
    requires Routing(st) && CanReadSome(st, s, n)
    ensures Routing(DoReadSome(st, s, n))
  {
  }

  lemma ReadSomeInv(k: Kernel, s: SessId, n: nat)
    requires KInv(k) && CanReadSome(k.core, s, n)
    ensures KInv(k.(core := DoReadSome(k.core, s, n)))
  {
    ReadSomeCore(k.core, s, n);
    ReadRings(k, s, n);
  }

  lemma KStepInv(k: Kernel, step: KStep, k': Kernel)
    requires KInv(k) && KNext(k, step, k')
    ensures KInv(k')
  {
    match step
    case Session(st) => SessionInv(k, st, k'.core);
    case ReadSome(s, n) => ReadSomeInv(k, s, n);
    case Submit(s, desc) => SubmitInv(k, s, desc);
    case Interrupted(s, desc) => SpentKeeps(k, s, desc);
    case Fetch => FetchPipeline(k);
    case Post(id, status) => PostPipeline(k, id, status);
    case Route => RouteInv(k);
  }
}
