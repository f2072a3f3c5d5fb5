/**
 Every step of every Stream, of the driver and of the device keeps the joint invariant.
 */
module StreamInvariants {
  import opened Basics
  import opened DriverCore
  import opened DriverInvariants
  import opened SerialDriver
  import opened SerialInvariants
  import opened StreamSystem

  // ---------------------------------------------------------------- counting --

  ghost predicate DistinctEntries(table: seq<CmdCtx>) {
    forall i, j :: 0 <= i < j < |table| && table[i].valid && table[j].valid ==> table[i].id != table[j].id
  }

  lemma FlightStep(rest: seq<CmdCtx>, e: CmdCtx, s: SessId)
    ensures var mine := e.valid && e.sess == s;
            && FlightIds(rest + [e], s) == FlightIds(rest, s) + (if mine then {e.id} else {})
            && ValidOf(rest + [e], s) == ValidOf(rest, s) + (if mine then {|rest|} else {})
  {
    var table := rest + [e];
    assert table[|rest|] == e;
    forall i | 0 <= i < |rest| ensures table[i] == rest[i] {}
    forall id | id in FlightIds(rest, s) ensures id in FlightIds(table, s) {
      var i :| 0 <= i < |rest| && rest[i].valid && rest[i].sess == s && rest[i].id == id;
      assert table[i].id == id;
    }
  }

  lemma DistinctStep(rest: seq<CmdCtx>, e: CmdCtx, s: SessId)
    requires DistinctEntries(rest + [e])
    ensures DistinctEntries(rest)
    ensures e.valid ==> e.id !in FlightIds(rest, s)
  {
    var table := rest + [e];
    forall i, j | 0 <= i < j < |rest| && rest[i].valid && rest[j].valid ensures rest[i].id != rest[j].id {
      assert table[i] == rest[i] && table[j] == rest[j];
    }
    forall i | 0 <= i < |rest| && rest[i].valid && e.valid ensures rest[i].id != e.id {
      assert table[i] == rest[i] && table[|rest|] == e;
    }
  }

  lemma {:induction false} FlightCount(table: seq<CmdCtx>, s: SessId)
    requires DistinctEntries(table)
    ensures |FlightIds(table, s)| == |ValidOf(table, s)|
  {
    if table == [] {
      assert FlightIds(table, s) == {} && ValidOf(table, s) == {};
    } else {
      var rest, e := table[..|table| - 1], table[|table| - 1];
      assert rest + [e] == table;
      DistinctStep(rest, e, s);
      FlightCount(rest, s);
      FlightStep(rest, e, s);
    }
  }

  lemma {:induction false} CompCount(ring: seq<Completion>)
    requires DistinctComps(ring)
    ensures |CompIds(ring)| == |ring|
  {
    if ring == [] {
      assert CompIds(ring) == {};
    } else {
      var n := |ring| - 1;
      CompCount(ring[..n]);
      assert CompIds(ring) == CompIds(ring[..n]) + {ring[n].id};
      assert ring[n].id !in CompIds(ring[..n]);
    }
  }

  lemma {:induction false} ElementCount(a: set<nat>, s: seq<nat>)
    requires forall x :: x in a ==> x in s
    ensures |a| <= |s|
  {
    if s == [] {
      assert a == {};
    } else {
      ElementCount(a - {s[0]}, s[1..]);
      assert |a| <= |a - {s[0]}| + 1 by {
        if s[0] in a { assert a == (a - {s[0]}) + {s[0]}; } else { assert a == a - {s[0]}; }
      }
    }
  }

  /** The counter of a session is the number of its commands in the table. */
  lemma InflightCount(st: State, s: SessId)
    requires Accounting(st.inflight, st.total, st.table, st.ops, st.isr) && Ids(st.table, st.ops, st.nextId)
    requires Quiet(st) && s in st.inflight
    ensures st.inflight[s] == |FlightIds(st.table, s)|
  {
    assert AccountedFor(st.inflight[s], st.table, st.ops, st.isr, s);
    assert RegisteredOf(st.ops, s) == {};
    FlightCount(st.table, s);
  }

  lemma FlightApartFromRing(table: seq<CmdCtx>, posted: map<nat, nat>, ring: seq<Completion>, s: SessId)
    requires RingGenuine(table, posted, ring)
    ensures FlightIds(table, s) !! CompIds(ring)
  {
    forall id | id in CompIds(ring) ensures id !in FlightIds(table, s) {
      FlightInTable(table, s, id);
    }
  }

  lemma FlightInTable(table: seq<CmdCtx>, s: SessId, id: nat)
    ensures id in FlightIds(table, s) ==> InTable(table, id)
  {
  }

  /** In flight plus unread is what the Stream waits for, and at most 16. */
  lemma StreamCounts(st: State, posted: map<nat, nat>, fences: map<nat, Fence>, stream: Stream, s: SessId)
    requires Accounting(st.inflight, st.total, st.table, st.ops, st.isr) && Ids(st.table, st.ops, st.nextId)
    requires Quiet(st) && s in st.inflight && s in st.rings && RingGenuine(st.table, posted, st.rings[s])
    requires StreamOk(FlightIds(st.table, s), st.rings[s], fences, stream)
    ensures st.inflight[s] + |st.rings[s]| == |stream.outstanding| + |PendingIoctl(stream.ioctl)|
    ensures |stream.outstanding| <= |stream.order|
    ensures st.inflight[s] + |st.rings[s]| <= QUEUE_DEPTH
  {
    var flight, ids := FlightIds(st.table, s), CompIds(st.rings[s]);
    InflightCount(st, s);
    CompCount(st.rings[s]);
    FlightApartFromRing(st.table, posted, st.rings[s], s);
    assert |flight + ids| == |flight| + |ids|;
    assert stream.outstanding !! PendingIoctl(stream.ioctl);
    assert |stream.outstanding + PendingIoctl(stream.ioctl)| == |stream.outstanding| + |PendingIoctl(stream.ioctl)|;
    ElementCount(stream.outstanding, stream.order);
  }

  // ------------------------------------------------------------ table changes --

  lemma FlightAdd(table: seq<CmdCtx>, slot: nat, e: CmdCtx, u: SessId)
    requires slot < |table| && !table[slot].valid && e.valid
    ensures FlightIds(table[slot := e], u) == if e.sess == u then FlightIds(table, u) + {e.id} else FlightIds(table, u)
  {
    var table' := table[slot := e];
    forall id | id in FlightIds(table, u) ensures id in FlightIds(table', u) {
      var i :| 0 <= i < |table| && table[i].valid && table[i].sess == u && table[i].id == id;
      assert table'[i] == table[i];
    }
    if e.sess == u { assert table'[slot] == e; }
  }

  lemma FlightClear(table: seq<CmdCtx>, ops: map<ThreadId, Op>, nextId: nat, i: nat, u: SessId)
    requires Ids(table, ops, nextId) && i < |table| && table[i].valid
    ensures FlightIds(table[i := table[i].(valid := false)], u) ==
            if table[i].sess == u then FlightIds(table, u) - {table[i].id} else FlightIds(table, u)
  {
    var table' := table[i := table[i].(valid := false)];
    forall id | id in FlightIds(table, u) && !(table[i].sess == u && id == table[i].id)
      ensures id in FlightIds(table', u)
    {
      var j :| 0 <= j < |table| && table[j].valid && table[j].sess == u && table[j].id == id;
      assert table'[j] == table[j];
    }
    forall id | id in FlightIds(table', u)
      ensures id in FlightIds(table, u) && !(table[i].sess == u && id == table[i].id)
    {
      var j :| 0 <= j < |table'| && table'[j].valid && table'[j].sess == u && table'[j].id == id;
      assert table[j] == table'[j] && j != i;
    }
  }

  // ------------------------------------------------------------------- pump --

  /** A batch makes exactly the outstanding Fences it names ready, each with its own status. */
  lemma {:induction false} PumpMeaning(batch: seq<Completion>, outstanding: set<nat>, fences: map<nat, Fence>)
    requires DistinctComps(batch) && outstanding <= fences.Keys
    ensures var (o, f) := PumpAll(batch, outstanding, fences);
            && o == outstanding - CompIds(batch)
            && f.Keys == fences.Keys
            && (forall id :: id in fences && !(id in outstanding && id in CompIds(batch)) ==> f[id] == fences[id])
            && (forall j :: 0 <= j < |batch| && batch[j].id in outstanding ==> f[batch[j].id] == Fence(true, batch[j].status))
    decreases |batch|
  {
    if batch == [] {
      assert CompIds(batch) == {};
    } else {
      var rest := batch[1..];
      var (o1, f1) := PumpOne(batch[0], outstanding, fences);
      PumpMeaning(rest, o1, f1);
      assert CompIds(batch) == {batch[0].id} + CompIds(rest) by { CompIdsHead(batch); }
      forall j | 0 <= j < |batch| && batch[j].id in outstanding
        ensures PumpAll(batch, outstanding, fences).1[batch[j].id] == Fence(true, batch[j].status)
      {
        if j == 0 {
          assert batch[0].id !in o1;
        } else {
          assert rest[j - 1] == batch[j];
          assert batch[j].id in o1;
        }
      }
    }
  }

  lemma CompIdsHead(batch: seq<Completion>)
    requires batch != []
    ensures CompIds(batch) == {batch[0].id} + CompIds(batch[1..])
  {
    var rest := batch[1..];
    forall id | id in CompIds(rest) ensures id in CompIds(batch) {
      var j :| 0 <= j < |rest| && rest[j].id == id;
      assert batch[j + 1].id == id;
    }
    forall id | id in CompIds(batch) ensures id == batch[0].id || id in CompIds(rest) {
      var j :| 0 <= j < |batch| && batch[j].id == id;
      if j > 0 { assert rest[j - 1].id == id; }
    }
  }

  lemma CompIdsSplit(ring: seq<Completion>, n: nat)
    requires n <= |ring| && DistinctComps(ring)
    ensures DistinctComps(ring[..n])
    ensures CompIds(ring) == CompIds(ring[..n]) + CompIds(ring[n..])
    ensures CompIds(ring[..n]) !! CompIds(ring[n..])
  {
    var a, b := ring[..n], ring[n..];
    forall id | id in CompIds(ring) ensures id in CompIds(a) + CompIds(b) {
      var j :| 0 <= j < |ring| && ring[j].id == id;
      if j < n { assert a[j].id == id; } else { assert b[j - n].id == id; }
    }
    forall id | id in CompIds(b) ensures id in CompIds(ring) {
      var j :| 0 <= j < |b| && b[j].id == id;
      assert ring[n + j].id == id;
    }
    forall i, j | 0 <= i < |a| && 0 <= j < |b| ensures a[i].id != b[j].id {
      assert ring[i].id != ring[n + j].id;
    }
  }

  // --------------------------------------------------------- one Stream at a time --

  lemma BookStream(flight: set<nat>, ring: seq<Completion>, fences: map<nat, Fence>, st: Stream)
    requires StreamOk(flight, ring, fences, st) && st.ioctl.Some?
    ensures StreamOk(flight, ring, fences[st.ioctl.value := Fence(false, 0)], Booked(st))
  {
  }

  /** Another Stream does not notice a Fence of a command that is not its own. */
  lemma OtherStream(flight: set<nat>, ring: seq<Completion>, fences: map<nat, Fence>, fences': map<nat, Fence>, st: Stream)
    requires StreamOk(flight, ring, fences, st) && fences.Keys <= fences'.Keys
    requires forall id :: id in st.order ==> id in fences && fences'[id] == fences[id]
    requires st.ioctl.Some? ==> st.ioctl.value !in fences'
    ensures StreamOk(flight, ring, fences', st)
  {
  }

  lemma ThrottleStream(flight: set<nat>, ring: seq<Completion>, fences: map<nat, Fence>, st: Stream)
    requires StreamOk(flight, ring, fences, st) && st.order != [] && fences[st.order[0]].ready
    ensures StreamOk(flight, ring, fences, Throttled(st)) && Throttled(st).outstanding == st.outstanding
  {
    var st' := Throttled(st);
    forall id | id in st.order && id != st.order[0] ensures id in st'.order {
      var j :| 0 <= j < |st.order| && st.order[j] == id;
      assert st'.order[j - 1] == id;
    }
  }

  lemma PumpStream(flight: set<nat>, ring: seq<Completion>, fences: map<nat, Fence>, st: Stream, n: nat)
    requires StreamOk(flight, ring, fences, st) && st.ioctl.None? && DistinctComps(ring) && n <= |ring|
    requires flight !! CompIds(ring)
    ensures CompIds(ring[..n]) <= st.outstanding <= fences.Keys
    ensures var (o, f) := PumpAll(ring[..n], st.outstanding, fences);
            StreamOk(flight, ring[n..], f, st.(outstanding := o))
  {
    var batch := ring[..n];
    CompIdsSplit(ring, n);
    PumpMeaning(batch, st.outstanding, fences);
    var (o, f) := PumpAll(batch, st.outstanding, fences);
    forall id | id in CompIds(batch) ensures id in f && f[id].ready {
      var j :| 0 <= j < |batch| && batch[j].id == id;
    }
  }

  // ------------------------------------------------------ steps of the system --

  /** What the Streams can see of the driver; ids may have been used up. */
  ghost predicate SameView(k: Kernel, k': Kernel) {
    && k'.core.closing == k.core.closing && k'.core.table == k.core.table && k'.core.rings == k.core.rings
    && k'.core.inflight == k.core.inflight && k'.core.nextId >= k.core.nextId && k'.posted == k.posted
  }

  lemma SameViewUser(y: Sys, k': Kernel)
    requires UserSide(y) && SameView(y.k, k')
    ensures UserSide(y.(k := k'))
  {
  }

  lemma PostFences(fences: map<nat, Fence>, posted: map<nat, nat>, nextId: nat, id: nat, status: nat)
    requires FencesOk(fences, posted, nextId) && id !in posted
    ensures FencesOk(fences, posted[id := status], nextId)
  {
  }

  lemma OpenStreams(table: seq<CmdCtx>, rings: map<SessId, seq<Completion>>, fences: map<nat, Fence>,
                    streams: map<SessId, Stream>, s: SessId)
    requires StreamsOk(table, rings, fences, streams) && s !in rings && FlightIds(table, s) == {}
    ensures StreamsOk(table, rings[s := []], fences, streams[s := Stream({}, [], None)])
  {
    assert CompIds([]) == {};
  }

  lemma OpenOwned(y: Sys, s: SessId)
    requires StreamsOwned(y.streams, y.submitter) && Owned(y.k.core.table, y.k.core.rings, y.submitter)
    requires RoomLeft(y.k.core.inflight, y.k.core.rings) && s !in y.k.core.rings && s !in y.k.core.inflight
    ensures StreamsOwned(y.streams[s := Stream({}, [], None)], y.submitter)
    ensures Owned(y.k.core.table, y.k.core.rings[s := []], y.submitter)
    ensures RoomLeft(y.k.core.inflight[s := 0], y.k.core.rings[s := []])
  {
  }

  lemma OpenUser(y: Sys, s: SessId)
    requires UserSide(y) && s !in y.k.core.closing && Domains(y.k.core)
    requires Live(y.k.core.closing, y.k.core.table, y.k.core.ops, y.k.core.isr)
    ensures UserSide(y.(k := y.k.(core := DoOpen(y.k.core, s)), streams := y.streams[s := Stream({}, [], None)]))
  {
    assert FlightIds(y.k.core.table, s) == {};
    OpenStreams(y.k.core.table, y.k.core.rings, y.fences, y.streams, s);
    OpenOwned(y, s);
  }

  lemma CloseUser(y: Sys, s: SessId)
    requires UserSide(y) && CanCloseBegin(y.k.core, s)
    ensures UserSide(y.(k := y.k.(core := DoCloseBegin(y.k.core, s)), streams := y.streams - {s}))
  {
  }

  lemma FinishUser(y: Sys, s: SessId)
    requires UserSide(y) && CanCloseFinish(y.k.core, s)
    ensures UserSide(y.(k := y.k.(core := DoCloseFinish(y.k.core, s))))
  {
    assert s !in y.streams;
  }

  lemma ThrottleUser(y: Sys, s: SessId)
    requires UserSide(y) && s in y.streams && y.streams[s].order != []
    requires y.streams[s].order[0] in y.fences && y.fences[y.streams[s].order[0]].ready
    ensures UserSide(y.(streams := y.streams[s := Throttled(y.streams[s])]))
  {
    ThrottleStream(FlightIds(y.k.core.table, s), y.k.core.rings[s], y.fences, y.streams[s]);
    ThrottleOwned(y.streams, y.submitter, s);
  }

  lemma ThrottleOwned(streams: map<SessId, Stream>, submitter: map<nat, SessId>, s: SessId)
    requires StreamsOwned(streams, submitter) && s in streams && streams[s].order != []
    ensures StreamsOwned(streams[s := Throttled(streams[s])], submitter)
  {
  }

  lemma BookStreams(y: Sys, s: SessId)
    requires StreamsOk(y.k.core.table, y.k.core.rings, y.fences, y.streams) && StreamsOwned(y.streams, y.submitter)
    requires s in y.streams && y.streams[s].ioctl.Some?
    ensures StreamsOk(y.k.core.table, y.k.core.rings, y.fences[y.streams[s].ioctl.value := Fence(false, 0)],
                      y.streams[s := Booked(y.streams[s])])
  {
    var id := y.streams[s].ioctl.value;
    var fences' := y.fences[id := Fence(false, 0)];
    BookStream(FlightIds(y.k.core.table, s), y.k.core.rings[s], y.fences, y.streams[s]);
    forall u | u in y.streams && u != s
      ensures StreamOk(FlightIds(y.k.core.table, u), y.k.core.rings[u], fences', y.streams[u])
    {
      OtherStream(FlightIds(y.k.core.table, u), y.k.core.rings[u], y.fences, fences', y.streams[u]);
    }
  }

  lemma BookUser(y: Sys, s: SessId)
    requires UserSide(y) && s in y.streams && y.streams[s].ioctl.Some?
    ensures UserSide(y.(streams := y.streams[s := Booked(y.streams[s])],
                        fences := y.fences[y.streams[s].ioctl.value := Fence(false, 0)]))
  {
    BookStreams(y, s);
    BookOwned(y.streams, y.submitter, s);
    BookFences(y, s);
  }

  lemma BookOwned(streams: map<SessId, Stream>, submitter: map<nat, SessId>, s: SessId)
    requires StreamsOwned(streams, submitter) && s in streams && streams[s].ioctl.Some?
    ensures StreamsOwned(streams[s := Booked(streams[s])], submitter)
  {
  }

  lemma BookFences(y: Sys, s: SessId)
    requires FencesOk(y.fences, y.k.posted, y.k.core.nextId) && StreamsOwned(y.streams, y.submitter)
    requires (forall id :: id in y.submitter ==> id <= y.k.core.nextId) && s in y.streams && y.streams[s].ioctl.Some?
    ensures FencesOk(y.fences[y.streams[s].ioctl.value := Fence(false, 0)], y.k.posted, y.k.core.nextId)
  {
  }

  lemma IoctlStreams(y: Sys, s: SessId, slot: nat, id: nat)
    requires StreamsOk(y.k.core.table, y.k.core.rings, y.fences, y.streams)
    requires BetweenCalls(y, s) && |y.streams[s].order| < QUEUE_DEPTH && id !in y.fences
    requires slot < |y.k.core.table| && !y.k.core.table[slot].valid
    ensures StreamsOk(y.k.core.table[slot := CmdCtx(true, id, s)], y.k.core.rings, y.fences,
                      y.streams[s := y.streams[s].(ioctl := Some(id))])
  {
    var table := y.k.core.table;
    var table' := table[slot := CmdCtx(true, id, s)];
    FlightAdd(table, slot, CmdCtx(true, id, s), s);
    assert StreamOk(FlightIds(table', s), y.k.core.rings[s], y.fences, y.streams[s].(ioctl := Some(id)));
    forall u | u in y.streams && u != s
      ensures StreamOk(FlightIds(table', u), y.k.core.rings[u], y.fences, y.streams[u])
    {
      FlightAdd(table, slot, CmdCtx(true, id, s), u);
    }
  }

  lemma IoctlOwned(y: Sys, s: SessId, slot: nat, id: nat)
    requires StreamsOwned(y.streams, y.submitter) && Owned(y.k.core.table, y.k.core.rings, y.submitter)
    requires id !in y.submitter && slot < |y.k.core.table| && s in y.streams
    ensures StreamsOwned(y.streams[s := y.streams[s].(ioctl := Some(id))], y.submitter[id := s])
    ensures Owned(y.k.core.table[slot := CmdCtx(true, id, s)], y.k.core.rings, y.submitter[id := s])
  {
  }

  lemma IoctlRoom(inflight: map<SessId, int>, rings: map<SessId, seq<Completion>>, s: SessId)
    requires RoomLeft(inflight, rings) && s in rings && s in inflight && |rings[s]| + inflight[s] < QUEUE_DEPTH
    ensures RoomLeft(inflight[s := inflight[s] + 1], rings)
  {
  }

  lemma IoctlFences(fences: map<nat, Fence>, posted: map<nat, nat>, nextId: nat)
    requires FencesOk(fences, posted, nextId)
    ensures FencesOk(fences, posted, nextId + 1) && nextId + 1 !in fences
  {
  }

  /** What an admitted SUBMIT changes, as the Streams see it. */
  ghost predicate IoctlEffect(y: Sys, s: SessId, d: Descriptor, y': Sys) {
    && BetweenCalls(y, s) && |y.streams[s].order| < QUEUE_DEPTH
    && FirstFree(y.k.core.table, 0).Some? && s in y.k.core.inflight && d.id == y.k.core.nextId + 1
    && y'.k.core.table == y.k.core.table[FirstFree(y.k.core.table, 0).value := CmdCtx(true, d.id, s)]
    && y'.k.core.inflight == y.k.core.inflight[s := y.k.core.inflight[s] + 1]
    && y'.k.core.closing == y.k.core.closing && y'.k.core.rings == y.k.core.rings
    && y'.k.core.nextId == d.id && y'.k.posted == y.k.posted && y'.fences == y.fences
    && y'.streams == y.streams[s := y.streams[s].(ioctl := Some(d.id))]
    && y'.submitter == y.submitter[d.id := s]
  }

  lemma IoctlHasEffect(y: Sys, s: SessId, d: Descriptor, y': Sys)
    requires SNext(y, Ioctl(s, d), y')
    ensures IoctlEffect(y, s, d, y')
  {
  }

  lemma IoctlUserStreams(y: Sys, s: SessId, d: Descriptor, y': Sys)
    requires StreamsOk(y.k.core.table, y.k.core.rings, y.fences, y.streams)
    requires FencesOk(y.fences, y.k.posted, y.k.core.nextId) && IoctlEffect(y, s, d, y')
    ensures StreamsOk(y'.k.core.table, y'.k.core.rings, y'.fences, y'.streams)
    ensures FencesOk(y'.fences, y'.k.posted, y'.k.core.nextId)
  {
    IoctlFences(y.fences, y.k.posted, y.k.core.nextId);
    IoctlStreams(y, s, FirstFree(y.k.core.table, 0).value, d.id);
  }

  lemma IoctlUserOwned(y: Sys, s: SessId, d: Descriptor, y': Sys)
    requires Owned(y.k.core.table, y.k.core.rings, y.submitter) && StreamsOwned(y.streams, y.submitter)
    requires (forall id :: id in y.submitter ==> id <= y.k.core.nextId) && IoctlEffect(y, s, d, y')
    ensures Owned(y'.k.core.table, y'.k.core.rings, y'.submitter) && StreamsOwned(y'.streams, y'.submitter)
    ensures forall id :: id in y'.submitter ==> id <= y'.k.core.nextId
  {
    IoctlOwned(y, s, FirstFree(y.k.core.table, 0).value, d.id);
  }

  lemma IoctlUser(y: Sys, s: SessId, d: Descriptor, y': Sys)
    requires UserSide(y) && IoctlEffect(y, s, d, y')
    requires s in y.k.core.rings && |y.k.core.rings[s]| + y.k.core.inflight[s] < QUEUE_DEPTH
    ensures UserSide(y')
  {
    IoctlUserStreams(y, s, d, y');
    IoctlUserOwned(y, s, d, y');
    IoctlUserRoom(y, s, d, y');
  }

  lemma IoctlUserRoom(y: Sys, s: SessId, d: Descriptor, y': Sys)
    requires IoctlEffect(y, s, d, y') && RoomLeft(y.k.core.inflight, y.k.core.rings)
    requires OneStreamPerSession(y.k.core.closing, y.streams)
    requires s in y.k.core.rings && |y.k.core.rings[s]| + y.k.core.inflight[s] < QUEUE_DEPTH
    ensures RoomLeft(y'.k.core.inflight, y'.k.core.rings) && OneStreamPerSession(y'.k.core.closing, y'.streams)
  {
    IoctlRoom(y.k.core.inflight, y.k.core.rings, s);
  }

  lemma PumpStreams(y: Sys, s: SessId, n: nat)
    requires StreamsOk(y.k.core.table, y.k.core.rings, y.fences, y.streams) && StreamsOwned(y.streams, y.submitter)
    requires Owned(y.k.core.table, y.k.core.rings, y.submitter)
    requires BetweenCalls(y, s) && s in y.k.core.rings && n <= |y.k.core.rings[s]|
    requires RingGenuine(y.k.core.table, y.k.posted, y.k.core.rings[s])
    ensures y.streams[s].outstanding <= y.fences.Keys
    ensures var (o, f) := PumpAll(y.k.core.rings[s][..n], y.streams[s].outstanding, y.fences);
            && y.fences.Keys == f.Keys
            && StreamsOk(y.k.core.table, y.k.core.rings[s := y.k.core.rings[s][n..]], f,
                         y.streams[s := y.streams[s].(outstanding := o)])
  {
    var ring, table := y.k.core.rings[s], y.k.core.table;
    var batch := ring[..n];
    var (o, f) := PumpAll(batch, y.streams[s].outstanding, y.fences);
    FlightApartFromRing(table, y.k.posted, ring, s);
    PumpStream(FlightIds(table, s), ring, y.fences, y.streams[s], n);
    CompIdsSplit(ring, n);
    PumpMeaning(batch, y.streams[s].outstanding, y.fences);
    forall u | u in y.streams && u != s ensures StreamOk(FlightIds(table, u), y.k.core.rings[u], f, y.streams[u]) {
      forall id | id in y.streams[u].order ensures id in y.fences && f[id] == y.fences[id] {
        NotInOthersBatch(y, s, n, u, id);
      }
      OtherStream(FlightIds(table, u), y.k.core.rings[u], y.fences, f, y.streams[u]);
    }
  }

  /** A command of one Stream never shows up in another Stream's ring. */
  lemma NotInOthersBatch(y: Sys, s: SessId, n: nat, u: SessId, id: nat)
    requires StreamsOwned(y.streams, y.submitter) && Owned(y.k.core.table, y.k.core.rings, y.submitter)
    requires s in y.k.core.rings && n <= |y.k.core.rings[s]| && u in y.streams && u != s && id in y.streams[u].order
    ensures id !in CompIds(y.k.core.rings[s][..n])
  {
    var j :| 0 <= j < |y.streams[u].order| && y.streams[u].order[j] == id;
    forall i | 0 <= i < n ensures y.k.core.rings[s][i].id != id {
      assert y.submitter[y.k.core.rings[s][i].id] == s;
    }
  }

  lemma PumpUser(y: Sys, s: SessId, n: nat)
    requires UserSide(y) && BetweenCalls(y, s) && CanReadSome(y.k.core, s, n)
    requires RingGenuine(y.k.core.table, y.k.posted, y.k.core.rings[s])
    ensures var (o, f) := PumpAll(y.k.core.rings[s][..n], y.streams[s].outstanding, y.fences);
            UserSide(y.(k := y.k.(core := DoReadSome(y.k.core, s, n)),
                        streams := y.streams[s := y.streams[s].(outstanding := o)], fences := f))
  {
    PumpStreams(y, s, n);
    PumpFences(y, s, n);
    PumpOwned(y.k.core.table, y.k.core.rings, y.submitter, s, n);
    PumpRest(y, s, n, PumpAll(y.k.core.rings[s][..n], y.streams[s].outstanding, y.fences).0);
  }

  lemma PumpRest(y: Sys, s: SessId, n: nat, o: set<nat>)
    requires OneStreamPerSession(y.k.core.closing, y.streams) && StreamsOwned(y.streams, y.submitter)
    requires RoomLeft(y.k.core.inflight, y.k.core.rings) && s in y.streams && s in y.k.core.rings && n <= |y.k.core.rings[s]|
    ensures var streams := y.streams[s := y.streams[s].(outstanding := o)];
            OneStreamPerSession(y.k.core.closing, streams) && StreamsOwned(streams, y.submitter)
    ensures RoomLeft(y.k.core.inflight, y.k.core.rings[s := y.k.core.rings[s][n..]])
  {
  }

  lemma PumpFences(y: Sys, s: SessId, n: nat)
    requires FencesOk(y.fences, y.k.posted, y.k.core.nextId) && s in y.streams && y.streams[s].outstanding <= y.fences.Keys
    requires s in y.k.core.rings && n <= |y.k.core.rings[s]| && RingGenuine(y.k.core.table, y.k.posted, y.k.core.rings[s])
    ensures FencesOk(PumpAll(y.k.core.rings[s][..n], y.streams[s].outstanding, y.fences).1, y.k.posted, y.k.core.nextId)
  {
    var batch := y.k.core.rings[s][..n];
    PumpMeaning(batch, y.streams[s].outstanding, y.fences);
    var f := PumpAll(batch, y.streams[s].outstanding, y.fences).1;
    forall id | id in f ensures id <= y.k.core.nextId && (f[id].ready ==> id in y.k.posted && y.k.posted[id] == f[id].status) {
      if id in y.streams[s].outstanding && id in CompIds(batch) {
        var j :| 0 <= j < |batch| && batch[j].id == id;
      }
    }
  }

  lemma PumpOwned(table: seq<CmdCtx>, rings: map<SessId, seq<Completion>>, submitter: map<nat, SessId>, s: SessId, n: nat)
    requires Owned(table, rings, submitter) && s in rings && n <= |rings[s]|
    ensures Owned(table, rings[s := rings[s][n..]], submitter)
  {
    var rings': map<SessId, seq<Completion>> := rings[s := rings[s][n..]];
    forall u, j | u in rings' && 0 <= j < |rings'[u]| ensures rings'[u][j].id in submitter && submitter[rings'[u][j].id] == u {
      if u == s { assert rings[s][n..][j] == rings[s][n + j]; }
    }
  }

  lemma RouteOwned(table: seq<CmdCtx>, rings: map<SessId, seq<Completion>>, submitter: map<nat, SessId>, i: nat, c: Completion)
    requires Owned(table, rings, submitter) && i < |table| && table[i].valid && table[i].id == c.id && table[i].sess in rings
    ensures var s := table[i].sess;
            Owned(table[i := table[i].(valid := false)], rings[s := PushRing(rings[s], c)], submitter)
  {
    var s := table[i].sess;
    var rings': map<SessId, seq<Completion>> := rings[s := PushRing(rings[s], c)];
    forall u, j | u in rings' && 0 <= j < |rings'[u]| ensures rings'[u][j].id in submitter && submitter[rings'[u][j].id] == u {
      if u == s && j < |rings'[s]| - 1 {
        var shift := if |rings[s]| >= COMP_RING_SIZE then 1 else 0;
        assert rings'[s][j] == rings[s][j + shift];
      }
    }
  }

  lemma CompIdsAppend(ring: seq<Completion>, c: Completion)
    ensures CompIds(ring + [c]) == CompIds(ring) + {c.id}
  {
    var r := ring + [c];
    forall id | id in CompIds(ring) ensures id in CompIds(r) {
      var j :| 0 <= j < |ring| && ring[j].id == id;
      assert r[j].id == id;
    }
    assert r[|ring|].id == c.id;
  }

  lemma RouteStreams(y: Sys, c: Completion, i: nat)
    requires StreamsOk(y.k.core.table, y.k.core.rings, y.fences, y.streams) && Ids(y.k.core.table, y.k.core.ops, y.k.core.nextId)
    requires i < |y.k.core.table| && y.k.core.table[i].valid && y.k.core.table[i].id == c.id
    requires var s := y.k.core.table[i].sess; s in y.k.core.rings && |y.k.core.rings[s]| < COMP_RING_SIZE
    ensures var s := y.k.core.table[i].sess;
            StreamsOk(y.k.core.table[i := y.k.core.table[i].(valid := false)],
                      y.k.core.rings[s := PushRing(y.k.core.rings[s], c)], y.fences, y.streams)
  {
    var table, s := y.k.core.table, y.k.core.table[i].sess;
    var table' := table[i := table[i].(valid := false)];
    CompIdsAppend(y.k.core.rings[s], c);
    forall u | u in y.streams
      ensures u != s ==> StreamOk(FlightIds(table', u), y.k.core.rings[u], y.fences, y.streams[u])
      ensures u == s ==> StreamOk(FlightIds(table', s), PushRing(y.k.core.rings[s], c), y.fences, y.streams[s])
    {
      FlightClear(table, y.k.core.ops, y.k.core.nextId, i, u);
      if u == s { assert c.id in FlightIds(table, s); }
    }
  }

  lemma RouteUser(y: Sys, c: Completion, i: nat)
    requires UserSide(y) && Ids(y.k.core.table, y.k.core.ops, y.k.core.nextId)
    requires FindId(y.k.core.table, c.id, 0) == Some(i)
    requires var s := y.k.core.table[i].sess; s in y.k.core.rings && s in y.k.core.inflight && y.k.core.inflight[s] >= 0
    ensures UserSide(y.(k := y.k.(core := RouteCore(y.k.core, c))))
  {
    RouteOwned(y.k.core.table, y.k.core.rings, y.submitter, i, c);
    RouteStreams(y, c, i);
  }

  lemma DeviceUser(y: Sys, kstep: KStep, k': Kernel)
    requires SInv(y) && (kstep.Fetch? || kstep.Post? || kstep.Route?) && KNext(y.k, kstep, k')
    ensures UserSide(y.(k := k'))
  {
    match kstep
    case Fetch => SameViewUser(y, k');
    case Post(id, status) =>
      SameViewUser(y, k'.(posted := y.k.posted));
      PostFences(y.fences, y.k.posted, y.k.core.nextId, id, status);
    case Route =>
      HeadIsKnown(y.k);
      var i := FindId(y.k.core.table, y.k.cq[0].id, 0).value;
      InflightCount(y.k.core, y.k.core.table[i].sess);
      RouteUser(y, y.k.cq[0], i);
      SameViewUser(y.(k := y.k.(core := RouteCore(y.k.core, y.k.cq[0]))), k');
  }

  lemma IoctlStep(y: Sys, s: SessId, d: Descriptor, y': Sys)
    requires SInv(y) && SNext(y, Ioctl(s, d), y')
    ensures UserSide(y')
  {
    IoctlHasEffect(y, s, d, y');
    StreamCounts(y.k.core, y.k.posted, y.fences, y.streams[s], s);
    IoctlUser(y, s, d, y');
  }

  /** The kernel's part of a step, if it has one. */
  function KernelStep(step: SStep): Option<KStep> {
    match step
    case OpenStream(s) => Some(KStep.Session(Step.Open(s)))
    case Alloc(step) => Some(KStep.Session(step))
    case CloseStream(s) => Some(KStep.Session(Step.CloseBegin(s)))
    case Finish(s) => Some(KStep.Session(Step.CloseFinish(s)))
    case Throttle(s) => None
    case Ioctl(s, desc) => Some(KStep.Submit(s, desc))
    case IoctlInterrupted(s, desc) => Some(KStep.Interrupted(s, desc))
    case Book(s) => None
    case Pump(s, n) => Some(KStep.ReadSome(s, n))
    case Device(kstep) => Some(kstep)
  }

  /** Every step of the system is a step of the kernel or leaves the kernel alone. */
  lemma KernelStepTaken(y: Sys, step: SStep, y': Sys)
    requires SNext(y, step, y')
    ensures KernelStep(step).Some? ==> KNext(y.k, KernelStep(step).value, y'.k)
    ensures KernelStep(step).None? ==> y'.k == y.k
  {
  }

  lemma SStepKernel(y: Sys, step: SStep, y': Sys)
    requires KInv(y.k) && SNext(y, step, y')
    ensures KInv(y'.k)
  {
    KernelStepTaken(y, step, y');
    if KernelStep(step).Some? { KStepInv(y.k, KernelStep(step).value, y'.k); }
  }

  lemma OpenStep(y: Sys, s: SessId, y': Sys)
    requires UserSide(y) && Domains(y.k.core) && Live(y.k.core.closing, y.k.core.table, y.k.core.ops, y.k.core.isr)
    requires SNext(y, OpenStream(s), y')
    ensures UserSide(y')
  {
    OpenUser(y, s);
    assert y'.k == y.k.(core := DoOpen(y.k.core, s));
  }

  lemma AllocStep(y: Sys, step: Step, y': Sys)
    requires UserSide(y) && SNext(y, Alloc(step), y')
    ensures UserSide(y')
  {
    SameViewUser(y, y'.k);
  }

  lemma InterruptedStep(y: Sys, s: SessId, d: Descriptor, y': Sys)
    requires UserSide(y) && SNext(y, IoctlInterrupted(s, d), y')
    ensures UserSide(y')
  {
    SameViewUser(y, y'.k);
  }

  lemma CloseStep(y: Sys, s: SessId, y': Sys)
    requires UserSide(y) && SNext(y, CloseStream(s), y')
    ensures UserSide(y')
  {
    CloseUser(y, s);
    assert y'.k == y.k.(core := DoCloseBegin(y.k.core, s));
  }

  lemma FinishStep(y: Sys, s: SessId, y': Sys)
    requires UserSide(y) && SNext(y, Finish(s), y')
    ensures UserSide(y')
  {
    FinishUser(y, s);
    assert y'.k == y.k.(core := DoCloseFinish(y.k.core, s));
  }

  lemma PumpStep(y: Sys, s: SessId, n: nat, y': Sys)
    requires UserSide(y) && RingsGenuine(y.k.core.table, y.k.posted, y.k.core.rings) && SNext(y, Pump(s, n), y')
    ensures UserSide(y')
  {
    PumpUser(y, s, n);
  }

  lemma SStepUser(y: Sys, step: SStep, y': Sys)
    requires SInv(y) && SNext(y, step, y')
    ensures UserSide(y')
  {
    match step
    case OpenStream(s) => OpenStep(y, s, y');
    case Alloc(step) => AllocStep(y, step, y');
    case CloseStream(s) => CloseStep(y, s, y');
    case Finish(s) => FinishStep(y, s, y');
    case Throttle(s) => ThrottleUser(y, s);
    case Ioctl(s, desc) => IoctlStep(y, s, desc, y');
    case IoctlInterrupted(s, desc) => InterruptedStep(y, s, desc, y');
    case Book(s) => BookUser(y, s);
    case Pump(s, n) => PumpStep(y, s, n, y');
    case Device(kstep) => DeviceUser(y, kstep, y'.k);
  }

  /** The joint invariant is kept by every step. */
  lemma SStepInv(y: Sys, step: SStep, y': Sys)
    requires SInv(y) && SNext(y, step, y')
    ensures SInv(y')
  {
    SStepKernel(y, step, y');
    SStepUser(y, step, y');
  }
}
