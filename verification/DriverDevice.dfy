/**
 The driver as it is written: fixed arrays that are scanned and updated in place, and 32-bit ring
 counters.  Each operation runs to its end before the next one starts (the serial grain).  Every
 call either changes nothing or takes steps of the kernel (`KNext`; the handler takes several),
 so `KStepInv` and the results about kernel runs apply to sequences of these calls.
 */
module DriverDevice {
  import opened Basics
  import opened DriverCore
  import opened DriverInvariants
  import opened SerialDriver
  import opened SerialInvariants
  import opened DriverGuarantees
  import Rings

  // --------------------------------------------------------- completion ring --

  /** A session's completion ring: 64 slots and two free-running 32-bit counters. */
  class CompletionRing {
    const slots: array<Completion>
    var head: nat
    var tail: nat
    /** The unread completions, oldest first. */
    ghost var unread: seq<Completion>

    ghost predicate Valid()
      reads this, slots
    {
      slots.Length == COMP_RING_SIZE && Rings.Holds(slots[..], head, tail, unread)
    }

    constructor ()
      ensures Valid() && fresh(slots) && unread == []
    {
      head, tail, unread := 0, 0, [];
      slots := new Completion[COMP_RING_SIZE](i => Completion(0, 0));
    }

    /** The interrupt handler's write: when 64 completions are unread, the oldest is dropped. */
    method Deliver(comp: Completion)
      requires Valid()
      modifies this`head, this`tail, this`unread, slots
      ensures Valid() && unread == PushRing(old(unread), comp)
    {
      Rings.Count(slots[..], head, tail, unread);
      if (tail - head) % Rings.U32 >= COMP_RING_SIZE {
        Rings.Pop(slots[..], head, tail, unread);
        head, unread := (head + 1) % Rings.U32, unread[1..];
      }
      Rings.Push(slots[..], head, tail, unread, comp);
      slots[tail % COMP_RING_SIZE] := comp;
      tail, unread := (tail + 1) % Rings.U32, unread + [comp];
    }

    /** Pops the oldest unread completion, if any. */
    method TakeOne() returns (c: Option<Completion>)
      requires Valid()
      modifies this`head, this`unread
      ensures Valid()
      ensures old(unread) == [] ==> c == None && unread == []
      ensures old(unread) != [] ==> c == Some(old(unread)[0]) && unread == old(unread)[1..]
    {
      Rings.Count(slots[..], head, tail, unread);
      if head == tail {
        return None;
      }
      Rings.Pop(slots[..], head, tail, unread);
      c := Some(slots[head % COMP_RING_SIZE]);
      head, unread := (head + 1) % Rings.U32, unread[1..];
    }

    /** Up to `want` completions, oldest first; the rest stays. */
    method Take(want: nat) returns (batch: seq<Completion>)
      requires Valid()
      modifies this`head, this`unread
      ensures Valid()
      ensures var n := if want < |old(unread)| then want else |old(unread)|;
              batch == old(unread)[..n] && unread == old(unread)[n..]
    {
      ghost var all := unread;
      batch := [];
      while |batch| < want
        invariant Valid() && |batch| <= want && |batch| <= |all|
        invariant batch == all[..|batch|] && unread == all[|batch|..]
      {
        var c := TakeOne();
        if c == None {
          break;
        }
        batch := batch + [c.value];
      }
    }
  }

  /** The completion rings of the live sessions, by the session's address. */
  class SessionRings {
    var rings: map<SessId, CompletionRing>
    /** What the rings hold. */
    ghost var contents: map<SessId, seq<Completion>>
    ghost var repr: set<object>

    ghost predicate Valid()
      reads this, repr
    {
      && this in repr && contents.Keys == rings.Keys
      && (forall s :: s in rings ==>
            rings[s] in repr && rings[s].slots in repr && rings[s].Valid() && rings[s].unread == contents[s])
      && (forall s, u :: s in rings && u in rings && s != u ==> rings[s] != rings[u] && rings[s].slots != rings[u].slots)
    }

    constructor ()
      ensures Valid() && fresh(repr) && contents == map[]
    {
      rings, contents, repr := map[], map[], {this};
    }

    method Add(s: SessId)
      requires Valid()
      modifies this
      ensures Valid() && fresh(repr - old(repr)) && contents == old(contents)[s := []]
    {
      var ring := new CompletionRing();
      rings, contents := rings[s := ring], contents[s := []];
      repr := repr + {ring, ring.slots};
    }

    method Remove(s: SessId)
      requires Valid()
      modifies this
      ensures Valid() && repr == old(repr) && contents == old(contents) - {s}
    {
      rings, contents := rings - {s}, contents - {s};
    }

    method Deliver(s: SessId, comp: Completion)
      requires Valid() && s in contents
      modifies repr
      ensures Valid() && repr == old(repr) && contents == old(contents)[s := PushRing(old(contents)[s], comp)]
    {
      var ring := rings[s];
      ring.Deliver(comp);
      contents := contents[s := ring.unread];
    }

    method Take(s: SessId, want: nat) returns (batch: seq<Completion>)
      requires Valid() && s in contents
      modifies repr
      ensures Valid() && repr == old(repr)
      ensures var all := old(contents)[s]; var n := if want < |all| then want else |all|;
              batch == all[..n] && contents == old(contents)[s := all[n..]]
    {
      var ring := rings[s];
      batch := ring.Take(want);
      contents := contents[s := ring.unread];
    }

    method IsEmpty(s: SessId) returns (r: bool)
      requires Valid() && s in contents
      ensures r <==> contents[s] == []
    {
      r := rings[s].head == rings[s].tail;
      Rings.Count(rings[s].slots[..], rings[s].head, rings[s].tail, rings[s].unread);
    }
  }

  // ----------------------------------------------------------------- device --

  datatype SubmitResult = Submitted(id: nat) | Refused(check: Check) | Blocked

  class DmaDevice {
    const table: array<CmdCtx>
    const buffers: array<BufEntry>
    const sqBuf: array<Descriptor>
    const cqBuf: array<Completion>
    var sqTail: nat
    var cqHead: nat
    /** The device's completion tail register. */
    var regCqTail: nat
    var total: int
    var active: int
    var nextId: nat
    /** The fields of the live sessions. */
    var inflight: map<SessId, int>
    var owned: map<SessId, set<nat>>
    const rings: SessionRings
    /** The state of driver and device in the model. */
    ghost var k: Kernel

    /** All tables and counters are those of the model, except that the command table is `t`. */
    ghost predicate LinkedExcept(t: seq<CmdCtx>)
      reads this, table, buffers, sqBuf, cqBuf
    {
      && table[..] == t && buffers[..] == k.core.buffers
      && sqBuf[..] == k.hw.sqBuf && cqBuf[..] == k.hw.cqBuf && sqBuf.Length == cqBuf.Length == QUEUE_DEPTH
      && sqTail == k.hw.sqTail && cqHead == k.hw.cqHead && regCqTail == k.hw.cqTail
      && total == k.core.total && active == k.core.active && nextId == k.core.nextId
      && inflight == k.core.inflight && owned == k.core.owned
    }

    ghost predicate TablesLinked()
      reads this, table, buffers, sqBuf, cqBuf
    {
      LinkedExcept(k.core.table)
    }

    ghost predicate Linked()
      reads this, table, buffers, sqBuf, cqBuf, rings
    {
      TablesLinked() && rings.contents == k.core.rings
    }

    /** The rings are well formed and share no memory with the device's own tables. */
    ghost predicate Attached()
      reads rings, rings.repr
    {
      rings.Valid() && {this, table, buffers, sqBuf, cqBuf} !! rings.repr
    }

    /** The driver after probe: empty tables, rings and counters in agreement with the device. */
    constructor ()
      ensures Linked() && Attached() && fresh(rings.repr) && fresh(table) && fresh(buffers) && fresh(sqBuf) && fresh(cqBuf)
      ensures k.core == Initial() && k.sq == [] && k.executing == map[] && k.cq == [] && k.posted == map[]
      ensures k.hw.sqHead == k.hw.sqTail == 0 && k.hw.cqHead == k.hw.cqTail == 0
    {
      table := new CmdCtx[MAX_INFLIGHT_CMDS](i => FreeEntry);
      buffers := new BufEntry[MAX_BUFFERS](i => FreeBuffer);
      sqBuf := new Descriptor[QUEUE_DEPTH](i => Descriptor(0, 0, 0, 0, 0, 0));
      cqBuf := new Completion[QUEUE_DEPTH](i => Completion(0, 0));
      sqTail, cqHead, regCqTail := 0, 0, 0;
      total, active, nextId := 0, 0, 1;
      inflight, owned := map[], map[];
      rings := new SessionRings();
      new;
      k := Kernel(Initial(), Hw(sqBuf[..], 0, 0, cqBuf[..], 0, 0), [], map[], [], map[]);
    }

    // ------------------------------------------------------------- scans --

    method FindFree() returns (slot: Option<nat>)
      ensures slot == FirstFree(table[..], 0)
    {
      for j := 0 to table.Length
        invariant FirstFree(table[..], 0) == FirstFree(table[..], j)
      {
        if !table[j].valid {
          return Some(j);
        }
      }
      return None;
    }

    method FindCommand(id: nat) returns (slot: Option<nat>)
      ensures slot == FindId(table[..], id, 0)
    {
      for i := 0 to table.Length
        invariant FindId(table[..], id, 0) == FindId(table[..], id, i)
      {
        if table[i].valid && table[i].id == id {
          return Some(i);
        }
      }
      return None;
    }

    method FindFreeBuffer() returns (slot: Option<nat>)
      ensures slot == FirstFreeBuffer(buffers[..], 0)
    {
      for i := 0 to buffers.Length
        invariant FirstFreeBuffer(buffers[..], 0) == FirstFreeBuffer(buffers[..], i)
      {
        if !buffers[i].inUse {
          return Some(i);
        }
      }
      return None;
    }

    // ------------------------------------------------------------ submit --

    /** The checks of SUBMIT on the buffer table. */
    method CheckBuffers(s: SessId, req: Request, id: nat) returns (c: Check)
      ensures c == Validate(buffers[..], s, req, id)
    {
      if req.srcBuf >= buffers.Length || !buffers[req.srcBuf].inUse
         || req.dstBuf >= buffers.Length || !buffers[req.dstBuf].inUse {
        return InvalidArgument;
      }
      var src, dst := buffers[req.srcBuf], buffers[req.dstBuf];
      if src.owner != s || dst.owner != s {
        return NotPermitted;
      }
      if req.srcOff + req.len > src.size || req.dstOff + req.len > dst.size {
        return InvalidArgument;
      }
      var src2 := 0;
      if NeedsSrc2(req.opcode) {
        if req.src2Buf >= buffers.Length || !buffers[req.src2Buf].inUse {
          return InvalidArgument;
        }
        var b := buffers[req.src2Buf];
        if b.owner != s {
          return NotPermitted;
        }
        if req.src2Off + req.len > b.size {
          return InvalidArgument;
        }
        src2 := b.base + req.src2Off;
      }
      return Ok(Descriptor(id, req.opcode, req.len, src.base + req.srcOff, dst.base + req.dstOff, src2));
    }

    /** Registration, counting and the descriptor write of an admitted command. */
    method Admit(s: SessId, desc: Descriptor, slot: nat)
      requires TablesLinked() && s in inflight && FirstFree(table[..], 0) == Some(slot)
      modifies this`sqTail, this`total, this`nextId, this`k, table, sqBuf, this`inflight
      ensures TablesLinked() && k == DoSubmit(old(k), s, desc)
    {
      nextId := desc.id;
      table[slot] := CmdCtx(true, desc.id, s);
      inflight := inflight[s := inflight[s] + 1];
      total := total + 1;
      sqBuf[sqTail % QUEUE_DEPTH] := desc;
      sqTail := (sqTail + 1) % Rings.U32;
      k := DoSubmit(k, s, desc);
    }

    /** One SUBMIT: refused with the error of the first check that fails, admitted, or blocked
        by the admission test and then interrupted. */
    method TrySubmit(s: SessId, req: Request) returns (r: SubmitResult)
      requires TablesLinked() && s in inflight
      modifies this`sqTail, this`total, this`nextId, this`k, table, sqBuf, this`inflight
      ensures TablesLinked() && SubmitOutcomeIs(old(k), s, req, r, k)
    {
      var c := CheckBuffers(s, req, nextId + 1);
      if !c.Ok? {
        return Refused(c);
      }
      var quota := Quota(active);
      if total < QUEUE_DEPTH && inflight[s] < quota {
        var slot := FindFree();
        if slot.Some? {
          Admit(s, c.desc, slot.value);
          return Submitted(nextId);
        }
      }
      nextId := nextId + 1;
      k := k.(core := IdSpent(k.core, c.desc));
      return Blocked;
    }

    method Submit(s: SessId, req: Request) returns (r: SubmitResult)
      requires Linked() && Attached() && s in inflight && IsOpen(k.core, s)
      modifies this`sqTail, this`total, this`nextId, this`k, table, sqBuf, this`inflight
      ensures Linked() && Attached() && SubmitOutcomeIs(old(k), s, req, r, k)
      ensures r.Refused? || KNext(old(k), SubmitStep(old(k), s, req), k)
      ensures r.Refused? <==> !ValidRequest(old(k).core.buffers, s, req)
      ensures r.Submitted? <==>
                && ValidRequest(old(k).core.buffers, s, req)
                && old(total) < 16 && FairShare(old(inflight)[s], old(active)) && HasFreeSlot(old(k).core.table)
      ensures r.Submitted? ==> EnqueuedFor(old(k), s, req, r.id, k)
    {
      ghost var k0 := k;
      r := TrySubmit(s, req);
      SubmitIsStep(k0, s, req, r, k);
      SubmitMeaning(k0, s, req, r, k);
    }

    // --------------------------------------------------------- completion --

    /** The part under the command lock: find the owner of the completion and free the entry. */
    method Claim() returns (comp: Completion, owner: Option<SessId>)
      requires TablesLinked() && Attached() && CanRoute(k)
      modifies table
      ensures LinkedExcept(DoRoute(k).core.table) && Attached() && comp == HeadCompletion(k) && owner == Owner(k)
    {
      comp := cqBuf[cqHead % QUEUE_DEPTH];
      var slot := FindCommand(comp.id);
      if slot.None? {
        return comp, None;
      }
      owner := Some(table[slot.value].sess);
      table[slot.value] := table[slot.value].(valid := false);
    }

    method DeliverTo(owner: Option<SessId>, comp: Completion, ghost t: seq<CmdCtx>)
      requires LinkedExcept(t) && Attached() && (owner.Some? ==> owner.value in rings.contents)
      modifies rings.repr
      ensures LinkedExcept(t) && Attached() && rings.repr == old(rings.repr)
      ensures rings.contents == if owner.None? then old(rings.contents)
                                else old(rings.contents)[owner.value := PushRing(old(rings.contents)[owner.value], comp)]
    {
      if owner.Some? {
        rings.Deliver(owner.value, comp);
      }
    }

    /** The two decrements, if the completion was known, and the step to the next entry. */
    method Uncount(owner: Option<SessId>)
      requires CanRoute(k) && LinkedExcept(DoRoute(k).core.table) && Attached()
      requires owner == Owner(k)
      modifies this`cqHead, this`total, this`inflight, this`k
      ensures TablesLinked() && Attached() && k == DoRoute(old(k))
    {
      if owner.Some? {
        inflight := inflight[owner.value := inflight[owner.value] - 1];
        total := total - 1;
      }
      cqHead := (cqHead + 1) % Rings.U32;
      k := DoRoute(k);
    }

    /** Routes the completion at the head of the completion queue to its session. */
    method RouteOne()
      requires Linked() && Attached() && CanRoute(k)
      modifies this`cqHead, this`total, this`inflight, this`k, table, rings.repr
      ensures Linked() && Attached() && rings.repr == old(rings.repr)
      ensures k == DoRoute(old(k)) && KNext(old(k), KStep.Route, k)
    {
      var comp, owner := Claim();
      DeliverTo(owner, comp, DoRoute(k).core.table);
      Uncount(owner);
    }

    /** The interrupt handler: routes everything up to the device's tail. */
    method IrqHandler()
      requires Linked() && Attached() && KInv(k)
      modifies this`cqHead, this`total, this`inflight, this`k, table, rings.repr
      ensures Linked() && Attached() && KInv(k) && k == RouteAll(old(k))
      ensures cqHead == regCqTail == old(regCqTail)
    {
      while cqHead != regCqTail
        invariant Linked() && Attached() && rings.repr == old(rings.repr)
        invariant KInv(k) && RouteAll(k) == RouteAll(old(k)) && regCqTail == old(regCqTail)
        decreases |k.cq|
      {
        HeadCanBeRouted(k);
        RouteOne();
      }
      CaughtUp(k);
    }

    method TakeRing(s: SessId, want: nat) returns (batch: seq<Completion>)
      requires TablesLinked() && Attached() && s in rings.contents
      modifies rings.repr
      ensures TablesLinked() && Attached()
      ensures var all := old(rings.contents)[s]; var n := if want < |all| then want else |all|;
              batch == all[..n] && rings.contents == old(rings.contents)[s := all[n..]]
    {
      batch := rings.Take(s, want);
    }

    method TakeCompletions(s: SessId, want: nat) returns (batch: seq<Completion>)
      requires Linked() && Attached() && s in rings.contents && IsOpen(k.core, s) && rings.contents[s] != [] && want > 0
      modifies this`k, rings.repr
      ensures Linked() && Attached()
      ensures 0 < |batch| == (if want < |old(k).core.rings[s]| then want else |old(k).core.rings[s]|)
      ensures KNext(old(k), KStep.ReadSome(s, |batch|), k) && TakenFrom(old(k).core.rings, s, batch, k.core.rings)
    {
      ghost var k0 := k;
      batch := TakeRing(s, want);
      ReadIsStep(k0, s, want, batch, rings.contents);
      AdvanceModel(k0.(core := DoReadSome(k0.core, s, |batch|)));
    }

    /** The model takes a step that concerns the rings only. */
    ghost method AdvanceModel(k': Kernel)
      requires TablesLinked() && Attached() && k' == k.(core := k.core.(rings := k'.core.rings))
      modifies this`k
      ensures TablesLinked() && Attached() && k == k'
    {
      k := k';
    }

    /** A read never blocks; it takes what fits and is there. */
    method Read(s: SessId, want: nat) returns (r: ReadResult)
      requires Linked() && Attached() && s in rings.contents && IsOpen(k.core, s)
      modifies this`k, rings.repr
      ensures Linked() && Attached()
      ensures r.Again? <==> old(k).core.rings[s] == []
      ensures r.TooSmall? <==> old(k).core.rings[s] != [] && want == 0
      ensures r.Data? ==>
                && 0 < |r.batch| == (if want < |old(k).core.rings[s]| then want else |old(k).core.rings[s]|)
                && TakenFrom(old(k).core.rings, s, r.batch, k.core.rings)
      ensures if r.Data? then KNext(old(k), KStep.ReadSome(s, |r.batch|), k) else k == old(k)
    {
      var empty := rings.IsEmpty(s);
      if empty {
        return Again;
      }
      if want == 0 {
        return TooSmall;
      }
      var batch := TakeCompletions(s, want);
      return Data(batch);
    }

    // ----------------------------------------------------------- sessions --

    method OpenTables(s: SessId)
      requires TablesLinked()
      modifies this`active, this`inflight, this`owned, this`k
      ensures TablesLinked() && k == old(k).(core := DoOpen(old(k).core, s))
    {
      inflight, owned := inflight[s := 0], owned[s := {}];
      active := active + 1;
      k := k.(core := DoOpen(k.core, s));
    }

    method Open(s: SessId)
      requires Linked() && Attached() && s !in k.core.closing
      modifies this`active, this`inflight, this`owned, this`k, rings
      ensures Linked() && Attached() && fresh(rings.repr - old(rings.repr))
      ensures k == old(k).(core := DoOpen(old(k).core, s)) && KNext(old(k), KStep.Session(Step.Open(s)), k)
    {
      rings.Add(s);
      OpenTables(s);
    }

    /** The checks in the order of their error codes, and the entry in both tables. */
    method AllocTables(s: SessId, size: nat, base: Option<nat>) returns (r: AllocResult)
      requires TablesLinked() && Attached() && s in owned
      modifies this`owned, this`k, buffers
      ensures TablesLinked() && Attached() && AllocOutcomeIs(old(k), s, size, base, r, k)
    {
      if size == 0 || size > BUFFER_ALLOC_MAX {
        return AllocInvalid;
      }
      if |owned[s]| >= DEFAULT_BUFFER_QUOTA {
        return AllocOverQuota;
      }
      var slot := FindFreeBuffer();
      if slot.None? {
        return AllocNoSpace;
      }
      if base.None? {
        return AllocNoMemory;
      }
      buffers[slot.value] := BufEntry(true, s, base.value, PageAlign(size));
      owned := owned[s := owned[s] + {slot.value}];
      k := k.(core := DoAlloc(k.core, s, size, base.value));
      return AllocOk(slot.value);
    }

    /** `base` is the memory the coherent allocator returns, if it has any; it is not in use. */
    method BufferAlloc(s: SessId, size: nat, base: Option<nat>) returns (r: AllocResult)
      requires Linked() && Attached() && s in owned && IsOpen(k.core, s)
      requires base.Some? ==> FreshMemory(k.core, base.value, PageAlign(size))
      modifies this`owned, this`k, buffers
      ensures Linked() && Attached() && AllocOutcomeIs(old(k), s, size, base, r, k)
      ensures if r.AllocOk? then base.Some? && KNext(old(k), KStep.Session(Step.BufferAlloc(s, size, base.value)), k)
              else k == old(k)
      ensures r.AllocOk? <==> CanAlloc(old(k).core, s, size) && base.Some?
      ensures r.AllocOk? ==> HoldsBuffer(old(k).core, s, size, base.value, r.slot, k.core)
    {
      ghost var k0 := k;
      r := AllocTables(s, size, base);
      AllocIsStep(k0, s, size, base, r, k);
    }

    /** The start of release: the session no longer counts for the fair share. */
    method ReleaseBegin(s: SessId)
      requires Linked() && Attached() && CanCloseBegin(k.core, s)
      modifies this`active, this`k
      ensures Linked() && Attached()
      ensures KNext(old(k), KStep.Session(Step.CloseBegin(s)), k)
      ensures k == old(k).(core := DoCloseBegin(old(k).core, s))
    {
      active := active - 1;
      k := k.(core := DoCloseBegin(k.core, s));
    }

    /** The sweep over the session's buffers. */
    method FreeOwned(mine: set<nat>)
      modifies buffers
      ensures buffers[..] == FreeSlots(old(buffers[..]), mine)
    {
      ghost var was := buffers[..];
      for i := 0 to buffers.Length
        invariant forall j :: 0 <= j < buffers.Length ==>
                    buffers[j] == if j < i && j in mine then was[j].(inUse := false, owner := 0) else was[j]
      {
        if i in mine {
          buffers[i] := buffers[i].(inUse := false, owner := 0);
        }
      }
    }

    method RemoveRing(s: SessId)
      requires TablesLinked() && Attached()
      modifies rings
      ensures TablesLinked() && Attached() && rings.repr == old(rings.repr) && rings.contents == old(rings.contents) - {s}
    {
      rings.Remove(s);
    }

    method CloseTables(s: SessId)
      requires TablesLinked() && Attached() && CanCloseFinish(k.core, s)
      modifies this`inflight, this`owned, this`k, buffers
      ensures TablesLinked() && Attached() && k == old(k).(core := DoCloseFinish(old(k).core, s))
    {
      FreeOwned(owned[s]);
      inflight, owned := inflight - {s}, owned - {s};
      k := k.(core := DoCloseFinish(k.core, s));
    }

    /** The end of release, when no command of the session is in flight any more. */
    method ReleaseFinish(s: SessId)
      requires Linked() && Attached() && CanCloseFinish(k.core, s)
      modifies this`inflight, this`owned, this`k, buffers, rings
      ensures Linked() && Attached() && rings.repr == old(rings.repr)
      ensures k == old(k).(core := DoCloseFinish(old(k).core, s)) && KNext(old(k), KStep.Session(Step.CloseFinish(s)), k)
    {
      CloseTables(s);
      RemoveRing(s);
    }
  }

  // -------------------------------------------------------- specification --

  /** What was read and what is left make up the session's ring; other rings are unchanged. */
  ghost predicate TakenFrom(rings: map<SessId, seq<Completion>>, s: SessId, batch: seq<Completion>,
                            rings': map<SessId, seq<Completion>>)
  {
    && rings'.Keys == rings.Keys && s in rings && rings[s] == batch + rings'[s]
    && forall u :: u in rings && u != s ==> rings'[u] == rings[u]
  }

  lemma ReadIsStep(k: Kernel, s: SessId, want: nat, batch: seq<Completion>, rings': map<SessId, seq<Completion>>)
    requires IsOpen(k.core, s) && s in k.core.rings && k.core.rings[s] != [] && want > 0
    requires var ring := k.core.rings[s]; var n := if want < |ring| then want else |ring|;
             batch == ring[..n] && rings' == k.core.rings[s := ring[n..]]
    ensures 0 < |batch| == (if want < |k.core.rings[s]| then want else |k.core.rings[s]|)
    ensures var k' := k.(core := DoReadSome(k.core, s, |batch|));
            k'.core.rings == rings' && KNext(k, KStep.ReadSome(s, |batch|), k') && TakenFrom(k.core.rings, s, batch, rings')
  {
  }

  /** Every completion that is read carries the status that was posted for its command. */
  lemma ReadIsGenuine(k: Kernel, s: SessId, batch: seq<Completion>, rings': map<SessId, seq<Completion>>, j: nat)
    requires KInv(k) && TakenFrom(k.core.rings, s, batch, rings') && j < |batch|
    ensures batch[j].id in k.posted && batch[j].status == k.posted[batch[j].id]
  {
    assert RingGenuine(k.core.table, k.posted, k.core.rings[s]);
    assert batch[j] == k.core.rings[s][j];
  }

  datatype ReadResult = Again | TooSmall | Data(batch: seq<Completion>)

  ghost predicate AllocOutcomeIs(k: Kernel, s: SessId, size: nat, base: Option<nat>, r: AllocResult, k': Kernel)
    requires s in k.core.owned
  {
    var verdict := Alloc(k.core, s, size);
    && r == (if verdict.AllocOk? && base.None? then AllocNoMemory else verdict)
    && k' == k.(core := if r.AllocOk? then DoAlloc(k.core, s, size, base.value) else k.core)
  }

  /** Size in range, session below its quota, and a slot free. */
  ghost predicate CanAlloc(st: State, s: SessId, size: nat)
    requires s in st.owned
  {
    && 0 < size <= 16777216 && |st.owned[s]| < 16
    && exists i :: 0 <= i < |st.buffers| && !st.buffers[i].inUse
  }

  /** A slot that was unused is now the session's, at the given memory, with at least the
      requested size in whole pages, and in the session's bitmap; other slots are as before. */
  ghost predicate HoldsBuffer(st: State, s: SessId, size: nat, base: nat, slot: nat, st': State) {
    && slot < |st.buffers| == |st'.buffers| && !st.buffers[slot].inUse
    && st'.buffers[slot].inUse && st'.buffers[slot].owner == s && st'.buffers[slot].base == base
    && size <= st'.buffers[slot].size < size + 4096
    && (forall i :: 0 <= i < |st.buffers| && i != slot ==> st'.buffers[i] == st.buffers[i])
    && s in st.owned && s in st'.owned && st'.owned[s] == st.owned[s] + {slot}
  }

  lemma AllocIsStep(k: Kernel, s: SessId, size: nat, base: Option<nat>, r: AllocResult, k': Kernel)
    requires s in k.core.owned && IsOpen(k.core, s) && AllocOutcomeIs(k, s, size, base, r, k')
    requires base.Some? ==> FreshMemory(k.core, base.value, PageAlign(size))
    ensures if r.AllocOk? then base.Some? && KNext(k, KStep.Session(Step.BufferAlloc(s, size, base.value)), k') else k' == k
    ensures r.AllocOk? <==> CanAlloc(k.core, s, size) && base.Some?
    ensures r.AllocOk? ==> HoldsBuffer(k.core, s, size, base.value, r.slot, k'.core)
    ensures k'.core.rings == k.core.rings
  {
    AllocMeaning(k.core, s, size);
    if r.AllocOk? { AllocUsable(k.core, s, size, base.value, 0, 0, 0); }
  }

  /** What a SUBMIT does: refused with no change, admitted by the model's step, or blocked with
      an id used up. */
  ghost predicate SubmitOutcomeIs(k: Kernel, s: SessId, req: Request, r: SubmitResult, k': Kernel)
    requires s in k.core.inflight && |k.hw.sqBuf| == QUEUE_DEPTH
  {
    var c := Validate(k.core.buffers, s, req, k.core.nextId + 1);
    if !c.Ok? then r == Refused(c) && k' == k
    else if AdmissionOk(k.core, s) && FirstFree(k.core.table, 0).Some?
    then r == Submitted(k.core.nextId + 1) && k' == DoSubmit(k, s, c.desc)
    else r == Blocked && k' == k.(core := IdSpent(k.core, c.desc))
  }

  ghost predicate HasFreeSlot(table: seq<CmdCtx>) {
    exists i :: 0 <= i < |table| && !table[i].valid
  }

  /** The command is on its way as requested: it has the next id, its descriptor is in the slot
      at the old tail and names the requested ranges, the table routes its id to the session, and
      both counters include it. */
  ghost predicate EnqueuedFor(k: Kernel, s: SessId, req: Request, id: nat, k': Kernel)
    requires s in k.core.inflight
  {
    && id == k.core.nextId + 1 == k'.core.nextId
    && |k'.hw.sqBuf| == QUEUE_DEPTH
    && (var d := k'.hw.sqBuf[k.hw.sqTail % QUEUE_DEPTH]; d.id == id && NamesRequest(k.core.buffers, req, d))
    && (exists i :: 0 <= i < |k'.core.table| && k'.core.table[i] == CmdCtx(true, id, s))
    && k'.core.total == k.core.total + 1
    && s in k'.core.inflight && k'.core.inflight[s] == k.core.inflight[s] + 1
  }

  /** What a SUBMIT does, said of the request itself: refused exactly if it is not valid,
      admitted exactly if it is valid, the ring has room and the session is below its share. */
  lemma SubmitMeaning(k: Kernel, s: SessId, req: Request, r: SubmitResult, k': Kernel)
    requires s in k.core.inflight && |k.hw.sqBuf| == QUEUE_DEPTH && SubmitOutcomeIs(k, s, req, r, k')
    ensures r.Refused? <==> !ValidRequest(k.core.buffers, s, req)
    ensures r.Submitted? <==>
              && ValidRequest(k.core.buffers, s, req)
              && k.core.total < 16 && FairShare(k.core.inflight[s], k.core.active) && HasFreeSlot(k.core.table)
    ensures r.Submitted? ==> EnqueuedFor(k, s, req, r.id, k')
  {
    ValidateMeaning(k.core.buffers, s, req, k.core.nextId + 1);
    FairAdmission(k.core, s);
    if r.Submitted? {
      var i := FirstFree(k.core.table, 0).value;
      assert k'.core.table[i] == CmdCtx(true, r.id, s);
    }
  }

  /** The kernel step that a valid SUBMIT takes. */
  ghost function SubmitStep(k: Kernel, s: SessId, req: Request): KStep
    requires s in k.core.inflight && Validate(k.core.buffers, s, req, k.core.nextId + 1).Ok?
  {
    var c := Validate(k.core.buffers, s, req, k.core.nextId + 1);
    if AdmissionOk(k.core, s) && FirstFree(k.core.table, 0).Some? then KStep.Submit(s, c.desc)
    else KStep.Interrupted(s, c.desc)
  }

  lemma SubmitIsStep(k: Kernel, s: SessId, req: Request, r: SubmitResult, k': Kernel)
    requires s in k.core.inflight && |k.hw.sqBuf| == QUEUE_DEPTH && IsOpen(k.core, s)
    requires SubmitOutcomeIs(k, s, req, r, k')
    ensures r.Refused? || KNext(k, SubmitStep(k, s, req), k')
    ensures k'.core.rings == k.core.rings
  {
    ValidatedIsBacked(k.core.buffers, s, req, k.core.nextId + 1);
  }

  ghost function HeadCompletion(k: Kernel): Completion
    requires |k.hw.cqBuf| == QUEUE_DEPTH
  {
    k.hw.cqBuf[k.hw.cqHead % QUEUE_DEPTH]
  }

  /** The session that the completion at the head of the queue belongs to, if any. */
  ghost function Owner(k: Kernel): Option<SessId>
    requires CanRoute(k)
  {
    match FindId(k.core.table, HeadCompletion(k).id, 0)
    case None => None
    case Some(i) => Some(k.core.table[i].sess)
  }

  lemma HeadCanBeRouted(k: Kernel)
    requires KInv(k) && k.hw.cqHead != k.hw.cqTail
    ensures CanRoute(k) && KInv(DoRoute(k)) && |DoRoute(k).cq| < |k.cq|
    ensures RouteAll(DoRoute(k)) == RouteAll(k)
  {
    Rings.Count(k.hw.cqBuf, k.hw.cqHead, k.hw.cqTail, k.cq);
    RouteKeeps(k);
  }

  lemma CaughtUp(k: Kernel)
    requires KInv(k) && k.hw.cqHead == k.hw.cqTail
    ensures RouteAll(k) == k
  {
    Rings.Count(k.hw.cqBuf, k.hw.cqHead, k.hw.cqTail, k.cq);
  }

  lemma RouteKeeps(k: Kernel)
    requires KInv(k) && k.cq != []
    ensures CanRoute(k) && KInv(DoRoute(k))
  {
    Rings.Count(k.hw.cqBuf, k.hw.cqHead, k.hw.cqTail, k.cq);
    RouteInv(k);
  }

  /** All waiting completions routed, oldest first. */
  ghost function RouteAll(k: Kernel): Kernel
    requires KInv(k)
    decreases |k.cq|
  {
    if k.cq == [] then k
    else
      RouteKeeps(k);
      RouteAll(DoRoute(k))
  }

  /** The session whose table entry carries this id. */
  predicate BelongsTo(table: seq<CmdCtx>, id: nat, s: SessId) {
    FindId(table, id, 0).Some? && table[FindId(table, id, 0).value].sess == s
  }

  /** The completions that belong to session `s`, in order. */
  function Own(table: seq<CmdCtx>, cq: seq<Completion>, s: SessId): seq<Completion> {
    if cq == [] then []
    else (if BelongsTo(table, cq[0].id, s) then [cq[0]] else []) + Own(table, cq[1..], s)
  }

  lemma {:induction false} FindOther(table: seq<CmdCtx>, i: nat, id: nat, from: nat)
    requires i < |table| && table[i].id != id && from <= |table|
    ensures FindId(table[i := table[i].(valid := false)], id, from) == FindId(table, id, from)
    decreases |table| - from
  {
    if from < |table| { FindOther(table, i, id, from + 1); }
  }

  lemma {:induction false} OwnAfterClear(table: seq<CmdCtx>, i: nat, cq: seq<Completion>, s: SessId)
    requires i < |table| && forall j :: 0 <= j < |cq| ==> cq[j].id != table[i].id
    ensures Own(table[i := table[i].(valid := false)], cq, s) == Own(table, cq, s)
    decreases |cq|
  {
    if cq != [] {
      FindOther(table, i, cq[0].id, 0);
      OwnAfterClear(table, i, cq[1..], s);
    }
  }

  /** What routing one completion does to session `s`. */
  lemma RouteCoreDelivers(st: State, cq: seq<Completion>, s: SessId)
    requires cq != [] && DistinctComps(cq) && FindId(st.table, cq[0].id, 0).Some?
    requires var o := st.table[FindId(st.table, cq[0].id, 0).value].sess; o in st.rings && o in st.inflight
    requires s in st.rings && |st.rings[s]| < COMP_RING_SIZE
    ensures var st' := RouteCore(st, cq[0]);
            && st'.total == st.total - 1 && s in st'.rings && |st'.rings[s]| <= |st.rings[s]| + 1
            && st'.rings[s] + Own(st'.table, cq[1..], s) == st.rings[s] + Own(st.table, cq, s)
  {
    var i := FindId(st.table, cq[0].id, 0).value;
    OwnAfterClear(st.table, i, cq[1..], s);
    var own := Own(st.table, cq[1..], s);
    assert Own(st.table, cq, s) == (if st.table[i].sess == s then [cq[0]] else []) + own;
    Reassociate(st.rings[s], [cq[0]], own);
  }

  lemma RouteDelivers(k: Kernel, s: SessId)
    requires KInv(k) && k.cq != [] && CanRoute(k) && s in k.core.rings && |k.core.rings[s]| < COMP_RING_SIZE
    ensures var k' := DoRoute(k);
            && k'.cq == k.cq[1..] && k'.core.total == k.core.total - 1 && s in k'.core.rings
            && k'.core.rings[s] + Own(k'.core.table, k'.cq, s) == k.core.rings[s] + Own(k.core.table, k.cq, s)
            && |k'.core.rings[s]| <= |k.core.rings[s]| + 1
  {
    HeadIsKnown(k);
    RouteCoreDelivers(k.core, k.cq, s);
  }

  /** One run of the handler appends to every session's ring exactly the waiting completions of
      that session's own commands, in the order in which the device posted them, and drops
      none. */
  lemma {:induction false} HandlerDelivers(k: Kernel, s: SessId)
    requires KInv(k) && s in k.core.rings && |k.core.rings[s]| + |k.cq| <= COMP_RING_SIZE
    ensures var k' := RouteAll(k);
            && k'.cq == [] && k'.core.total == k.core.total - |k.cq| && s in k'.core.rings
            && k'.core.rings[s] == k.core.rings[s] + Own(k.core.table, k.cq, s)
    decreases |k.cq|
  {
    if k.cq != [] {
      RouteKeeps(k);
      RouteDelivers(k, s);
      HandlerDelivers(DoRoute(k), s);
    }
  }

  /** A SUBMIT on an open session, in a reachable state: it is admitted exactly if the admission
      test holds (the slot scan cannot fail), admission is the model's step, and either way the
      invariant is kept. */
  lemma SubmitOutcome(k: Kernel, s: SessId, req: Request)
    requires KInv(k) && IsOpen(k.core, s) && Validate(k.core.buffers, s, req, k.core.nextId + 1).Ok?
    ensures s in k.core.inflight && |k.hw.sqBuf| == QUEUE_DEPTH
    ensures AdmissionOk(k.core, s) <==> k.core.total < 16 && FairShare(k.core.inflight[s], k.core.active)
    ensures k.core.total < 16 ==> HasFreeSlot(k.core.table)
    ensures var desc := Validate(k.core.buffers, s, req, k.core.nextId + 1).desc;
            && (AdmissionOk(k.core, s) ==>
                  && FirstFree(k.core.table, 0).Some?
                  && KNext(k, KStep.Submit(s, desc), DoSubmit(k, s, desc)) && KInv(DoSubmit(k, s, desc)))
            && KInv(k.(core := IdSpent(k.core, desc)))
  {
    var desc := Validate(k.core.buffers, s, req, k.core.nextId + 1).desc;
    ValidatedIsBacked(k.core.buffers, s, req, k.core.nextId + 1);
    FairAdmission(k.core, s);
    if k.core.total < 16 {
      SlotScanSucceeds(k.core);
    }
    if AdmissionOk(k.core, s) {
      assert KNext(k, KStep.Submit(s, desc), DoSubmit(k, s, desc));
      KStepInv(k, KStep.Submit(s, desc), DoSubmit(k, s, desc));
    }
    SpentKeeps(k, s, desc);
  }
}
