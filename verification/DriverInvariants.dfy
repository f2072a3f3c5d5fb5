/**
 What every step of the driver keeps, at the fine grain and against an arbitrary device:
 in-flight accounting, session liveness, agreement of the two buffer tables, and the
 lifetime of the memory that commands in flight may touch.

 Each part of the invariant names the fields it speaks about, so a step has to be considered
 only for the parts whose fields it writes.
 */
module DriverInvariants {
  import opened DriverCore

  // -------------------------------------------------------------- accounting --

  ghost function ValidOf(table: seq<CmdCtx>, s: SessId): set<nat> {
    set i | 0 <= i < |table| && table[i].valid && table[i].sess == s
  }

  ghost function ValidAll(table: seq<CmdCtx>): set<nat> {
    set i | 0 <= i < |table| && table[i].valid
  }

  /** Submits that are in the table but not yet in the counters. */
  ghost function RegisteredOf(ops: map<ThreadId, Op>, s: SessId): set<ThreadId> {
    set t | t in ops && ops[t].phase.Registered? && ops[t].sess == s
  }

  ghost function RegisteredAll(ops: map<ThreadId, Op>): set<ThreadId> {
    set t | t in ops && ops[t].phase.Registered?
  }

  /** Completions that are out of the table but still in the counters. */
  ghost function ClaimedOf(isr: Isr, s: SessId): nat {
    if !isr.Idle? && isr.owner == s then 1 else 0
  }

  ghost function ClaimedAll(isr: Isr): nat {
    if isr.Idle? then 0 else 1
  }

  ghost predicate AccountedFor(inflight: int, table: seq<CmdCtx>, ops: map<ThreadId, Op>, isr: Isr, s: SessId) {
    inflight + |RegisteredOf(ops, s)| == |ValidOf(table, s)| + ClaimedOf(isr, s)
  }

  ghost predicate Accounting(inflight: map<SessId, int>, total: int, table: seq<CmdCtx>,
                             ops: map<ThreadId, Op>, isr: Isr)
  {
    && (forall s :: s in inflight ==> AccountedFor(inflight[s], table, ops, isr, s))
    && total + |RegisteredAll(ops)| == |ValidAll(table)| + ClaimedAll(isr)
  }

  // ---------------------------------------------------------------- sessions --

  /** The per-session fields exist for the same, live sessions. */
  ghost predicate Domains(st: State) {
    st.inflight.Keys == st.closing.Keys && st.owned.Keys == st.closing.Keys && st.rings.Keys == st.closing.Keys
  }

  ghost function OpenSessions(closing: map<SessId, bool>): set<SessId> {
    set s | s in closing && !closing[s]
  }

  /** Nothing points at a freed session: not the routing table, not a running ioctl, not the
      interrupt handler. */
  ghost predicate Live(closing: map<SessId, bool>, table: seq<CmdCtx>, ops: map<ThreadId, Op>, isr: Isr) {
    && (forall i :: 0 <= i < |table| && table[i].valid ==> table[i].sess in closing)
    && (forall t :: t in ops ==> ops[t].sess in closing && !closing[ops[t].sess])
    && (!isr.Idle? ==> isr.owner in closing)
  }

  /** Command ids in use are pairwise different and were handed out by the counter. */
  ghost predicate Ids(table: seq<CmdCtx>, ops: map<ThreadId, Op>, nextId: nat) {
    && (forall i :: 0 <= i < |table| && table[i].valid ==> table[i].id <= nextId)
    && (forall i, j :: 0 <= i < j < |table| && table[i].valid && table[j].valid ==> table[i].id != table[j].id)
    && (forall t :: t in ops ==> ops[t].desc.id <= nextId)
    && (forall t, u :: t in ops && u in ops && t != u ==> ops[t].desc.id != ops[u].desc.id)
    && (forall t, i :: t in ops && Unregistered(ops[t]) && 0 <= i < |table| && table[i].valid ==>
          table[i].id != ops[t].desc.id)
  }

  // ----------------------------------------------------------------- buffers --

  ghost predicate Owns(buffers: seq<BufEntry>, s: SessId, i: int) {
    0 <= i < |buffers| && buffers[i].inUse && buffers[i].owner == s
  }

  /** Slot table and ownership bitmaps agree both ways, within quota, without overlap. */
  ghost predicate BuffersAgree(buffers: seq<BufEntry>, owned: map<SessId, set<nat>>) {
    && (forall i :: 0 <= i < |buffers| && buffers[i].inUse ==>
          buffers[i].owner in owned && i in owned[buffers[i].owner])
    && (forall s, i :: s in owned && i in owned[s] ==> Owns(buffers, s, i))
    && (forall s :: s in owned ==> |owned[s]| <= DEFAULT_BUFFER_QUOTA)
    && (forall i, j :: 0 <= i < j < |buffers| && buffers[i].inUse && buffers[j].inUse ==> Apart(buffers[i], buffers[j]))
  }

  ghost predicate Inside(b: BufEntry, s: SessId, addr: nat, len: nat) {
    b.inUse && b.owner == s && b.base <= addr && addr + len <= b.base + b.size
  }

  /** The range lies in one buffer that is allocated to session `s`. */
  ghost predicate Backed(buffers: seq<BufEntry>, s: SessId, addr: nat, len: nat) {
    exists i :: 0 <= i < |buffers| && Inside(buffers[i], s, addr, len)
  }

  ghost predicate DescBacked(buffers: seq<BufEntry>, s: SessId, d: Descriptor) {
    && Backed(buffers, s, d.src, d.len)
    && Backed(buffers, s, d.dst, d.len)
    && (NeedsSrc2(d.opcode) ==> Backed(buffers, s, d.src2, d.len))
  }

  /** Every command the device may be working on touches only live memory of its session. */
  ghost predicate DmaSafe(buffers: seq<BufEntry>, table: seq<CmdCtx>, ops: map<ThreadId, Op>,
                          issued: map<nat, Descriptor>, nextId: nat)
  {
    && (forall i :: 0 <= i < |table| && table[i].valid ==>
          table[i].id in issued && DescBacked(buffers, table[i].sess, issued[table[i].id]))
    && (forall t :: t in ops ==>
          && ops[t].desc.id in issued && issued[ops[t].desc.id] == ops[t].desc
          && DescBacked(buffers, ops[t].sess, ops[t].desc))
    && (forall id :: id in issued ==> id <= nextId && issued[id].id == id)
  }

  /** Accounting and liveness. */
  ghost predicate Routing(st: State) {
    && |st.table| == MAX_INFLIGHT_CMDS
    && Domains(st)
    && Accounting(st.inflight, st.total, st.table, st.ops, st.isr)
    && st.active == |OpenSessions(st.closing)|
    && Live(st.closing, st.table, st.ops, st.isr)
  }

  /** Identity and memory of the commands in use. */
  ghost predicate Ownership(st: State) {
    && |st.buffers| == MAX_BUFFERS
    && Ids(st.table, st.ops, st.nextId)
    && BuffersAgree(st.buffers, st.owned)
    && DmaSafe(st.buffers, st.table, st.ops, st.issued, st.nextId)
  }

  ghost predicate Inv(st: State) {
    Routing(st) && Ownership(st)
  }

  lemma InitialInv()
    ensures Inv(Initial())
  {
    assert ValidAll(Initial().table) == {};
    assert RegisteredAll(Initial().ops) == {};
    assert OpenSessions(Initial().closing) == {};
  }

  // ------------------------------------------------- accounting, step by step --

  lemma OpenAccounting(st: State, s: SessId)
    requires Accounting(st.inflight, st.total, st.table, st.ops, st.isr)
    requires Live(st.closing, st.table, st.ops, st.isr) && s !in st.closing
    ensures Accounting(st.inflight[s := 0], st.total, st.table, st.ops, st.isr)
  {
    assert ValidOf(st.table, s) == {};
    assert RegisteredOf(st.ops, s) == {};
  }

  lemma OpsAccounting(st: State, ops': map<ThreadId, Op>)
    requires Accounting(st.inflight, st.total, st.table, st.ops, st.isr)
    requires RegisteredAll(ops') == RegisteredAll(st.ops)
    requires forall s :: RegisteredOf(ops', s) == RegisteredOf(st.ops, s)
    ensures Accounting(st.inflight, st.total, st.table, ops', st.isr)
  {
    forall s | s in st.inflight ensures AccountedFor(st.inflight[s], st.table, ops', st.isr, s) {
      assert RegisteredOf(ops', s) == RegisteredOf(st.ops, s);
    }
  }

  /** Moving an ioctl between phases other than "registered" leaves the accounts alone. */
  lemma MoveOpAccounting(st: State, t: ThreadId, op: Op)
    requires Accounting(st.inflight, st.total, st.table, st.ops, st.isr)
    requires !op.phase.Registered? && (t in st.ops ==> !st.ops[t].phase.Registered?)
    ensures Accounting(st.inflight, st.total, st.table, st.ops[t := op], st.isr)
  {
    OpsAccounting(st, st.ops[t := op]);
  }

  lemma EndOpAccounting(st: State, t: ThreadId)
    requires Accounting(st.inflight, st.total, st.table, st.ops, st.isr)
    requires t in st.ops && !st.ops[t].phase.Registered?
    ensures Accounting(st.inflight, st.total, st.table, st.ops - {t}, st.isr)
  {
    OpsAccounting(st, st.ops - {t});
  }

  lemma RegisterAccounts(st: State, t: ThreadId, x: SessId, n: int)
    requires CanRegister(st, t) && AccountedFor(n, st.table, st.ops, st.isr, x)
    ensures AccountedFor(n, DoRegister(st, t).table, DoRegister(st, t).ops, st.isr, x)
  {
    var st' := DoRegister(st, t);
    var slot := FirstFree(st.table, 0).value;
    if x == st.ops[t].sess {
      assert ValidOf(st'.table, x) == ValidOf(st.table, x) + {slot};
      assert RegisteredOf(st'.ops, x) == RegisteredOf(st.ops, x) + {t};
    } else {
      assert ValidOf(st'.table, x) == ValidOf(st.table, x);
      assert RegisteredOf(st'.ops, x) == RegisteredOf(st.ops, x);
    }
  }

  lemma RegisterAccounting(st: State, t: ThreadId)
    requires Accounting(st.inflight, st.total, st.table, st.ops, st.isr) && CanRegister(st, t)
    ensures var st' := DoRegister(st, t); Accounting(st'.inflight, st'.total, st'.table, st'.ops, st'.isr)
  {
    var st' := DoRegister(st, t);
    assert ValidAll(st'.table) == ValidAll(st.table) + {FirstFree(st.table, 0).value};
    assert RegisteredAll(st'.ops) == RegisteredAll(st.ops) + {t};
    forall x | x in st.inflight ensures AccountedFor(st.inflight[x], st'.table, st'.ops, st.isr, x) {
      RegisterAccounts(st, t, x, st.inflight[x]);
    }
  }

  lemma CountAccounting(st: State, t: ThreadId)
    requires Accounting(st.inflight, st.total, st.table, st.ops, st.isr) && CanCount(st, t)
    ensures var st' := DoCount(st, t); Accounting(st'.inflight, st'.total, st'.table, st'.ops, st'.isr)
  {
    var st' := DoCount(st, t);
    assert RegisteredAll(st'.ops) == RegisteredAll(st.ops) - {t};
    assert t in RegisteredAll(st.ops);
    forall x | x in st'.inflight ensures AccountedFor(st'.inflight[x], st.table, st'.ops, st.isr, x) {
      if x == st.ops[t].sess {
        assert RegisteredOf(st'.ops, x) == RegisteredOf(st.ops, x) - {t};
        assert t in RegisteredOf(st.ops, x);
      } else {
        assert RegisteredOf(st'.ops, x) == RegisteredOf(st.ops, x);
      }
    }
  }

  lemma ClaimAccounting(st: State, comp: Completion)
    requires Accounting(st.inflight, st.total, st.table, st.ops, st.isr) && st.isr.Idle?
    ensures var st' := DoClaim(st, comp); Accounting(st.inflight, st.total, st'.table, st.ops, st'.isr)
  {
    var st' := DoClaim(st, comp);
    var f := FindId(st.table, comp.id, 0);
    if f.Some? {
      assert ValidAll(st'.table) == ValidAll(st.table) - {f.value};
      assert f.value in ValidAll(st.table);
      forall x | x in st.inflight ensures AccountedFor(st.inflight[x], st'.table, st.ops, st'.isr, x) {
        if x == st.table[f.value].sess {
          assert ValidOf(st'.table, x) == ValidOf(st.table, x) - {f.value};
          assert f.value in ValidOf(st.table, x);
        } else {
          assert ValidOf(st'.table, x) == ValidOf(st.table, x);
        }
      }
    }
  }

  lemma DeliverAccounting(st: State)
    requires Accounting(st.inflight, st.total, st.table, st.ops, st.isr) && CanDeliver(st)
    ensures Accounting(st.inflight, st.total, st.table, st.ops, Delivered(st.isr.owner))
  {
    forall x | x in st.inflight
      ensures AccountedFor(st.inflight[x], st.table, st.ops, Delivered(st.isr.owner), x)
    {
      assert AccountedFor(st.inflight[x], st.table, st.ops, st.isr, x);
    }
  }

  lemma UncountAccounting(st: State)
    requires Accounting(st.inflight, st.total, st.table, st.ops, st.isr) && CanUncount(st)
    ensures var st' := DoUncount(st); Accounting(st'.inflight, st'.total, st.table, st.ops, Idle)
  {
    forall x | x in st.inflight ensures AccountedFor(DoUncount(st).inflight[x], st.table, st.ops, Idle, x) {
      assert AccountedFor(st.inflight[x], st.table, st.ops, st.isr, x);
    }
  }

  /** A session whose counter reads zero while nobody is submitting on it is referenced by
      neither the table nor the interrupt handler. */
  lemma DrainedIsUnreferenced(st: State, s: SessId)
    requires Accounting(st.inflight, st.total, st.table, st.ops, st.isr)
    requires Live(st.closing, st.table, st.ops, st.isr) && CanCloseFinish(st, s)
    ensures !st.isr.Idle? ==> st.isr.owner != s
    ensures forall i :: 0 <= i < |st.table| && st.table[i].valid ==> st.table[i].sess != s
    ensures forall t :: t in st.ops ==> st.ops[t].sess != s
  {
    assert RegisteredOf(st.ops, s) == {};
    assert AccountedFor(st.inflight[s], st.table, st.ops, st.isr, s);
    assert |ValidOf(st.table, s)| == 0;
    assert forall i :: 0 <= i < |st.table| && st.table[i].valid && st.table[i].sess == s ==>
        i in ValidOf(st.table, s);
  }

  lemma CloseFinishLive(st: State, s: SessId)
    requires Accounting(st.inflight, st.total, st.table, st.ops, st.isr)
    requires Live(st.closing, st.table, st.ops, st.isr) && CanCloseFinish(st, s)
    ensures Live(st.closing - {s}, st.table, st.ops, st.isr)
    ensures Accounting(st.inflight - {s}, st.total, st.table, st.ops, st.isr)
  {
    DrainedIsUnreferenced(st, s);
  }

  lemma OpenCount(closing: map<SessId, bool>, s: SessId)
    ensures s !in closing ==> |OpenSessions(closing[s := false])| == |OpenSessions(closing)| + 1
    ensures s in closing && !closing[s] ==> |OpenSessions(closing[s := true])| == |OpenSessions(closing)| - 1
    ensures s in closing && closing[s] ==> |OpenSessions(closing - {s})| == |OpenSessions(closing)|
  {
    if s !in closing {
      assert OpenSessions(closing[s := false]) == OpenSessions(closing) + {s};
    } else if !closing[s] {
      assert OpenSessions(closing[s := true]) == OpenSessions(closing) - {s};
      assert s in OpenSessions(closing);
    } else {
      assert OpenSessions(closing - {s}) == OpenSessions(closing);
    }
  }

  lemma OpenRouting(st: State, s: SessId)
    requires Routing(st) && s !in st.closing
    ensures Routing(DoOpen(st, s))
  {
    OpenCount(st.closing, s);
    OpenAccounting(st, s);
  }

  lemma AllocRouting(st: State, s: SessId, size: nat, base: nat)
    requires Routing(st) && s in st.owned
    ensures Routing(DoAlloc(st, s, size, base))
  {
  }

  lemma StartOpRouting(st: State, t: ThreadId, s: SessId, desc: Descriptor)
    requires Routing(st) && t !in st.ops && IsOpen(st, s)
    ensures Routing(StartOp(st, t, s, desc))
  {
    MoveOpAccounting(st, t, Op(s, desc, Validated));
  }

  lemma BeginRouting(st: State, t: ThreadId, s: SessId, check: Check)
    requires Routing(st) && t !in st.ops && IsOpen(st, s)
    ensures Routing(DoBegin(st, t, s, check))
  {
    if check.Ok? { StartOpRouting(st, t, s, check.desc); }
  }

  lemma ReadQuotaRouting(st: State, t: ThreadId)
    requires Routing(st) && t in st.ops && Unregistered(st.ops[t])
    ensures Routing(DoReadQuota(st, t))
  {
    MoveOpAccounting(st, t, DoReadQuota(st, t).ops[t]);
  }

  lemma EndOpRouting(st: State, t: ThreadId)
    requires Routing(st) && t in st.ops && !st.ops[t].phase.Registered?
    ensures Routing(DoEndOp(st, t))
  {
    EndOpAccounting(st, t);
  }

  lemma RegisterRouting(st: State, t: ThreadId)
    requires Routing(st) && CanRegister(st, t)
    ensures Routing(DoRegister(st, t))
  {
    RegisterAccounting(st, t);
  }

  lemma CountRouting(st: State, t: ThreadId)
    requires Routing(st) && CanCount(st, t)
    ensures Routing(DoCount(st, t))
  {
    CountAccounting(st, t);
  }

  lemma ClaimRouting(st: State, comp: Completion)
    requires Routing(st) && st.isr.Idle?
    ensures Routing(DoClaim(st, comp))
  {
    ClaimAccounting(st, comp);
  }

  lemma DeliverRouting(st: State)
    requires Routing(st) && CanDeliver(st)
    ensures Routing(DoDeliver(st))
  {
    DeliverAccounting(st);
  }

  lemma UncountRouting(st: State)
    requires Routing(st) && CanUncount(st)
    ensures Routing(DoUncount(st))
  {
    UncountAccounting(st);
  }

  lemma ReadRouting(st: State, s: SessId)
    requires Routing(st) && CanRead(st, s)
    ensures Routing(DoRead(st, s))
  {
  }

  lemma CloseBeginRouting(st: State, s: SessId)
    requires Routing(st) && CanCloseBegin(st, s)
    ensures Routing(DoCloseBegin(st, s))
  {
    OpenCount(st.closing, s);
  }

  lemma CloseFinishRouting(st: State, s: SessId)
    requires Routing(st) && CanCloseFinish(st, s)
    ensures Routing(DoCloseFinish(st, s))
  {
    OpenCount(st.closing, s);
    CloseFinishLive(st, s);
  }

  lemma BeginStepRouting(st: State, t: ThreadId, s: SessId, req: Request, st': State)
    requires Routing(st) && Next(st, Begin(t, s, req), st')
    ensures Routing(st')
  {
    BeginRouting(st, t, s, Validate(st.buffers, s, req, st.nextId + 1));
  }

  predicate IsSubmitStep(step: Step) {
    step.Begin? || step.ReadQuota? || step.Abandon? || step.Register? || step.Count? || step.Enqueue?
  }

  lemma SubmitStepRouting(st: State, step: Step, st': State)
    requires Routing(st) && IsSubmitStep(step) && Next(st, step, st')
    ensures Routing(st')
  {
    match step
    case Begin(t, s, req) => BeginStepRouting(st, t, s, req, st');
    case ReadQuota(t) => ReadQuotaRouting(st, t);
    case Abandon(t) => EndOpRouting(st, t);
    case Register(t) => RegisterRouting(st, t);
    case Count(t) => CountRouting(st, t);
    case Enqueue(t) => EndOpRouting(st, t);
  }

  lemma StepRouting(st: State, step: Step, st': State)
    requires Routing(st) && Next(st, step, st')
    ensures Routing(st')
  {
    match step
    case Open(s) => OpenRouting(st, s);
    case BufferAlloc(s, size, base) => AllocRouting(st, s, size, base);
    case IsrClaim(comp) => ClaimRouting(st, comp);
    case IsrDeliver => DeliverRouting(st);
    case IsrUncount => UncountRouting(st);
    case Read(s) => ReadRouting(st, s);
    case CloseBegin(s) => CloseBeginRouting(st, s);
    case CloseFinish(s) => CloseFinishRouting(st, s);
    case _ => SubmitStepRouting(st, step, st');
  }

  // -------------------------------------------------- ownership, step by step --

  lemma OpenBuffers(buffers: seq<BufEntry>, owned: map<SessId, set<nat>>, s: SessId)
    requires BuffersAgree(buffers, owned) && s !in owned
    ensures BuffersAgree(buffers, owned[s := {}])
  {
  }

  lemma AllocBuffers(buffers: seq<BufEntry>, owned: map<SessId, set<nat>>, s: SessId, slot: nat, b: BufEntry)
    requires BuffersAgree(buffers, owned) && s in owned && |owned[s]| < DEFAULT_BUFFER_QUOTA
    requires slot < |buffers| && !buffers[slot].inUse && b.inUse && b.owner == s
    requires forall i :: 0 <= i < |buffers| && buffers[i].inUse ==> Apart(b, buffers[i])
    ensures BuffersAgree(buffers[slot := b], owned[s := owned[s] + {slot}])
  {
    var buffers', owned' := buffers[slot := b], owned[s := owned[s] + {slot}];
    forall x, i | x in owned' && i in owned'[x] ensures Owns(buffers', x, i) {
      assert (x == s && i == slot) || Owns(buffers, x, i);
    }
  }

  /** Buffers that stay as they are keep backing what they backed. */
  lemma BackedFrame(b: seq<BufEntry>, b': seq<BufEntry>, s: SessId, d: Descriptor)
    requires |b| == |b'| && DescBacked(b, s, d)
    requires forall i :: 0 <= i < |b| && b[i].inUse && b[i].owner == s ==> b'[i] == b[i]
    ensures DescBacked(b', s, d)
  {
    var i :| 0 <= i < |b| && Inside(b[i], s, d.src, d.len);
    assert Inside(b'[i], s, d.src, d.len);
    var j :| 0 <= j < |b| && Inside(b[j], s, d.dst, d.len);
    assert Inside(b'[j], s, d.dst, d.len);
    if NeedsSrc2(d.opcode) {
      var k :| 0 <= k < |b| && Inside(b[k], s, d.src2, d.len);
      assert Inside(b'[k], s, d.src2, d.len);
    }
  }

  lemma AllocDma(st: State, slot: nat, b: BufEntry)
    requires DmaSafe(st.buffers, st.table, st.ops, st.issued, st.nextId)
    requires slot < |st.buffers| && !st.buffers[slot].inUse
    ensures DmaSafe(st.buffers[slot := b], st.table, st.ops, st.issued, st.nextId)
  {
    forall s, d | DescBacked(st.buffers, s, d) ensures DescBacked(st.buffers[slot := b], s, d) {
      BackedFrame(st.buffers, st.buffers[slot := b], s, d);
    }
  }

  lemma AllocOwnership(st: State, s: SessId, size: nat, base: nat)
    requires Ownership(st) && s in st.owned && FreshMemory(st, base, PageAlign(size))
    ensures Ownership(DoAlloc(st, s, size, base))
  {
    if Alloc(st, s, size).AllocOk? {
      var slot, b := Alloc(st, s, size).slot, BufEntry(true, s, base, PageAlign(size));
      forall i | 0 <= i < |st.buffers| && st.buffers[i].inUse ensures Apart(b, st.buffers[i]) {
        assert Apart(BufEntry(true, 0, base, PageAlign(size)), st.buffers[i]);
      }
      AllocBuffers(st.buffers, st.owned, s, slot, b);
      AllocDma(st, slot, b);
    }
  }

  /** What SUBMIT validates is what the device may touch. */
  lemma ValidatedIsBacked(buffers: seq<BufEntry>, s: SessId, r: Request, id: nat)
    ensures var check := Validate(buffers, s, r, id);
            check.Ok? ==> DescBacked(buffers, s, check.desc) && check.desc.id == id
  {
    var check := Validate(buffers, s, r, id);
    if check.Ok? {
      var d := check.desc;
      assert Inside(buffers[r.srcBuf], s, d.src, d.len);
      assert Inside(buffers[r.dstBuf], s, d.dst, d.len);
      if NeedsSrc2(d.opcode) { assert Inside(buffers[r.src2Buf], s, d.src2, d.len); }
    }
  }

  lemma StartOpOwnership(st: State, t: ThreadId, s: SessId, desc: Descriptor)
    requires Ownership(st) && t !in st.ops && DescBacked(st.buffers, s, desc) && desc.id == st.nextId + 1
    ensures Ownership(StartOp(st, t, s, desc))
  {
  }

  lemma BeginOwnership(st: State, t: ThreadId, s: SessId, check: Check)
    requires Ownership(st) && t !in st.ops
    requires check.Ok? ==> DescBacked(st.buffers, s, check.desc) && check.desc.id == st.nextId + 1
    ensures Ownership(DoBegin(st, t, s, check))
  {
    if check.Ok? { StartOpOwnership(st, t, s, check.desc); }
  }

  lemma ReadQuotaOwnership(st: State, t: ThreadId)
    requires Ownership(st) && t in st.ops && Unregistered(st.ops[t])
    ensures Ownership(DoReadQuota(st, t))
  {
  }

  lemma EndOpOwnership(st: State, t: ThreadId)
    requires Ownership(st)
    ensures Ownership(DoEndOp(st, t))
  {
  }

  lemma CountOwnership(st: State, t: ThreadId)
    requires Ownership(st) && CanCount(st, t)
    ensures Ownership(DoCount(st, t))
  {
  }

  lemma RegisterIds(st: State, t: ThreadId)
    requires Ids(st.table, st.ops, st.nextId) && CanRegister(st, t)
    ensures Ids(DoRegister(st, t).table, DoRegister(st, t).ops, st.nextId)
  {
  }

  lemma RegisterDma(st: State, t: ThreadId)
    requires DmaSafe(st.buffers, st.table, st.ops, st.issued, st.nextId) && CanRegister(st, t)
    ensures DmaSafe(st.buffers, DoRegister(st, t).table, DoRegister(st, t).ops, st.issued, st.nextId)
  {
  }

  lemma RegisterOwnership(st: State, t: ThreadId)
    requires Ownership(st) && CanRegister(st, t)
    ensures Ownership(DoRegister(st, t))
  {
    RegisterIds(st, t);
    RegisterDma(st, t);
  }

  lemma ClaimOwnership(st: State, comp: Completion)
    requires Ownership(st) && st.isr.Idle?
    ensures Ownership(DoClaim(st, comp))
  {
  }

  /** Release frees exactly the closing session's slots. */
  lemma ReleaseFreesExactlyOwn(buffers: seq<BufEntry>, owned: map<SessId, set<nat>>, s: SessId, i: nat)
    requires BuffersAgree(buffers, owned) && s in owned && i < |buffers|
    ensures var b := FreeSlots(buffers, owned[s]);
            && (buffers[i].inUse && buffers[i].owner == s ==> !b[i].inUse)
            && (!(buffers[i].inUse && buffers[i].owner == s) ==> b[i] == buffers[i])
  {
    assert i in owned[s] <==> Owns(buffers, s, i);
  }

  /** Another session's fields are the same in both states. */
  ghost predicate SameSession(st: State, st': State, u: SessId) {
    && (u in st.closing <==> u in st'.closing) && (u in st.closing ==> st'.closing[u] == st.closing[u])
    && (u in st.inflight <==> u in st'.inflight) && (u in st.inflight ==> st'.inflight[u] == st.inflight[u])
    && (u in st.owned <==> u in st'.owned) && (u in st.owned ==> st'.owned[u] == st.owned[u])
    && (u in st.rings <==> u in st'.rings) && (u in st.rings ==> st'.rings[u] == st.rings[u])
  }

  /** A closed session is gone altogether; every other session keeps its fields, its table
      entries and its buffers, and the counters are untouched. */
  lemma ReleaseMeaning(st: State, s: SessId, u: SessId)
    requires CanCloseFinish(st, s) && BuffersAgree(st.buffers, st.owned)
    ensures var st' := DoCloseFinish(st, s);
            && s !in st'.closing && s !in st'.inflight && s !in st'.owned && s !in st'.rings
            && (u != s ==> SameSession(st, st', u))
            && st'.table == st.table && st'.total == st.total && st'.active == st.active
            && |st'.buffers| == |st.buffers|
            && (forall i :: 0 <= i < |st.buffers| ==>
                  if st.buffers[i].inUse && st.buffers[i].owner == s then !st'.buffers[i].inUse else st'.buffers[i] == st.buffers[i])
  {
    forall i | 0 <= i < |st.buffers|
      ensures var b := FreeSlots(st.buffers, st.owned[s]);
              if st.buffers[i].inUse && st.buffers[i].owner == s then !b[i].inUse else b[i] == st.buffers[i]
    {
      ReleaseFreesExactlyOwn(st.buffers, st.owned, s, i);
    }
  }

  /** A new session is open, has nothing in flight, unread or owned, and leaves all others alone. */
  lemma OpenMeaning(st: State, s: SessId, u: SessId)
    ensures var st' := DoOpen(st, s);
            && IsOpen(st', s) && s in st'.inflight && st'.inflight[s] == 0
            && s in st'.owned && st'.owned[s] == {} && s in st'.rings && st'.rings[s] == []
            && (u != s ==> SameSession(st, st', u))
            && st'.table == st.table && st'.total == st.total && st'.buffers == st.buffers
  {
  }

  lemma CloseFinishBuffers(buffers: seq<BufEntry>, owned: map<SessId, set<nat>>, s: SessId)
    requires BuffersAgree(buffers, owned) && s in owned
    ensures BuffersAgree(FreeSlots(buffers, owned[s]), owned - {s})
  {
    var b := FreeSlots(buffers, owned[s]);
    forall i | 0 <= i < |buffers|
      ensures buffers[i].inUse && buffers[i].owner == s ==> !b[i].inUse
      ensures !(buffers[i].inUse && buffers[i].owner == s) ==> b[i] == buffers[i]
    {
      ReleaseFreesExactlyOwn(buffers, owned, s, i);
    }
    forall x, i | x in owned - {s} && i in (owned - {s})[x] ensures Owns(b, x, i) {
      assert Owns(buffers, x, i);
    }
  }

  lemma CloseFinishDma(st: State, s: SessId)
    requires DmaSafe(st.buffers, st.table, st.ops, st.issued, st.nextId)
    requires BuffersAgree(st.buffers, st.owned) && s in st.owned
    requires forall i :: 0 <= i < |st.table| && st.table[i].valid ==> st.table[i].sess != s
    requires forall t :: t in st.ops ==> st.ops[t].sess != s
    ensures DmaSafe(FreeSlots(st.buffers, st.owned[s]), st.table, st.ops, st.issued, st.nextId)
  {
    var b := FreeSlots(st.buffers, st.owned[s]);
    forall x, d | x != s && DescBacked(st.buffers, x, d) ensures DescBacked(b, x, d) {
      forall i | 0 <= i < |st.buffers| && st.buffers[i].inUse && st.buffers[i].owner == x
        ensures b[i] == st.buffers[i]
      {
        ReleaseFreesExactlyOwn(st.buffers, st.owned, s, i);
      }
      BackedFrame(st.buffers, b, x, d);
    }
  }

  lemma CloseFinishOwnership(st: State, s: SessId)
    requires Inv(st) && CanCloseFinish(st, s)
    ensures Ownership(DoCloseFinish(st, s))
  {
    DrainedIsUnreferenced(st, s);
    CloseFinishBuffers(st.buffers, st.owned, s);
    CloseFinishDma(st, s);
  }

  lemma SubmitStepOwnership(st: State, step: Step, st': State)
    requires Inv(st) && IsSubmitStep(step) && Next(st, step, st')
    ensures Ownership(st')
  {
    match step
    case Begin(t, s, req) =>
      ValidatedIsBacked(st.buffers, s, req, st.nextId + 1);
      BeginOwnership(st, t, s, Validate(st.buffers, s, req, st.nextId + 1));
    case ReadQuota(t) => ReadQuotaOwnership(st, t);
    case Abandon(t) => EndOpOwnership(st, t);
    case Register(t) => RegisterOwnership(st, t);
    case Count(t) => CountOwnership(st, t);
    case Enqueue(t) => EndOpOwnership(st, t);
  }

  lemma StepOwnership(st: State, step: Step, st': State)
    requires Inv(st) && Next(st, step, st')
    ensures Ownership(st')
  {
    match step
    case Open(s) => OpenBuffers(st.buffers, st.owned, s);
    case BufferAlloc(s, size, base) => AllocOwnership(st, s, size, base);
    case IsrClaim(comp) => ClaimOwnership(st, comp);
    case IsrDeliver =>
    case IsrUncount =>
    case Read(s) =>
    case CloseBegin(s) =>
    case CloseFinish(s) => CloseFinishOwnership(st, s);
    case _ => SubmitStepOwnership(st, step, st');
  }

  // -------------------------------------------------------------------- runs --

  /** Every step of every thread, of the interrupt handler and of the device keeps `Inv`. */
  lemma StepInv(st: State, step: Step, st': State)
    requires Inv(st) && Next(st, step, st')
    ensures Inv(st')
  {
    StepRouting(st, step, st');
    StepOwnership(st, step, st');
  }

  /** The invariant holds in every state reachable after probe. */
  lemma {:induction false} RunInv(r: Run)
    requires IsRun(r) && Inv(First(r))
    ensures Inv(Last(r))
  {
    match r
    case From(_) =>
    case Then(prev, step, st) =>
      RunInv(prev);
      StepInv(Last(prev), step, st);
  }
}
