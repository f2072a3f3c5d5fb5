/**
 What the fine-grained invariant gives: the bound on what is in flight with concurrent
 submitters, isolation of sessions, wake-ups that are never lost, and admission that never
 deadlocks.
 */
module DriverGuarantees {
  import opened Basics
  import opened DriverCore
  import opened DriverInvariants

  // ----------------------------------------------------------------- the cap --

  /** What a step does to the number of commands admitted and not yet uncounted. */
  lemma StepAdmitted(st: State, step: Step, st': State)
    requires Next(st, step, st')
    ensures !step.Register? ==>
              st'.total + |RegisteredAll(st'.ops)| == st.total + |RegisteredAll(st.ops)| - (if step.IsrUncount? then 1 else 0)
    ensures step.Register? ==> st'.total == st.total < QUEUE_DEPTH
    ensures step.Register? || step.Count? || RegisteredAll(st'.ops) == RegisteredAll(st.ops)
    ensures step.Count? ==> RegisteredAll(st.ops) != {}
  {
    match step
    case Register(t) =>
    case Count(t) => RegisteredDrops(st.ops, t, st'.ops[t]);
    case Begin(t, s, req) => if t in st'.ops { RegisteredSame(st.ops, t, st'.ops[t]); }
    case ReadQuota(t) => RegisteredSame(st.ops, t, st'.ops[t]);
    case Abandon(t) => RegisteredEnds(st.ops, t);
    case Enqueue(t) => RegisteredEnds(st.ops, t);
    case _ =>
  }

  lemma RegisteredDrops(ops: map<ThreadId, Op>, t: ThreadId, op: Op)
    requires t in ops && ops[t].phase.Registered? && !op.phase.Registered?
    ensures |RegisteredAll(ops[t := op])| == |RegisteredAll(ops)| - 1 && RegisteredAll(ops) != {}
  {
    assert RegisteredAll(ops[t := op]) == RegisteredAll(ops) - {t};
    assert t in RegisteredAll(ops);
  }

  lemma RegisteredSame(ops: map<ThreadId, Op>, t: ThreadId, op: Op)
    requires (t in ops ==> !ops[t].phase.Registered?) && !op.phase.Registered?
    ensures RegisteredAll(ops[t := op]) == RegisteredAll(ops)
  {
  }

  lemma RegisteredEnds(ops: map<ThreadId, Op>, t: ThreadId)
    requires t in ops && !ops[t].phase.Registered?
    ensures RegisteredAll(ops - {t}) == RegisteredAll(ops)
  {
  }

  /** At most `p` submit calls are in progress at any time of the run. */
  ghost predicate AtMostSubmitters(r: Run, p: nat) {
    |Last(r).ops| <= p && (r.Then? ==> AtMostSubmitters(r.prev, p))
  }

  lemma RegisteredBounded(ops: map<ThreadId, Op>)
    ensures |RegisteredAll(ops)| <= |ops|
  {
    Subset(RegisteredAll(ops), ops.Keys);
  }

  lemma {:induction false} Subset<T>(a: set<T>, b: set<T>)
    requires a <= b
    ensures |a| <= |b|
  {
    assert b == a + (b - a);
  }

  /** With at most `p` concurrent submitters at most `15 + p` commands are admitted at once;
      with one submitter at a time that is the ring depth. */
  lemma {:induction false} AdmittedBound(r: Run, p: nat)
    requires IsRun(r) && First(r) == Initial() && p >= 1 && AtMostSubmitters(r, p)
    ensures Last(r).total + |RegisteredAll(Last(r).ops)| <= QUEUE_DEPTH - 1 + p
  {
    match r
    case From(_) => assert RegisteredAll(Initial().ops) == {};
    case Then(prev, step, st) =>
      AdmittedBound(prev, p);
      StepAdmitted(Last(prev), step, st);
      RegisteredBounded(st.ops);
  }

  lemma {:induction false} FullTable(table: seq<CmdCtx>)
    requires forall k :: 0 <= k < |table| ==> table[k].valid
    ensures |ValidAll(table)| == |table|
  {
    if table == [] {
      assert ValidAll(table) == {};
    } else {
      var n := |table| - 1;
      FullTable(table[..n]);
      assert ValidAll(table) == ValidAll(table[..n]) + {n};
    }
  }

  /** The scan for a free table slot cannot fail when the admission check has passed, unless
      more than 48 other submits are between registering and counting. */
  lemma SlotScanSucceeds(st: State)
    requires Inv(st) && st.total < QUEUE_DEPTH && |RegisteredAll(st.ops)| <= 48
    ensures FirstFree(st.table, 0).Some?
  {
    SlotLeft(st.inflight, st.total, st.table, st.ops, st.isr);
  }

  lemma SlotLeft(inflight: map<SessId, int>, total: int, table: seq<CmdCtx>, ops: map<ThreadId, Op>, isr: Isr)
    requires Accounting(inflight, total, table, ops, isr) && |table| == MAX_INFLIGHT_CMDS
    requires total < QUEUE_DEPTH && |RegisteredAll(ops)| <= 48
    ensures FirstFree(table, 0).Some?
  {
    if FirstFree(table, 0).None? {
      FullTable(table);
    }
  }

  // --------------------------------------------------------------- isolation --

  ghost predicate RangesApart(a: nat, alen: nat, b: nat, blen: nat) {
    a + alen <= b || b + blen <= a
  }

  lemma BackedApart(buffers: seq<BufEntry>, owned: map<SessId, set<nat>>, s: SessId, a: nat, alen: nat, u: SessId, b: nat, blen: nat)
    requires BuffersAgree(buffers, owned) && s != u
    requires Backed(buffers, s, a, alen) && Backed(buffers, u, b, blen)
    ensures RangesApart(a, alen, b, blen)
  {
    var i :| 0 <= i < |buffers| && Inside(buffers[i], s, a, alen);
    var j :| 0 <= j < |buffers| && Inside(buffers[j], u, b, blen);
    if i < j {
      assert Apart(buffers[i], buffers[j]);
    } else {
      assert Apart(buffers[j], buffers[i]);
    }
  }

  lemma CommandsApart(buffers: seq<BufEntry>, owned: map<SessId, set<nat>>, s: SessId, c: Descriptor, u: SessId, d: Descriptor)
    requires BuffersAgree(buffers, owned) && s != u && DescBacked(buffers, s, c) && DescBacked(buffers, u, d)
    ensures forall x, y :: Uses(c, x) && Uses(d, y) ==> RangesApart(x, c.len, y, d.len)
  {
    forall x, y | Uses(c, x) && Uses(d, y) ensures RangesApart(x, c.len, y, d.len) {
      BackedApart(buffers, owned, s, x, c.len, u, y, d.len);
    }
  }

  /** The addresses at which the device reads or writes `len` bytes for this command. */
  predicate Uses(d: Descriptor, addr: nat) {
    addr == d.src || addr == d.dst || (NeedsSrc2(d.opcode) && addr == d.src2)
  }

  /** The ranges of commands in flight that belong to different sessions never overlap. */
  lemma SessionsIsolated(st: State, i: nat, j: nat)
    requires Inv(st) && i < |st.table| && j < |st.table| && st.table[i].valid && st.table[j].valid
    requires st.table[i].sess != st.table[j].sess
    ensures st.table[i].id in st.issued && st.table[j].id in st.issued
    ensures var c, d := st.issued[st.table[i].id], st.issued[st.table[j].id];
            forall x, y :: Uses(c, x) && Uses(d, y) ==> RangesApart(x, c.len, y, d.len)
  {
    CommandsApart(st.buffers, st.owned, st.table[i].sess, st.issued[st.table[i].id],
                  st.table[j].sess, st.issued[st.table[j].id]);
  }

  // --------------------------------------------------------------- admission --

  /** The steps that wake the submitters waiting for admission. */
  predicate WakesQuota(step: Step) {
    step.IsrUncount? || step.CloseBegin?
  }

  /** No idle wake-up either: a waking step frees a place in the ring or raises the shares. */
  lemma WakeFreesSomething(st: State, step: Step, st': State)
    requires Next(st, step, st') && WakesQuota(step)
    ensures st'.total == st.total - 1 || (st'.active == st.active - 1 && Quota(st'.active) >= Quota(st.active))
  {
    if step.CloseBegin? { QuotaShrinks(st'.active, st.active); }
  }

  /** No lost wake-up: a session's admission predicate turns true only in a step that wakes. */
  lemma NoLostWakeup(st: State, step: Step, st': State, s: SessId)
    requires Domains(st) && Next(st, step, st') && s in st.inflight && s in st'.inflight
    requires !AdmissionOk(st, s) && AdmissionOk(st', s)
    ensures WakesQuota(step)
  {
    if !WakesQuota(step) {
      CountersGrow(st, step, st', s);
      QuotaShrinks(st.active, st'.active);
    }
  }

  lemma CountersGrow(st: State, step: Step, st': State, s: SessId)
    requires Domains(st) && Next(st, step, st') && s in st.inflight && s in st'.inflight && !WakesQuota(step)
    ensures st'.total >= st.total && st'.inflight[s] >= st.inflight[s] && st'.active >= st.active
  {
    if IsSubmitStep(step) { SubmitStepCounters(st, step, st', s); }
  }

  lemma SubmitStepCounters(st: State, step: Step, st': State, s: SessId)
    requires Next(st, step, st') && s in st.inflight && IsSubmitStep(step)
    ensures st'.total >= st.total && s in st'.inflight && st'.inflight[s] >= st.inflight[s] && st'.active == st.active
  {
  }

  // ---------------------------------------------------------- fair registration --

  /** The number of open sessions when submit `t` last read its quota. */
  ghost function ActiveWhenRead(r: Run, t: ThreadId): int {
    match r
    case From(_) => 0
    case Then(prev, step, _) => if step == ReadQuota(t) then Last(prev).active else ActiveWhenRead(prev, t)
  }

  ghost predicate QuotaIsShare(ops: map<ThreadId, Op>, t: ThreadId, active: int) {
    t in ops && ops[t].phase.QuotaRead? ==>
      forall n: int :: n < ops[t].phase.quota <==> FairShare(n, active)
  }

  lemma ReadsShare(st: State, t: ThreadId, st': State)
    requires Next(st, ReadQuota(t), st')
    ensures QuotaIsShare(st'.ops, t, st.active)
  {
    forall n: int ensures n < Quota(st.active) <==> FairShare(n, st.active) {
      ShareMeaning(n, st.active);
    }
  }

  lemma KeepsShare(st: State, step: Step, st': State, t: ThreadId, active: int)
    requires Next(st, step, st') && step != ReadQuota(t) && QuotaIsShare(st.ops, t, active)
    ensures QuotaIsShare(st'.ops, t, active)
  {
    if IsSubmitStep(step) { SubmitStepKeepsQuota(st, step, st', t); }
  }

  lemma SubmitStepKeepsQuota(st: State, step: Step, st': State, t: ThreadId)
    requires Next(st, step, st') && step != ReadQuota(t) && IsSubmitStep(step)
    ensures t in st'.ops && st'.ops[t].phase.QuotaRead? ==> t in st.ops && st'.ops[t] == st.ops[t]
  {
  }

  lemma {:induction false} RunShares(r: Run, t: ThreadId)
    requires IsRun(r) && First(r) == Initial()
    ensures QuotaIsShare(Last(r).ops, t, ActiveWhenRead(r, t))
  {
    match r
    case From(_) =>
    case Then(prev, step, st) =>
      RunShares(prev, t);
      if step == ReadQuota(t) {
        ReadsShare(Last(prev), t, st);
      } else {
        KeepsShare(Last(prev), step, st, t, ActiveWhenRead(prev, t));
      }
  }

  /** Fair registration, over every run: a submit that has read its quota is let in exactly if
      the ring has room, a table slot is free and its session is below the share that held when
      it read the number of open sessions. */
  lemma FairRegistration(r: Run, t: ThreadId)
    requires IsRun(r) && First(r) == Initial() && t in Last(r).ops && Last(r).ops[t].phase.QuotaRead?
    ensures Last(r).ops[t].sess in Last(r).inflight
    ensures CanRegister(Last(r), t) <==>
              && Last(r).total < 16 && FairShare(Last(r).inflight[Last(r).ops[t].sess], ActiveWhenRead(r, t))
              && exists i :: 0 <= i < |Last(r).table| && !Last(r).table[i].valid
  {
    InitialInv();
    RunInv(r);
    RunShares(r, t);
    RegistersIff(Last(r), t, ActiveWhenRead(r, t));
  }

  lemma RegistersIff(st: State, t: ThreadId, active: int)
    requires QuotaIsShare(st.ops, t, active) && t in st.ops && st.ops[t].phase.QuotaRead? && st.ops[t].sess in st.inflight
    ensures CanRegister(st, t) <==>
              && st.total < 16 && FairShare(st.inflight[st.ops[t].sess], active)
              && exists i :: 0 <= i < |st.table| && !st.table[i].valid
  {
  }

  // ------------------------------------------------------- waiting submitters --

  /** A run that also keeps the set of submits asleep on `quota_wq`.  A submit falls asleep only
      after it has found its admission predicate false; the steps that wake the queue wake all. */
  datatype WaitRun =
    | Awake(start: State)
    | Sleep(prev: WaitRun, t: ThreadId)
    | Go(prev: WaitRun, step: Step, st: State)

  ghost function StateOf(r: WaitRun): State {
    match r
    case Awake(start) => start
    case Sleep(prev, _) => StateOf(prev)
    case Go(_, _, st) => st
  }

  /** Who is asleep: everyone who fell asleep since the last wake-up, except submits that a
      signal made give up. */
  ghost function Asleep(r: WaitRun): set<ThreadId> {
    match r
    case Awake(_) => {}
    case Sleep(prev, t) => Asleep(prev) + {t}
    case Go(prev, step, _) =>
      if WakesQuota(step) then {} else if step.Abandon? then Asleep(prev) - {step.t} else Asleep(prev)
  }

  ghost predicate Refused(st: State, t: ThreadId) {
    t in st.ops && Unregistered(st.ops[t]) && st.ops[t].sess in st.inflight && !AdmissionOk(st, st.ops[t].sess)
  }

  /** A sleeping submit takes no step but giving up. */
  ghost predicate IsWaitRun(r: WaitRun) {
    match r
    case Awake(start) => start == Initial()
    case Sleep(prev, t) => IsWaitRun(prev) && Refused(StateOf(prev), t)
    case Go(prev, step, st) =>
      && IsWaitRun(prev) && Next(StateOf(prev), step, st)
      && ((step.ReadQuota? || step.Register?) ==> step.t !in Asleep(prev))
  }

  lemma {:induction false} WaitRunInv(r: WaitRun)
    requires IsWaitRun(r)
    ensures Inv(StateOf(r))
  {
    match r
    case Awake(_) => InitialInv();
    case Sleep(prev, _) => WaitRunInv(prev);
    case Go(prev, step, st) =>
      WaitRunInv(prev);
      StepInv(StateOf(prev), step, st);
  }

  lemma StaysRefused(st: State, step: Step, st': State, t: ThreadId)
    requires Inv(st) && Next(st, step, st') && Refused(st, t) && !WakesQuota(step)
    requires (step.ReadQuota? || step.Register? || step.Abandon?) ==> step.t != t
    ensures Refused(st', t)
  {
    StaysUnregistered(st, step, st', t);
    if AdmissionOk(st', st.ops[t].sess) { NoLostWakeup(st, step, st', st.ops[t].sess); }
  }

  lemma StaysUnregistered(st: State, step: Step, st': State, t: ThreadId)
    requires Domains(st) && Live(st.closing, st.table, st.ops, st.isr) && Next(st, step, st')
    requires t in st.ops && Unregistered(st.ops[t])
    requires (step.ReadQuota? || step.Register? || step.Abandon?) ==> step.t != t
    ensures t in st'.ops && st'.ops[t] == st.ops[t] && st.ops[t].sess in st'.inflight
  {
    if IsSubmitStep(step) { SubmitStepStays(st, step, st', t); }
  }

  lemma SubmitStepStays(st: State, step: Step, st': State, t: ThreadId)
    requires Next(st, step, st') && IsSubmitStep(step) && t in st.ops && Unregistered(st.ops[t])
    requires (step.ReadQuota? || step.Register? || step.Abandon?) ==> step.t != t
    ensures t in st'.ops && st'.ops[t] == st.ops[t] && st'.inflight.Keys == st.inflight.Keys
  {
  }

  /** No lost wake-up, over every run: a submit that is asleep is one that admission still
      refuses.  Nobody sleeps while it could go on. */
  lemma {:induction false} SleepersAreRefused(r: WaitRun, t: ThreadId)
    requires IsWaitRun(r) && t in Asleep(r)
    ensures Refused(StateOf(r), t)
  {
    match r
    case Awake(_) =>
    case Sleep(prev, u) => if t != u { SleepersAreRefused(prev, t); }
    case Go(prev, step, st) =>
      SleepersAreRefused(prev, t);
      WaitRunInv(prev);
      StaysRefused(StateOf(prev), step, st, t);
  }

  // ------------------------------------------------------------ bounded waiting --

  /** Commands registered or counted and not yet uncounted. */
  ghost function Admitted(st: State): int {
    st.total + |RegisteredAll(st.ops)|
  }

  /** When nothing is admitted, every session passes the admission test. */
  lemma NothingAdmitted(st: State, s: SessId)
    requires Inv(st) && s in st.inflight && Admitted(st) <= 0
    ensures AdmissionOk(st, s)
  {
    QuotaMeaning(st.active);
    assert AccountedFor(st.inflight[s], st.table, st.ops, st.isr, s);
    Subset(ValidOf(st.table, s), ValidAll(st.table));
  }

  /** No admission deadlock, whatever the device does: whoever is refused waits for a command
      that has been admitted. */
  lemma BlockedMeansAdmitted(st: State, s: SessId)
    requires Inv(st) && s in st.inflight && !AdmissionOk(st, s)
    ensures Admitted(st) > 0
  {
    if Admitted(st) <= 0 { NothingAdmitted(st, s); }
  }

  ghost function Completions(r: Run): nat {
    if r.From? then 0 else Completions(r.prev) + (if r.step.IsrUncount? then 1 else 0)
  }

  /** No submit is admitted during the run. */
  ghost predicate NoAdmissions(r: Run) {
    r.Then? ==> !r.step.Register? && NoAdmissions(r.prev)
  }

  lemma {:induction false} TotalDrains(r: Run)
    requires IsRun(r) && Inv(First(r)) && NoAdmissions(r)
    ensures Inv(Last(r)) && Admitted(Last(r)) == Admitted(First(r)) - Completions(r)
  {
    match r
    case From(_) =>
    case Then(prev, step, st) =>
      TotalDrains(prev);
      StepInv(Last(prev), step, st);
      StepAdmitted(Last(prev), step, st);
  }

  /** Bounded wait: while nobody else is admitted, at most as many completions can happen as
      commands were admitted at the start, and when they have, the session is admitted, however
      many sessions opened. */
  lemma AdmittedAfterDrain(r: Run, s: SessId)
    requires IsRun(r) && Inv(First(r)) && NoAdmissions(r)
    ensures Completions(r) <= Admitted(First(r))
    ensures Completions(r) == Admitted(First(r)) && s in Last(r).inflight ==> AdmissionOk(Last(r), s)
  {
    TotalDrains(r);
    if s in Last(r).inflight && Admitted(Last(r)) <= 0 { NothingAdmitted(Last(r), s); }
  }

  // ------------------------------------- counters between registering and counting --

  /** A device that completes only commands whose descriptor it was given: no ioctl still
      carries the id. */
  ghost predicate GivenToDevice(st: State, step: Step) {
    step.IsrClaim? ==> forall t :: t in st.ops ==> st.ops[t].desc.id != step.comp.id
  }

  ghost predicate CompletesGiven(r: Run) {
    r.Then? ==> GivenToDevice(Last(r.prev), r.step) && CompletesGiven(r.prev)
  }

  ghost predicate HasEntry(table: seq<CmdCtx>, op: Op) {
    exists i :: 0 <= i < |table| && table[i] == CmdCtx(true, op.desc.id, op.sess)
  }

  /** A submit that is registered and not yet counted has its table entry. */
  ghost predicate Entered(table: seq<CmdCtx>, ops: map<ThreadId, Op>) {
    forall t :: t in ops && ops[t].phase.Registered? ==> HasEntry(table, ops[t])
  }

  lemma RegisterEntered(st: State, t: ThreadId)
    requires Entered(st.table, st.ops) && CanRegister(st, t)
    ensures Entered(DoRegister(st, t).table, DoRegister(st, t).ops)
  {
    var st' := DoRegister(st, t);
    var slot := FirstFree(st.table, 0).value;
    forall u | u in st'.ops && st'.ops[u].phase.Registered? ensures HasEntry(st'.table, st'.ops[u]) {
      if u == t {
        assert st'.table[slot] == CmdCtx(true, st'.ops[u].desc.id, st'.ops[u].sess);
      } else {
        var i :| 0 <= i < |st.table| && st.table[i] == CmdCtx(true, st.ops[u].desc.id, st.ops[u].sess);
        assert st'.table[i] == st.table[i];
      }
    }
  }

  lemma ClaimEntered(st: State, comp: Completion)
    requires Entered(st.table, st.ops) && forall t :: t in st.ops ==> st.ops[t].desc.id != comp.id
    ensures Entered(DoClaim(st, comp).table, st.ops)
  {
    var table' := DoClaim(st, comp).table;
    forall u | u in st.ops && st.ops[u].phase.Registered? ensures HasEntry(table', st.ops[u]) {
      var i :| 0 <= i < |st.table| && st.table[i] == CmdCtx(true, st.ops[u].desc.id, st.ops[u].sess);
      assert table'[i] == st.table[i];
    }
  }

  lemma StepEntered(st: State, step: Step, st': State)
    requires Entered(st.table, st.ops) && Next(st, step, st') && GivenToDevice(st, step)
    ensures Entered(st'.table, st'.ops)
  {
    match step
    case Register(t) => RegisterEntered(st, t);
    case IsrClaim(comp) => ClaimEntered(st, comp);
    case _ =>
  }

  lemma {:induction false} RunEntered(r: Run)
    requires IsRun(r) && First(r) == Initial() && CompletesGiven(r)
    ensures Inv(Last(r)) && Entered(Last(r).table, Last(r).ops)
  {
    match r
    case From(_) => InitialInv();
    case Then(prev, step, st) =>
      RunEntered(prev);
      StepInv(Last(prev), step, st);
      StepEntered(Last(prev), step, st);
  }

  lemma {:induction false} Injected(a: set<ThreadId>, b: set<nat>, f: map<ThreadId, nat>)
    requires a <= f.Keys && forall x :: x in a ==> f[x] in b
    requires forall x, y :: x in a && y in a && f[x] == f[y] ==> x == y
    ensures |a| <= |b|
    decreases a
  {
    if a != {} {
      var x :| x in a;
      Injected(a - {x}, b - {f[x]}, f);
    }
  }

  /** Registered submits of some kind are no more than table entries of that kind. */
  lemma RegisteredFit(table: seq<CmdCtx>, ops: map<ThreadId, Op>, nextId: nat, a: set<ThreadId>, b: set<nat>)
    requires Entered(table, ops) && Ids(table, ops, nextId) && a <= RegisteredAll(ops)
    requires forall t, i :: t in a && 0 <= i < |table| && table[i] == CmdCtx(true, ops[t].desc.id, ops[t].sess) ==> i in b
    ensures |a| <= |b|
  {
    var f := map t | t in a :: SlotOf(table, ops[t]);
    Injected(a, b, f);
  }

  ghost function SlotOf(table: seq<CmdCtx>, op: Op): (i: nat)
    requires HasEntry(table, op)
    ensures i < |table| && table[i] == CmdCtx(true, op.desc.id, op.sess)
  {
    var i :| 0 <= i < |table| && table[i] == CmdCtx(true, op.desc.id, op.sess);
    i
  }

  lemma OwnFit(table: seq<CmdCtx>, ops: map<ThreadId, Op>, nextId: nat, s: SessId)
    requires Entered(table, ops) && Ids(table, ops, nextId)
    ensures |RegisteredOf(ops, s)| <= |ValidOf(table, s)|
  {
    RegisteredFit(table, ops, nextId, RegisteredOf(ops, s), ValidOf(table, s));
  }

  lemma OthersFit(table: seq<CmdCtx>, ops: map<ThreadId, Op>, nextId: nat, s: SessId)
    requires Entered(table, ops) && Ids(table, ops, nextId)
    ensures |RegisteredAll(ops)| - |RegisteredOf(ops, s)| <= |ValidAll(table)| - |ValidOf(table, s)|
  {
    var mine, all := RegisteredOf(ops, s), RegisteredAll(ops);
    var slots, taken := ValidOf(table, s), ValidAll(table);
    RegisteredFit(table, ops, nextId, all - mine, taken - slots);
    Difference(all, mine);
    Difference(taken, slots);
  }

  lemma CountersAgree(st: State, s: SessId)
    requires Accounting(st.inflight, st.total, st.table, st.ops, st.isr) && Ids(st.table, st.ops, st.nextId)
    requires Entered(st.table, st.ops) && s in st.inflight
    ensures 0 <= st.inflight[s] <= st.total
  {
    OwnFit(st.table, st.ops, st.nextId, s);
    OthersFit(st.table, st.ops, st.nextId, s);
    assert AccountedFor(st.inflight[s], st.table, st.ops, st.isr, s);
  }

  lemma Difference<T>(a: set<T>, b: set<T>)
    requires b <= a
    ensures |a - b| == |a| - |b|
  {
    assert a == b + (a - b);
  }

  /** At every instant, also between registering and counting, each session's counter is between
      zero and the device-wide counter. */
  lemma SessionWithinTotal(r: Run, s: SessId)
    requires IsRun(r) && First(r) == Initial() && CompletesGiven(r) && s in Last(r).inflight
    ensures 0 <= Last(r).inflight[s] <= Last(r).total
  {
    RunEntered(r);
    CountersAgree(Last(r), s);
  }

  /** No admission deadlock: at every instant a refused session implies `total_inflight` > 0, so a
      completion, and with it a wake-up, is still to come. */
  lemma BlockedMeansInFlight(r: Run, s: SessId)
    requires IsRun(r) && First(r) == Initial() && CompletesGiven(r) && s in Last(r).inflight && !AdmissionOk(Last(r), s)
    ensures Last(r).total > 0
  {
    QuotaMeaning(Last(r).active);
    SessionWithinTotal(r, s);
  }

  // ---------------------------------------------------------------- liveness --

  /** In every reachable state the session that the interrupt handler is about to write to or
      decrement, and every session in the routing table, is still allocated, with its ring. */
  lemma RoutedSessionsLive(r: Run)
    requires IsRun(r) && First(r) == Initial()
    ensures var st := Last(r);
            && (!st.isr.Idle? ==> st.isr.owner in st.rings && st.isr.owner in st.inflight)
            && (forall i :: 0 <= i < |st.table| && st.table[i].valid ==>
                  st.table[i].sess in st.rings && st.table[i].sess in st.inflight)
  {
    InitialInv();
    RunInv(r);
  }
}
