/**
 Command groups: a set of Fences of one Stream whose joint outcome can be asked for once the
 group is sealed.
 */
module CommandGroups {
  import opened Basics
  import opened DriverCore
  import opened StreamSystem
  import opened StreamGuarantees
  import opened StreamRuntime

  datatype GroupStatus = Pending | SomeFailed | AllOk

  // ---------------------------------------------------------- specification --

  ghost predicate Known(ids: seq<nat>, f: map<nat, Fence>) {
    forall j :: 0 <= j < |ids| ==> ids[j] in f
  }

  ghost predicate AllReady(ids: seq<nat>, f: map<nat, Fence>)
    requires Known(ids, f)
  {
    forall j :: 0 <= j < |ids| ==> f[ids[j]].ready
  }

  ghost predicate AnyFailed(ids: seq<nat>, f: map<nat, Fence>)
    requires Known(ids, f)
  {
    exists j :: 0 <= j < |ids| && f[ids[j]].ready && f[ids[j]].status != DMA_ACCEL_OK
  }

  /** The outcome of the group while its Fences are `f`. */
  ghost function Verdict(ids: seq<nat>, f: map<nat, Fence>): GroupStatus
    requires Known(ids, f)
  {
    if !AllReady(ids, f) then Pending else if AnyFailed(ids, f) then SomeFailed else AllOk
  }

  /** Once a group is not pending, its verdict is final. */
  lemma VerdictFinal(ids: seq<nat>, f: map<nat, Fence>, g: map<nat, Fence>)
    requires Known(ids, f) && Later(f, g) && Verdict(ids, f) != Pending
    ensures Known(ids, g) && Verdict(ids, g) == Verdict(ids, f)
  {
    assert forall j :: 0 <= j < |ids| ==> g[ids[j]] == f[ids[j]];
  }

  /** Number of members that are not ready. */
  ghost function Unready(ids: seq<nat>, f: map<nat, Fence>): nat
    requires Known(ids, f)
  {
    if ids == [] then 0
    else
      assert Known(ids[1..], f);
      (if f[ids[0]].ready then 0 else 1) + Unready(ids[1..], f)
  }

  /** Every member that becomes ready lowers the measure of `wait`, and nothing raises it. */
  lemma {:induction false} UnreadyFalls(ids: seq<nat>, f: map<nat, Fence>, g: map<nat, Fence>)
    requires Known(ids, f) && Later(f, g)
    ensures Known(ids, g) && Unready(ids, g) <= Unready(ids, f)
    ensures (exists j :: 0 <= j < |ids| && !f[ids[j]].ready && g[ids[j]].ready) ==> Unready(ids, g) < Unready(ids, f)
    decreases |ids|
  {
    if ids != [] {
      var rest := ids[1..];
      assert Known(rest, f);
      UnreadyFalls(rest, f, g);
      if j :| 0 <= j < |ids| && !f[ids[j]].ready && g[ids[j]].ready {
        if j > 0 { assert rest[j - 1] == ids[j]; }
      }
    }
  }

  // ------------------------------------------------------------------ object --

  class CommandGroup {
    const stream: StreamObject
    var members: seq<FenceState>
    var isSealed: bool
    ghost var ids: seq<nat>

    constructor (stream: StreamObject)
      requires stream.Valid()
      ensures Valid() && this.stream == stream && members == [] && !isSealed && ids == []
    {
      this.stream := stream;
      members, isSealed, ids := [], false, [];
    }

    ghost predicate Lists(all: map<nat, FenceState>)
      reads this
    {
      |ids| == |members| && forall j :: 0 <= j < |ids| ==> ids[j] in all && all[ids[j]] == members[j]
    }

    ghost predicate Valid()
      reads this, stream, stream.all.Values
    {
      stream.Valid() && Lists(stream.all)
    }

    /** Membership is fixed by `Seal`. */
    method Add(fence: FenceState) returns (ok: bool)
      requires Valid() && stream.Mine(fence)
      modifies this`members, this`ids
      ensures Valid() && (ok <==> !isSealed)
      ensures members == if ok then old(members) + [fence] else old(members)
      ensures ids == if ok then old(ids) + [fence.cmdId] else old(ids)
    {
      ok := !isSealed;
      if ok {
        members, ids := members + [fence], ids + [fence.cmdId];
      }
    }

    method Seal()
      requires Valid()
      modifies this`isSealed
      ensures Valid() && isSealed
    {
      isSealed := true;
    }

    /** The scan of `query`: looks at every member. */
    method ScanAll() returns (r: GroupStatus)
      requires Valid()
      ensures r == Verdict(ids, stream.fences)
    {
      var anyNotReady, anyFailed := false, false;
      for i := 0 to |members|
        invariant anyNotReady <==> exists j :: 0 <= j < i && !stream.fences[ids[j]].ready
        invariant anyFailed <==> exists j :: 0 <= j < i && stream.fences[ids[j]].ready && stream.fences[ids[j]].status != DMA_ACCEL_OK
      {
        var f := members[i];
        assert stream.fences[ids[i]] == Fence(f.ready, f.status);
        if !f.ready {
          anyNotReady := true;
          continue;
        }
        if f.Status() != Some(DMA_ACCEL_OK) {
          anyFailed := true;
        }
      }
      r := if anyNotReady then Pending else if anyFailed then SomeFailed else AllOk;
    }

    /** The scan of `wait`: stops at the first member that is not ready. */
    method ScanToPending() returns (pending: FenceState?, anyFailed: bool)
      requires Valid()
      ensures pending != null ==> stream.Mine(pending) && !pending.ready && pending.cmdId in ids
      ensures pending == null ==> AllReady(ids, stream.fences) && (anyFailed <==> AnyFailed(ids, stream.fences))
    {
      pending, anyFailed := null, false;
      for i := 0 to |members|
        invariant forall j :: 0 <= j < i ==> stream.fences[ids[j]].ready
        invariant anyFailed <==> exists j :: 0 <= j < i && stream.fences[ids[j]].ready && stream.fences[ids[j]].status != DMA_ACCEL_OK
      {
        var f := members[i];
        assert stream.fences[ids[i]] == Fence(f.ready, f.status);
        if !f.ready {
          pending := f;
          return;
        }
        if f.Status() != Some(DMA_ACCEL_OK) {
          anyFailed := true;
        }
      }
    }

    /** Asking before the group is sealed is an error; otherwise the answer is the verdict on
        the Fences as they are after a pump. */
    method Query() returns (r: Option<GroupStatus>)
      requires Valid()
      modifies stream`outstanding, stream`view, stream`fences, stream.all.Values, stream.fd`unread
      ensures Valid() && stream.all == old(stream.all) && Later(old(stream.fences), stream.fences)
      ensures r == if isSealed then Some(Verdict(ids, stream.fences)) else None
      ensures r.Some? ==> stream.fd.unread == []
      ensures r.Some? && Verdict(ids, old(stream.fences)) != Pending ==> r.value == Verdict(ids, old(stream.fences))
    {
      if !isSealed {
        return None;
      }
      ghost var got := stream.Pump();
      var v := ScanAll();
      r := Some(v);
      if Verdict(ids, old(stream.fences)) != Pending {
        VerdictFinal(ids, old(stream.fences), stream.fences);
      }
    }

    /** Waits for one member after the other.  Each successful wait lowers the number of
        members that are not ready, so the loop ends. */
    method WaitForMembers(deadline: Option<nat>) returns (r: GroupStatus, ghost total: seq<Completion>)
      requires Valid()
      modifies stream`outstanding, stream`view, stream`fences, stream.all.Values, stream.fd
      ensures Valid() && stream.all == old(stream.all)
      ensures stream.fences == PumpAll(total, old(stream.view).outstanding, old(stream.fences)).1
      ensures old(stream.fd.ToCome()) == total + stream.fd.ToCome()
      ensures r == Verdict(ids, stream.fences)
      ensures r == Pending && deadline.None? ==> stream.fd.ToCome() == []
    {
      ghost var o0, f0, c0 := stream.view.outstanding, stream.fences, stream.fd.ToCome();
      total := [];
      var left, pending, anyFailed := deadline, null, false;
      pending, anyFailed := ScanToPending();
      var expired := false;
      while pending != null && !expired
        invariant Valid() && stream.all == old(stream.all)
        invariant (stream.view.outstanding, stream.fences) == PumpAll(total, o0, f0)
        invariant c0 == total + stream.fd.ToCome()
        invariant left.None? <==> deadline.None?
        invariant pending != null ==> stream.Mine(pending) && !pending.ready && pending.cmdId in ids
        invariant pending == null ==> AllReady(ids, stream.fences) && (anyFailed <==> AnyFailed(ids, stream.fences))
        invariant expired && deadline.None? ==> pending != null && stream.fd.ToCome() == []
        decreases Unready(ids, stream.fences), !expired
      {
        var done := false;
        if left != Some(0) {
          ghost var before, got := stream.fences, [];
          done, left, got := stream.Wait(pending, left);
          UnreadyFalls(ids, before, stream.fences);
          PumpAppend(total, got, o0, f0);
          Reassociate(total, got, stream.fd.ToCome());
          total := total + got;
        }
        expired := !done;
        if done {
          pending, anyFailed := ScanToPending();
        }
      }
      r := if pending != null then Pending else if anyFailed then SomeFailed else AllOk;
    }

    /** The answer of `wait` is the verdict on return; without a deadline it is pending exactly
        if some member's completion never arrives. */
    method Wait(deadline: Option<nat>) returns (r: Option<GroupStatus>)
      requires Valid()
      modifies stream`outstanding, stream`view, stream`fences, stream.all.Values, stream.fd
      ensures Valid() && stream.all == old(stream.all) && Later(old(stream.fences), stream.fences)
      ensures r == if isSealed then Some(Verdict(ids, stream.fences)) else None
      ensures isSealed && deadline.None? ==>
                (r == Some(Pending) <==> !WillFinish(ids, old(stream.fences), old(stream.fd.ToCome())))
    {
      if !isSealed {
        return None;
      }
      ghost var v0, f0, total := stream.view, stream.fences, [];
      var v;
      v, total := WaitForMembers(deadline);
      r := Some(v);
      PumpTracks(total, v0, f0);
      GroupOutcome(ids, total, stream.fd.ToCome(), v0, f0);
    }
  }

  /** Every member is ready or its completion is to come. */
  ghost predicate WillFinish(ids: seq<nat>, f: map<nat, Fence>, toCome: seq<Completion>)
    requires Known(ids, f)
  {
    forall j :: 0 <= j < |ids| ==> f[ids[j]].ready || Arrives(toCome, ids[j])
  }

  lemma GroupOutcome(ids: seq<nat>, got: seq<Completion>, rest: seq<Completion>, st: Stream, fences: map<nat, Fence>)
    requires Tracks(st, fences) && AllTracked(st, fences) && Known(ids, fences)
    ensures var f := PumpAll(got, st.outstanding, fences).1;
            && Known(ids, f)
            && (AllReady(ids, f) || rest == [] ==> (AllReady(ids, f) <==> WillFinish(ids, fences, got + rest)))
  {
    PumpTracks(got, st, fences);
    var f := PumpAll(got, st.outstanding, fences).1;
    forall j | 0 <= j < |ids| && !fences[ids[j]].ready
      ensures f[ids[j]].ready || rest == [] ==> (f[ids[j]].ready <==> Arrives(got + rest, ids[j]))
    {
      WaitOutcome(got, rest, st, fences, ids[j]);
    }
  }

  // -------------------------------------------------------------- whole runs --

  /** Over every run of the whole system, whatever any Stream does: a verdict that is not
      pending never changes, and it tells whether some command of the group was completed by
      the device with an error. */
  lemma VerdictOverRuns(r: SRun, r': SRun, ids: seq<nat>)
    requires IsSRun(r') && Continues(r, r') && Known(ids, Now(r).fences) && Verdict(ids, Now(r).fences) != Pending
    ensures Known(ids, Now(r').fences) && Verdict(ids, Now(r').fences) == Verdict(ids, Now(r).fences)
    ensures Known(ids, Now(r').fences) && forall j :: 0 <= j < |ids| ==> ids[j] in Now(r').k.posted
    ensures Verdict(ids, Now(r').fences) == SomeFailed <==>
              exists j :: 0 <= j < |ids| && Now(r').k.posted[ids[j]] != DMA_ACCEL_OK
  {
    forall j | 0 <= j < |ids|
      ensures ids[j] in Now(r').fences && Now(r').fences[ids[j]] == Now(r).fences[ids[j]]
      ensures ids[j] in Now(r').k.posted && Now(r').k.posted[ids[j]] == Now(r).fences[ids[j]].status
    {
      FenceReadyOnce(r, r', ids[j]);
    }
  }
}
