/**
 The userspace objects: Fence states on the heap that a Stream and its callers share, and the
 Stream with its two containers.  The Stream's methods are proved against the functions of the
 system model (`Throttled`, `Booked`, `PumpAll`).
 */
module StreamRuntime {
  import opened Basics
  import opened DriverCore
  import opened StreamSystem

  // ---------------------------------------------------------- specification --

  /** Fences that are ready stay as they are; none disappears. */
  ghost predicate Later(f: map<nat, Fence>, g: map<nat, Fence>) {
    forall id :: id in f ==> id in g && (f[id].ready ==> g[id] == f[id])
  }

  /** The Stream waits for every Fence that is not ready. */
  ghost predicate AllTracked(st: Stream, fences: map<nat, Fence>) {
    forall id :: id in fences && !fences[id].ready ==> id in st.outstanding
  }

  /** Whatever the batch holds (duplicates, unknown ids, in any order), pumping it keeps
      `outstanding_` equal to the unready part of `submission_order_` and changes no Fence
      that was ready. */
  lemma {:induction false} PumpTracks(batch: seq<Completion>, st: Stream, fences: map<nat, Fence>)
    requires Tracks(st, fences)
    ensures var (o, f) := PumpAll(batch, st.outstanding, fences);
            && f.Keys == fences.Keys && Tracks(st.(outstanding := o), f) && Later(fences, f)
            && (AllTracked(st, fences) ==> AllTracked(st.(outstanding := o), f))
    decreases |batch|
  {
    if batch != [] {
      var (o, f) := PumpOne(batch[0], st.outstanding, fences);
      assert Tracks(st.(outstanding := o), f) && Later(fences, f);
      PumpTracks(batch[1..], st.(outstanding := o), f);
    }
  }

  /** What the comment on the two containers promises: every entry of `submission_order_` is
      also in `outstanding_`. */
  ghost predicate AllOutstanding(st: Stream) {
    forall j :: 0 <= j < |st.order| ==> st.order[j] in st.outstanding
  }

  /** It holds exactly while no entry of the window is ready. */
  lemma AllOutstandingIff(st: Stream, fences: map<nat, Fence>)
    requires Tracks(st, fences)
    ensures AllOutstanding(st) <==> forall j :: 0 <= j < |st.order| ==> !fences[st.order[j]].ready
  {
    forall j | 0 <= j < |st.order| ensures st.order[j] in st.outstanding <==> !fences[st.order[j]].ready {
      assert st.order[j] in st.order;
    }
  }

  /** One completion breaks it: command 5 is submitted and its completion is pumped. */
  lemma AllOutstandingBroken()
    ensures var st, fences := Stream({5}, [5], None), map[5 := Fence(false, 0)];
            var (o, f) := PumpAll([Completion(5, 0)], st.outstanding, fences);
            && Tracks(st, fences) && AllOutstanding(st)
            && Tracks(st.(outstanding := o), f) && !AllOutstanding(st.(outstanding := o))
  {
    var st, fences := Stream({5}, [5], None), map[5 := Fence(false, 0)];
    var batch := [Completion(5, 0)];
    assert st.order[0] in st.order;
    PumpTracks(batch, st, fences);
    PumpReadies(batch, st, fences, 5);
    assert batch[0].id == 5;
    var (o, f) := PumpAll(batch, st.outstanding, fences);
    AllOutstandingIff(st.(outstanding := o), f);
    assert f[st.order[0]].ready;
  }

  lemma {:induction false} PumpAppend(a: seq<Completion>, b: seq<Completion>, outstanding: set<nat>, fences: map<nat, Fence>)
    ensures var (o, f) := PumpAll(a, outstanding, fences);
            PumpAll(a + b, outstanding, fences) == PumpAll(b, o, f)
    decreases |a|
  {
    if a == [] {
      assert a + b == b;
    } else {
      var (o, f) := PumpOne(a[0], outstanding, fences);
      assert (a + b)[1..] == a[1..] + b;
      PumpAppend(a[1..], b, o, f);
    }
  }

  lemma PumpLast(batch: seq<Completion>, i: nat, outstanding: set<nat>, fences: map<nat, Fence>)
    requires i < |batch|
    ensures var (o, f) := PumpAll(batch[..i], outstanding, fences);
            PumpAll(batch[..i + 1], outstanding, fences) == PumpOne(batch[i], o, f)
  {
    assert batch[..i + 1] == batch[..i] + [batch[i]];
    PumpAppend(batch[..i], [batch[i]], outstanding, fences);
  }

  ghost predicate Arrives(batch: seq<Completion>, id: nat) {
    exists j :: 0 <= j < |batch| && batch[j].id == id
  }

  /** An outstanding Fence becomes ready exactly when a completion for it is in the batch. */
  lemma {:induction false} PumpReadies(batch: seq<Completion>, st: Stream, fences: map<nat, Fence>, id: nat)
    requires Tracks(st, fences) && id in st.outstanding
    ensures var (o, f) := PumpAll(batch, st.outstanding, fences);
            id in f && (f[id].ready <==> Arrives(batch, id))
    decreases |batch|
  {
    if batch != [] {
      var (o, f) := PumpOne(batch[0], st.outstanding, fences);
      var rest := batch[1..];
      assert Tracks(st.(outstanding := o), f);
      PumpTracks(rest, st.(outstanding := o), f);
      if batch[0].id != id {
        PumpReadies(rest, st.(outstanding := o), f, id);
        assert forall j :: 0 <= j < |rest| ==> rest[j] == batch[j + 1];
        assert forall j :: 1 <= j < |batch| ==> batch[j] == rest[j - 1];
      }
    }
  }

  /** Submitting keeps the Stream's invariant while there is room in the window. */
  lemma BookTracks(st: Stream, fences: map<nat, Fence>, id: nat)
    requires Tracks(st, fences) && |st.order| < QUEUE_DEPTH && id !in fences
    ensures Tracks(Booked(st.(ioctl := Some(id))), fences[id := Fence(false, 0)])
    ensures AllTracked(st, fences) ==> AllTracked(Booked(st.(ioctl := Some(id))), fences[id := Fence(false, 0)])
  {
  }

  /** The Stream with `outstanding` left after pumping, and its oldest entry gone if `leaves`. */
  function AfterThrottle(st: Stream, outstanding: set<nat>, leaves: bool): Stream
    requires leaves ==> st.order != []
  {
    var st' := st.(outstanding := outstanding);
    if leaves then Throttled(st') else st'
  }

  /** The oldest entry leaves the window only when it is ready, so nothing unready is lost. */
  lemma ThrottleTracks(st: Stream, fences: map<nat, Fence>)
    requires Tracks(st, fences) && st.order != [] && fences[st.order[0]].ready
    ensures Tracks(Throttled(st), fences) && Throttled(st).outstanding == st.outstanding
  {
    var st' := Throttled(st);
    assert st'.outstanding == st.outstanding;
    forall id ensures id in st.outstanding <==> id in st'.order && id in fences && !fences[id].ready {
      if id in st.order && id != st.order[0] {
        var j :| 0 <= j < |st.order| && st.order[j] == id;
        assert st'.order[j - 1] == id;
      }
    }
  }

  // ----------------------------------------------------------------- objects --

  class FenceState {
    const cmdId: nat
    var ready: bool
    var status: nat

    constructor (id: nat)
      ensures cmdId == id && !ready && status == 0
    {
      cmdId, ready, status := id, false, 0;
    }

    /** Reading the status of a Fence that is not ready is an error. */
    function Status(): (r: Option<nat>)
      reads this
      ensures r.Some? <==> ready
      ensures ready ==> r.value == status
    {
      if !ready then None else Some(status)
    }
  }

  /** The containers refer to the Fence states `all`, and `view` is what they hold. */
  ghost predicate Wired(all: map<nat, FenceState>, outstanding: map<nat, FenceState>, order: seq<FenceState>, view: Stream) {
    && (forall id :: id in all ==> all[id].cmdId == id)
    && (forall id :: id in outstanding ==> id in all && outstanding[id] == all[id])
    && view.outstanding == outstanding.Keys && view.ioctl == None && |view.order| == |order|
    && (forall j :: 0 <= j < |order| ==> view.order[j] in all && all[view.order[j]] == order[j])
  }

  lemma BookWired(all: map<nat, FenceState>, outstanding: map<nat, FenceState>, order: seq<FenceState>, view: Stream,
                  fence: FenceState)
    requires Wired(all, outstanding, order, view) && fence.cmdId !in all
    ensures var id := fence.cmdId;
            Wired(all[id := fence], outstanding[id := fence], order + [fence], Booked(view.(ioctl := Some(id))))
  {
  }

  function Concat(batches: seq<seq<Completion>>): seq<Completion> {
    if batches == [] then [] else batches[0] + Concat(batches[1..])
  }

  /** The session's file descriptor: the completions that can be read now, and those that
      arrive during each later poll.  An empty arrival is a poll that times out or is
      interrupted. */
  class SessionFd {
    var unread: seq<Completion>
    var arrivals: seq<seq<Completion>>

    /** Everything that is still to be read. */
    ghost function ToCome(): seq<Completion>
      reads this
    {
      unread + Concat(arrivals)
    }

    method Poll() returns (readable: bool)
      modifies this`unread, this`arrivals
      ensures readable <==> unread != []
      ensures ToCome() == old(ToCome())
      ensures old(unread) != [] ==> unread == old(unread) && arrivals == old(arrivals)
      ensures old(unread) == [] && old(arrivals) != [] ==> |arrivals| == |old(arrivals)| - 1
      ensures old(unread) == [] && old(arrivals) == [] ==> !readable && arrivals == []
    {
      if unread == [] && arrivals != [] {
        assert [] + Concat(arrivals) == Concat(arrivals);
        unread, arrivals := arrivals[0], arrivals[1..];
      }
      readable := unread != [];
    }

    /** The driver's non-blocking read: at most `max` completions, oldest first. */
    method Read(max: nat) returns (batch: seq<Completion>)
      modifies this`unread
      ensures |batch| == if |old(unread)| < max then |old(unread)| else max
      ensures old(unread) == batch + unread
      ensures old(ToCome()) == batch + ToCome()
    {
      var n := if |unread| < max then |unread| else max;
      batch := unread[..n];
      unread := unread[n..];
    }
  }

  class StreamObject {
    const fd: SessionFd
    var outstanding: map<nat, FenceState>
    var order: seq<FenceState>
    /** Every Fence state this Stream has created, and what each holds. */
    ghost var all: map<nat, FenceState>
    ghost var fences: map<nat, Fence>
    /** The Stream as the system model sees it, between submits. */
    ghost var view: Stream

    constructor (fd: SessionFd)
      ensures Valid() && this.fd == fd && all == map[] && fences == map[] && view == Stream({}, [], None)
    {
      this.fd := fd;
      outstanding, order := map[], [];
      all, fences, view := map[], map[], Stream({}, [], None);
    }

    ghost predicate Linked()
      reads this, all.Values
    {
      && Wired(all, outstanding, order, view)
      && all.Keys == fences.Keys
      && (forall id :: id in all ==> fences[id] == Fence(all[id].ready, all[id].status))
    }

    /** `outstanding_` holds exactly the Fences of the window that are not ready, and these are
        all that are not ready. */
    ghost predicate Valid()
      reads this, all.Values
    {
      Linked() && Tracks(view, fences) && AllTracked(view, fences)
    }

    /** What reading `batch` makes of the Stream. */
    twostate predicate Pumped(batch: seq<Completion>)
      reads this
    {
      && all == old(all) && order == old(order)
      && view == old(view).(outstanding := PumpAll(batch, old(view).outstanding, old(fences)).0)
      && fences == PumpAll(batch, old(view).outstanding, old(fences)).1
    }

    /** One entry of a batch. */
    method Complete(c: Completion)
      requires Linked()
      modifies this`outstanding, this`view, this`fences, all.Values
      ensures Linked() && all == old(all) && order == old(order)
      ensures var (o, f) := PumpOne(c, old(view).outstanding, old(fences));
              view == old(view).(outstanding := o) && fences == f
    {
      if c.id !in outstanding {
        return;
      }
      var state := outstanding[c.id];
      state.ready := true;
      state.status := c.status;
      outstanding := outstanding - {c.id};
      fences, view := fences[c.id := Fence(true, c.status)], view.(outstanding := view.outstanding - {c.id});
    }

    method CompleteAll(batch: seq<Completion>)
      requires Linked()
      modifies this`outstanding, this`view, this`fences, all.Values
      ensures Linked() && Pumped(batch)
    {
      for i := 0 to |batch|
        invariant Linked() && Pumped(batch[..i])
      {
        PumpLast(batch, i, old(view).outstanding, old(fences));
        Complete(batch[i]);
      }
      assert batch[..|batch|] == batch;
    }

    /** Reads batches of 32 until one comes back short. */
    method Drain() returns (ghost got: seq<Completion>)
      requires Linked()
      modifies this`outstanding, this`view, this`fences, all.Values, fd`unread
      ensures Linked() && Pumped(got)
      ensures got == old(fd.unread) && fd.unread == []
    {
      ghost var v0, f0, c0 := view, fences, fd.unread;
      got := [];
      var full := true;
      while full
        invariant Linked() && all == old(all) && order == old(order)
        invariant view == v0.(outstanding := PumpAll(got, v0.outstanding, f0).0) && fences == PumpAll(got, v0.outstanding, f0).1
        invariant c0 == got + fd.unread
        invariant !full ==> fd.unread == []
        decreases full, |fd.unread|
      {
        var batch := fd.Read(PUMP_BATCH);
        CompleteAll(batch);
        PumpAppend(got, batch, v0.outstanding, f0);
        Reassociate(got, batch, fd.unread);
        got := got + batch;
        full := |batch| == PUMP_BATCH;
      }
    }

    /** Everything readable is read, and each completion makes its own Fence ready. */
    method Pump() returns (ghost got: seq<Completion>)
      requires Valid()
      modifies this`outstanding, this`view, this`fences, all.Values, fd`unread
      ensures Valid() && Pumped(got) && Later(old(fences), fences)
      ensures got == old(fd.unread) && fd.unread == []
    {
      ghost var st, f0 := view, fences;
      got := Drain();
      PumpTracks(got, st, f0);
    }

    ghost predicate Mine(fence: FenceState)
      reads this
    {
      fence.cmdId in all && all[fence.cmdId] == fence
    }

    /** One poll, and a pump if there is something to read. */
    method PollAndPump() returns (readable: bool, ghost got: seq<Completion>)
      requires Linked()
      modifies this`outstanding, this`view, this`fences, all.Values, fd
      ensures Linked() && Pumped(got)
      ensures old(fd.ToCome()) == got + fd.ToCome()
      ensures !readable ==> got == []
      ensures readable ==> fd.unread == [] && (old(fd.unread) != [] || old(fd.arrivals) != [])
      ensures old(fd.arrivals) != [] || old(fd.unread) != [] ==>
                |fd.arrivals| < |old(fd.arrivals)| || (fd.arrivals == old(fd.arrivals) && old(fd.unread) != [] && readable)
      ensures old(fd.arrivals) == [] ==> fd.arrivals == []
      ensures old(fd.unread) != [] ==> readable && got == old(fd.unread)
    {
      got := [];
      readable := fd.Poll();
      if readable {
        got := Drain();
      }
    }

    /** The poll loop.  The deadline is the number of polls that fit before it; without a
        deadline the loop gives up only when no completion will ever arrive, which stands for
        blocking for ever. */
    method PollUntil(fence: FenceState, deadline: Option<nat>) returns (left: Option<nat>, ghost got: seq<Completion>)
      requires Linked() && Mine(fence)
      modifies this`outstanding, this`view, this`fences, all.Values, fd
      ensures Linked() && Pumped(got)
      ensures old(fd.ToCome()) == got + fd.ToCome()
      ensures old(fence.ready) ==> got == []
      ensures fence.ready || deadline.Some? || fd.ToCome() == []
      ensures left.None? <==> deadline.None?
      ensures deadline != Some(0) && !old(fence.ready) ==> old(fd.unread) <= got
    {
      ghost var v0, f0, c0, u0 := view, fences, fd.ToCome(), fd.unread;
      got, left := [], deadline;
      while !fence.ready
        invariant Linked() && all == old(all) && order == old(order)
        invariant view == v0.(outstanding := PumpAll(got, v0.outstanding, f0).0) && fences == PumpAll(got, v0.outstanding, f0).1
        invariant c0 == got + fd.ToCome()
        invariant left.None? <==> deadline.None?
        invariant old(fence.ready) ==> got == []
        invariant u0 <= got || (got == [] && left == deadline && fd.unread == u0)
        decreases |fd.arrivals|, |fd.unread|
      {
        if left == Some(0) || (left.None? && fd.unread == [] && fd.arrivals == []) {
          break;
        }
        left := if left.None? then None else Some(left.value - 1);
        ghost var more;
        var readable;
        readable, more := PollAndPump();
        PumpAppend(got, more, v0.outstanding, f0);
        Reassociate(got, more, fd.ToCome());
        got := got + more;
        if !readable && left.Some? {
          break;
        }
      }
    }

    /** Polls and pumps until the Fence is ready or the deadline passes.  Without a deadline it
        succeeds exactly when the Fence is ready already or its completion is to come; with time
        for one poll it succeeds if the completion is already there. */
    method Wait(fence: FenceState, deadline: Option<nat>) returns (done: bool, left: Option<nat>, ghost got: seq<Completion>)
      requires Valid() && Mine(fence)
      modifies this`outstanding, this`view, this`fences, all.Values, fd
      ensures Valid() && Pumped(got) && Later(old(fences), fences)
      ensures (done <==> fence.ready) && (left.None? <==> deadline.None?)
      ensures old(fd.ToCome()) == got + fd.ToCome()
      ensures old(fence.ready) ==> got == []
      ensures !done && deadline.None? ==> fd.ToCome() == []
      ensures deadline.None? ==> (done <==> old(fence.ready) || Arrives(old(fd.ToCome()), fence.cmdId))
      ensures deadline != Some(0) && Arrives(old(fd.unread), fence.cmdId) ==> done
    {
      ghost var st, f0, u0 := view, fences, fd.unread;
      left, got := PollUntil(fence, deadline);
      done := fence.ready;
      PumpTracks(got, st, f0);
      if deadline != Some(0) && !old(fence.ready) {
        UnreadReadies(u0, got, st, f0, fence.cmdId);
      }
      if deadline.None? && !old(fence.ready) {
        WaitOutcome(got, fd.ToCome(), st, f0, fence.cmdId);
      }
    }

    /** Wait for the oldest command of a full window and let it leave.  `ok` is false when that
        wait never ends. */
    method AwaitOldest() returns (ok: bool, ghost got: seq<Completion>)
      requires Valid() && order != []
      modifies this`outstanding, this`order, this`view, this`fences, all.Values, fd
      ensures Valid() && all == old(all) && Later(old(fences), fences)
      ensures old(fd.ToCome()) == got + fd.ToCome()
      ensures fences == PumpAll(got, old(view).outstanding, old(fences)).1
      ensures view == AfterThrottle(old(view), PumpAll(got, old(view).outstanding, old(fences)).0, ok)
    {
      var oldest := order[0];
      var left;
      ok, left, got := Wait(oldest, None);
      if ok {
        PopOldest();
      }
    }

    /** Backpressure: with 16 commands in the window, wait for the oldest one. */
    method ThrottleBeforeSubmit() returns (ok: bool, ghost got: seq<Completion>)
      requires Valid()
      modifies this`outstanding, this`order, this`view, this`fences, all.Values, fd
      ensures Valid() && all == old(all) && Later(old(fences), fences)
      ensures old(fd.ToCome()) == got + fd.ToCome()
      ensures |old(order)| < QUEUE_DEPTH ==> ok && got == []
      ensures ok ==> |order| < QUEUE_DEPTH
      ensures fences == PumpAll(got, old(view).outstanding, old(fences)).1
      ensures view == AfterThrottle(old(view), PumpAll(got, old(view).outstanding, old(fences)).0,
                                      ok && |old(order)| >= QUEUE_DEPTH)
    {
      ok, got := true, [];
      if |order| >= QUEUE_DEPTH {
        ok, got := AwaitOldest();
      }
    }

    method PopOldest()
      requires Valid() && order != [] && order[0].ready
      modifies this`outstanding, this`order, this`view
      ensures Valid() && view == Throttled(old(view))
    {
      var oldest := order[0];
      assert view.order[0] == oldest.cmdId && fences[oldest.cmdId].ready;
      ThrottleTracks(view, fences);
      outstanding := outstanding - {oldest.cmdId};
      order := order[1..];
      view := Throttled(view);
    }

    /** Throttle, then book the command under the id that the driver returned; `None` is an
        ioctl that failed.  The result is null when no command was submitted. */
    method Submit(id: Option<nat>) returns (fence: FenceState?, ghost got: seq<Completion>)
      requires Valid() && (id.Some? ==> id.value !in all)
      modifies this`outstanding, this`order, this`view, this`fences, this`all, all.Values, fd
      ensures Valid() && Later(old(fences), fences)
      ensures fence == null ==> all == old(all)
      ensures |old(order)| < QUEUE_DEPTH && id.Some? ==> fence != null
      ensures fence != null ==> id.Some? && fresh(fence) && all == old(all)[id.value := fence]
      ensures fence != null ==>
                var (o, f) := PumpAll(got, old(view).outstanding, old(fences));
                && view == Booked(AfterThrottle(old(view), o, |old(order)| >= QUEUE_DEPTH).(ioctl := id))
                && fences == f[id.value := Fence(false, 0)]
    {
      var ok;
      ok, got := ThrottleBeforeSubmit();
      if !ok || id.None? {
        return null, got;
      }
      fence := Book(id.value);
    }

    method Append(id: nat) returns (fence: FenceState)
      requires Linked() && id !in all
      modifies this`outstanding, this`order, this`view, this`fences, this`all
      ensures Linked() && fresh(fence) && all == old(all)[id := fence]
      ensures view == Booked(old(view).(ioctl := Some(id)))
      ensures fences == old(fences)[id := Fence(false, 0)]
    {
      fence := new FenceState(id);
      BookWired(all, outstanding, order, view, fence);
      outstanding, order := outstanding[id := fence], order + [fence];
      all, fences, view := all[id := fence], fences[id := Fence(false, 0)], Booked(view.(ioctl := Some(id)));
    }

    /** A new command enters both containers. */
    method Book(id: nat) returns (fence: FenceState)
      requires Valid() && id !in all && |order| < QUEUE_DEPTH
      modifies this`outstanding, this`order, this`view, this`fences, this`all
      ensures Valid() && fresh(fence) && all == old(all)[id := fence]
      ensures view == Booked(old(view).(ioctl := Some(id)))
      ensures fences == old(fences)[id := Fence(false, 0)]
    {
      BookTracks(view, fences, id);
      fence := Append(id);
    }
  }

  lemma UnreadReadies(unread: seq<Completion>, got: seq<Completion>, st: Stream, fences: map<nat, Fence>, id: nat)
    requires Tracks(st, fences) && AllTracked(st, fences) && id in fences && !fences[id].ready && unread <= got
    ensures var f := PumpAll(got, st.outstanding, fences).1; id in f && (Arrives(unread, id) ==> f[id].ready)
  {
    PumpReadies(got, st, fences, id);
    assert forall j :: 0 <= j < |unread| ==> unread[j] == got[j];
  }

  lemma WaitOutcome(got: seq<Completion>, rest: seq<Completion>, st: Stream, fences: map<nat, Fence>, id: nat)
    requires Tracks(st, fences) && AllTracked(st, fences) && id in fences && !fences[id].ready
    ensures var f := PumpAll(got, st.outstanding, fences).1;
            && id in f
            && (f[id].ready || rest == [] ==> (f[id].ready <==> Arrives(got + rest, id)))
  {
    PumpReadies(got, st, fences, id);
    assert forall j :: 0 <= j < |got| ==> got[j] == (got + rest)[j];
    if rest == [] { assert got + rest == got; }
  }
}
