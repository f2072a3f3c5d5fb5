/**
 The deferred-submission engine as a state machine: registering commands, the three
 `depends_on` forms, one visit of the `progress` pass, and the environment's moves (the
 device applies a submitted command, a Fence becomes ready).  Runs interleave all of these
 freely, so a pass during which completions arrive is one of the runs.
 */
module Dependencies {
  import opened Basics
  import opened DependencyGraph

  /** One PendingCommandState.  `done` is the status of the command's own Fence once ready. */
  datatype Command = Command(
    fenceDeps: seq<nat>,
    groupDeps: seq<seq<nat>>,
    pendingDeps: seq<nat>,
    submitted: bool,
    blocked: bool,
    done: Option<nat>)

  /** `cmds` is the registry; `ext` holds the ready Fences that the engine did not create. */
  datatype Engine = Engine(cmds: seq<Command>, ext: map<nat, nat>)

  /** The engine and the order in which the device has applied its commands. */
  datatype World = World(engine: Engine, effects: seq<nat>)

  /** The status that each command, and each outside Fence, ends with. */
  datatype Outcomes = Outcomes(own: nat -> nat, ext: nat -> nat)

  function GraphOf(e: Engine): Graph {
    seq(|e.cmds|, i requires 0 <= i < |e.cmds| => e.cmds[i].pendingDeps)
  }

  /** Every pending dependency is registered in this engine. */
  ghost predicate Registered(e: Engine) {
    forall i, k :: 0 <= i < |e.cmds| && 0 <= k < |e.cmds[i].pendingDeps| ==>
      e.cmds[i].pendingDeps[k] < |e.cmds|
  }

  const FreshCommand := Command([], [], [], false, false, None)

  const EmptyWorld := World(Engine([], map[]), [])

  // -------------------------------------------------- eligibility scanning --

  datatype Scan = Clear | Pending | Failed

  /** First Fence that is not ready-and-OK decides; none means clear. */
  function ScanFences(fs: seq<nat>, ext: map<nat, nat>): Scan {
    if fs == [] then Clear
    else if fs[0] !in ext then Pending
    else if ext[fs[0]] != DMA_ACCEL_OK then Failed
    else ScanFences(fs[1..], ext)
  }

  function ScanGroups(gs: seq<seq<nat>>, ext: map<nat, nat>): Scan {
    if gs == [] then Clear
    else if ScanFences(gs[0], ext) != Clear then ScanFences(gs[0], ext)
    else ScanGroups(gs[1..], ext)
  }

  function ScanOne(c: Command): Scan {
    if c.blocked then Failed
    else if !c.submitted then Pending
    else if c.done.None? then Pending
    else if c.done.value != DMA_ACCEL_OK then Failed
    else Clear
  }

  function ScanPending(ds: seq<nat>, cmds: seq<Command>): Scan
    requires forall k :: 0 <= k < |ds| ==> ds[k] < |cmds|
  {
    if ds == [] then Clear
    else if ScanOne(cmds[ds[0]]) != Clear then ScanOne(cmds[ds[0]])
    else ScanPending(ds[1..], cmds)
  }

  /** The three dependency lists in order, stopping at the first that is not clear. */
  function Evaluate(e: Engine, i: nat): Scan
    requires Registered(e) && i < |e.cmds|
  {
    var c := e.cmds[i];
    if ScanFences(c.fenceDeps, e.ext) != Clear then ScanFences(c.fenceDeps, e.ext)
    else if ScanGroups(c.groupDeps, e.ext) != Clear then ScanGroups(c.groupDeps, e.ext)
    else ScanPending(c.pendingDeps, e.cmds)
  }

  /** One iteration of the registry loop of `progress`. */
  function Visit(e: Engine, i: nat): Engine
    requires Registered(e) && i < |e.cmds|
  {
    var c := e.cmds[i];
    if c.submitted || c.blocked then e
    else match Evaluate(e, i)
      case Failed => e.(cmds := e.cmds[i := c.(blocked := true)])
      case Pending => e
      case Clear => e.(cmds := e.cmds[i := c.(submitted := true)])
  }

  // ------------------------------------------------------------------ steps --

  datatype Step =
    | Defer
    | DependFence(i: nat, f: nat)
    | DependGroup(i: nat, fs: seq<nat>)
    | DependPending(i: nat, j: nat)
    | VisitStep(i: nat)
    | Effect(i: nat)
    | Complete(i: nat)
    | ExtComplete(f: nat)

  ghost predicate Enabled(w: World, s: Step) {
    var n := |w.engine.cmds|;
    match s
    case Defer => true
    case DependFence(i, _) => i < n
    case DependGroup(i, _) => i < n
    case DependPending(i, j) => i < n && j < n
    case VisitStep(i) => i < n
    case Effect(i) => i < n && w.engine.cmds[i].submitted && i !in w.effects
    case Complete(i) => i < n && i in w.effects && w.engine.cmds[i].done.None?
    case ExtComplete(f) => f !in w.engine.ext
  }

  /** `depends_on` on a submitted command, or one that would close a cycle, throws and
      changes nothing. */
  ghost function DependOn(e: Engine, i: nat, j: nat): Engine
    requires i < |e.cmds|
  {
    var c := e.cmds[i];
    if c.submitted || Reaches(GraphOf(e), j, i) then e
    else e.(cmds := e.cmds[i := c.(pendingDeps := c.pendingDeps + [j])])
  }

  ghost function Apply(w: World, s: Step, o: Outcomes): World
    requires Registered(w.engine) && Enabled(w, s)
  {
    var e := w.engine;
    match s
    case Defer => w.(engine := e.(cmds := e.cmds + [FreshCommand]))
    case DependFence(i, f) =>
      var c := e.cmds[i];
      if c.submitted then w
      else w.(engine := e.(cmds := e.cmds[i := c.(fenceDeps := c.fenceDeps + [f])]))
    case DependGroup(i, fs) =>
      var c := e.cmds[i];
      if c.submitted then w
      else w.(engine := e.(cmds := e.cmds[i := c.(groupDeps := c.groupDeps + [fs])]))
    case DependPending(i, j) => w.(engine := DependOn(e, i, j))
    case VisitStep(i) => w.(engine := Visit(e, i))
    case Effect(i) => w.(effects := w.effects + [i])
    case Complete(i) =>
      w.(engine := e.(cmds := e.cmds[i := e.cmds[i].(done := Some(o.own(i)))]))
    case ExtComplete(f) => w.(engine := e.(ext := e.ext[f := o.ext(f)]))
  }

  // ------------------------------------------------------------- invariant --

  ghost predicate Shape(e: Engine) {
    && Registered(e) && Acyclic(GraphOf(e))
    && (forall i :: 0 <= i < |e.cmds| ==> !(e.cmds[i].submitted && e.cmds[i].blocked))
  }

  ghost predicate FencesOk(fs: seq<nat>, ext: map<nat, nat>) {
    forall k :: 0 <= k < |fs| ==> fs[k] in ext && ext[fs[k]] == DMA_ACCEL_OK
  }

  ghost predicate Satisfied(e: Engine, c: Command) {
    && FencesOk(c.fenceDeps, e.ext)
    && (forall k :: 0 <= k < |c.groupDeps| ==> FencesOk(c.groupDeps[k], e.ext))
    && (forall k :: 0 <= k < |c.pendingDeps| ==>
          && c.pendingDeps[k] < |e.cmds|
          && e.cmds[c.pendingDeps[k]].submitted
          && e.cmds[c.pendingDeps[k]].done == Some(DMA_ACCEL_OK))
  }

  /** Whatever was submitted had every dependency complete with OK, and still has. */
  ghost predicate Gated(e: Engine) {
    forall i :: 0 <= i < |e.cmds| && e.cmds[i].submitted ==> Satisfied(e, e.cmds[i])
  }

  ghost predicate LocalOk(c: Command, o: Outcomes) {
    && (forall k :: 0 <= k < |c.fenceDeps| ==> o.ext(c.fenceDeps[k]) == DMA_ACCEL_OK)
    && (forall k, m :: 0 <= k < |c.groupDeps| && 0 <= m < |c.groupDeps[k]| ==>
          o.ext(c.groupDeps[k][m]) == DMA_ACCEL_OK)
  }

  /** A dependency chain that ends in a failure: the last command has a failed Fence
      among its own Fences and groups, or it is itself a failed dependency. */
  ghost predicate FailingChain(e: Engine, o: Outcomes, p: seq<nat>) {
    && IsPath(GraphOf(e), p)
    && (!LocalOk(e.cmds[p[|p| - 1]], o) || (|p| > 1 && o.own(p[|p| - 1]) != DMA_ACCEL_OK))
  }

  /** The verdict fixed by graph and outcomes alone: no chain from `i` ends in a failure. */
  ghost predicate Good(e: Engine, o: Outcomes, i: nat) {
    forall p :: FailingChain(e, o, p) ==> p[0] != i
  }

  ghost predicate BlockedHasCause(e: Engine, o: Outcomes) {
    forall i :: 0 <= i < |e.cmds| && e.cmds[i].blocked ==> !Good(e, o, i)
  }

  /** Ready statuses are the outcomes; a command completes only after the device applied it
      and is applied only after it was submitted, once. */
  ghost predicate Faithful(w: World, o: Outcomes) {
    var e := w.engine;
    && (forall f :: f in e.ext ==> e.ext[f] == o.ext(f))
    && (forall i :: 0 <= i < |e.cmds| && e.cmds[i].done.Some? ==>
          e.cmds[i].done.value == o.own(i) && i in w.effects)
    && (forall k :: 0 <= k < |w.effects| ==> w.effects[k] < |e.cmds| && e.cmds[w.effects[k]].submitted)
    && (forall a, b :: 0 <= a < b < |w.effects| ==> w.effects[a] != w.effects[b])
  }

  ghost predicate Before(s: seq<nat>, x: nat, b: int) {
    exists a :: 0 <= a < b && a < |s| && s[a] == x
  }

  /** Every dependency of an applied command was applied earlier. */
  ghost predicate Ordered(w: World) {
    forall b :: 0 <= b < |w.effects| ==>
      w.effects[b] < |w.engine.cmds| &&
      forall d :: d in w.engine.cmds[w.effects[b]].pendingDeps ==> Before(w.effects, d, b)
  }

  ghost predicate Inv(w: World, o: Outcomes) {
    && Shape(w.engine)
    && Gated(w.engine)
    && BlockedHasCause(w.engine, o)
    && Faithful(w, o)
    && Ordered(w)
  }

  // ------------------------------------------------------- scanning lemmas --

  lemma {:induction false} ScanFencesMeaning(fs: seq<nat>, ext: map<nat, nat>)
    ensures ScanFences(fs, ext) == Clear <==> FencesOk(fs, ext)
    ensures ScanFences(fs, ext) == Failed ==>
              exists k :: 0 <= k < |fs| && fs[k] in ext && ext[fs[k]] != DMA_ACCEL_OK
    ensures ScanFences(fs, ext) == Pending ==> exists k :: 0 <= k < |fs| && fs[k] !in ext
  {
    if fs != [] {
      ScanFencesMeaning(fs[1..], ext);
      assert fs == [fs[0]] + fs[1..];
    }
  }

  lemma {:induction false} ScanGroupsMeaning(gs: seq<seq<nat>>, ext: map<nat, nat>)
    ensures ScanGroups(gs, ext) == Clear <==> forall k :: 0 <= k < |gs| ==> FencesOk(gs[k], ext)
    ensures ScanGroups(gs, ext) == Failed ==>
              exists k, m :: 0 <= k < |gs| && 0 <= m < |gs[k]| && gs[k][m] in ext && ext[gs[k][m]] != DMA_ACCEL_OK
    ensures ScanGroups(gs, ext) == Pending ==>
              exists k, m :: 0 <= k < |gs| && 0 <= m < |gs[k]| && gs[k][m] !in ext
  {
    if gs != [] {
      ScanFencesMeaning(gs[0], ext);
      ScanGroupsMeaning(gs[1..], ext);
      assert gs == [gs[0]] + gs[1..];
    }
  }

  lemma {:induction false} ScanPendingMeaning(ds: seq<nat>, cmds: seq<Command>)
    requires forall k :: 0 <= k < |ds| ==> ds[k] < |cmds|
    ensures ScanPending(ds, cmds) == Clear <==>
              forall k :: 0 <= k < |ds| ==> ScanOne(cmds[ds[k]]) == Clear
    ensures ScanPending(ds, cmds) == Failed ==>
              exists k :: 0 <= k < |ds| && ScanOne(cmds[ds[k]]) == Failed
    ensures ScanPending(ds, cmds) == Pending ==>
              exists k :: 0 <= k < |ds| && ScanOne(cmds[ds[k]]) == Pending
  {
    if ds != [] {
      ScanPendingMeaning(ds[1..], cmds);
      assert ds == [ds[0]] + ds[1..];
    }
  }

  /** The Fence at `k` is failed and everything before it is ready and OK. */
  ghost predicate FailsAt(fs: seq<nat>, ext: map<nat, nat>, k: int) {
    0 <= k < |fs| && FencesOk(fs[..k], ext) && fs[k] in ext && ext[fs[k]] != DMA_ACCEL_OK
  }

  ghost predicate WaitsAt(fs: seq<nat>, ext: map<nat, nat>, k: int) {
    0 <= k < |fs| && FencesOk(fs[..k], ext) && fs[k] !in ext
  }

  /** The scan decides at the first Fence that is not ready-and-OK: a failed one blocks at once,
      whatever comes after it. */
  lemma {:induction false} ScanFencesPosition(fs: seq<nat>, ext: map<nat, nat>)
    ensures ScanFences(fs, ext) == Failed <==> exists k :: FailsAt(fs, ext, k)
    ensures ScanFences(fs, ext) == Pending <==> exists k :: WaitsAt(fs, ext, k)
  {
    ScanFencesMeaning(fs, ext);
    if fs != [] && fs[0] in ext && ext[fs[0]] == DMA_ACCEL_OK {
      var rest := fs[1..];
      ScanFencesPosition(rest, ext);
      forall k ensures FailsAt(rest, ext, k) ==> FailsAt(fs, ext, k + 1)
        ensures WaitsAt(rest, ext, k) ==> WaitsAt(fs, ext, k + 1)
      {
        FencesShift(fs, ext, k);
      }
      forall k ensures FailsAt(fs, ext, k) ==> FailsAt(rest, ext, k - 1)
        ensures WaitsAt(fs, ext, k) ==> WaitsAt(rest, ext, k - 1)
      {
        FencesShift(fs, ext, k - 1);
      }
    } else if fs != [] {
      assert FencesOk(fs[..0], ext);
      assert fs[0] in ext ==> FailsAt(fs, ext, 0);
      assert fs[0] !in ext ==> WaitsAt(fs, ext, 0);
    }
  }

  lemma FencesShift(fs: seq<nat>, ext: map<nat, nat>, k: int)
    requires fs != [] && fs[0] in ext && ext[fs[0]] == DMA_ACCEL_OK
    ensures 0 <= k < |fs| - 1 ==> (FencesOk(fs[1..][..k], ext) <==> FencesOk(fs[..k + 1], ext)) && fs[1..][k] == fs[k + 1]
  {
    if 0 <= k < |fs| - 1 {
      var a, b := fs[1..][..k], fs[..k + 1];
      assert forall j :: 0 <= j < |a| ==> a[j] == b[j + 1];
      assert forall j :: 0 < j < |b| ==> b[j] == a[j - 1];
    }
  }

  function Flatten(gs: seq<seq<nat>>): seq<nat> {
    if gs == [] then [] else gs[0] + Flatten(gs[1..])
  }

  lemma {:induction false} ScanAppend(a: seq<nat>, b: seq<nat>, ext: map<nat, nat>)
    ensures ScanFences(a + b, ext) == if ScanFences(a, ext) != Clear then ScanFences(a, ext) else ScanFences(b, ext)
    decreases |a|
  {
    if a == [] {
      assert a + b == b;
    } else {
      assert (a + b)[0] == a[0] && (a + b)[1..] == a[1..] + b;
      ScanAppend(a[1..], b, ext);
    }
  }

  /** The nested scan with its two breaks is one scan over the members of all groups in order, so
      `ScanFencesPosition` says where it decides. */
  lemma {:induction false} ScanGroupsFlat(gs: seq<seq<nat>>, ext: map<nat, nat>)
    ensures ScanGroups(gs, ext) == ScanFences(Flatten(gs), ext)
  {
    if gs != [] {
      ScanAppend(gs[0], Flatten(gs[1..]), ext);
      ScanGroupsFlat(gs[1..], ext);
    }
  }

  /** The command can never satisfy whoever waits for it. */
  ghost predicate GaveUp(c: Command) {
    c.blocked || (c.submitted && c.done.Some? && c.done.value != DMA_ACCEL_OK)
  }

  ghost predicate Delivered(c: Command) {
    !c.blocked && c.submitted && c.done == Some(DMA_ACCEL_OK)
  }

  ghost predicate AllDelivered(ds: seq<nat>, cmds: seq<Command>) {
    forall k :: 0 <= k < |ds| ==> ds[k] < |cmds| && Delivered(cmds[ds[k]])
  }

  ghost predicate GaveUpAt(ds: seq<nat>, cmds: seq<Command>, k: int) {
    0 <= k < |ds| && ds[k] < |cmds| && GaveUp(cmds[ds[k]]) && AllDelivered(ds[..k], cmds)
  }

  /** Pending dependencies: the first one that has not delivered decides. */
  lemma {:induction false} ScanPendingPosition(ds: seq<nat>, cmds: seq<Command>)
    requires forall k :: 0 <= k < |ds| ==> ds[k] < |cmds|
    ensures ScanPending(ds, cmds) == Failed <==> exists k :: GaveUpAt(ds, cmds, k)
    ensures ScanPending(ds, cmds) == Clear <==> AllDelivered(ds, cmds)
  {
    if ds != [] {
      ScanPendingPosition(ds[1..], cmds);
      DeliveredHead(ds, cmds);
      if Delivered(cmds[ds[0]]) {
        forall k ensures GaveUpAt(ds[1..], cmds, k) ==> GaveUpAt(ds, cmds, k + 1) { GaveUpShift(ds, cmds, k); }
        forall k ensures GaveUpAt(ds, cmds, k) ==> GaveUpAt(ds[1..], cmds, k - 1) { GaveUpShift(ds, cmds, k - 1); }
      } else {
        assert AllDelivered(ds[..0], cmds);
        assert GaveUp(cmds[ds[0]]) ==> GaveUpAt(ds, cmds, 0);
        forall k ensures GaveUpAt(ds, cmds, k) ==> k == 0 { if 0 < k < |ds| { DeliveredHead(ds[..k], cmds); } }
      }
    }
  }

  lemma DeliveredHead(ds: seq<nat>, cmds: seq<Command>)
    requires ds != []
    ensures AllDelivered(ds, cmds) <==> ds[0] < |cmds| && Delivered(cmds[ds[0]]) && AllDelivered(ds[1..], cmds)
  {
    assert forall k :: 0 < k < |ds| ==> ds[k] == ds[1..][k - 1];
    assert forall k :: 0 <= k < |ds| - 1 ==> ds[1..][k] == ds[k + 1];
  }

  lemma GaveUpShift(ds: seq<nat>, cmds: seq<Command>, k: int)
    requires ds != [] && ds[0] < |cmds| && Delivered(cmds[ds[0]])
    ensures GaveUpAt(ds[1..], cmds, k) ==> GaveUpAt(ds, cmds, k + 1)
    ensures GaveUpAt(ds, cmds, k + 1) ==> GaveUpAt(ds[1..], cmds, k)
  {
    if 0 <= k < |ds| - 1 {
      DeliveredHead(ds[..k + 1], cmds);
      assert ds[..k + 1][1..] == ds[1..][..k];
    }
  }

  // ------------------------------------------------- verdicts are graph facts --

  /** Chains from a submitted command stay among submitted commands and are all OK. */
  lemma {:induction false} SubmittedChain(w: World, o: Outcomes, p: seq<nat>, k: nat)
    requires Shape(w.engine) && Gated(w.engine) && Faithful(w, o)
    requires IsPath(GraphOf(w.engine), p) && w.engine.cmds[p[0]].submitted && k < |p|
    ensures w.engine.cmds[p[k]].submitted
    ensures LocalOk(w.engine.cmds[p[k]], o)
    ensures k > 0 ==> o.own(p[k]) == DMA_ACCEL_OK
  {
    if k > 0 {
      SubmittedChain(w, o, p, k - 1);
      var c := w.engine.cmds[p[k - 1]];
      assert p[k] in c.pendingDeps;
      assert Satisfied(w.engine, c);
    }
    assert Satisfied(w.engine, w.engine.cmds[p[k]]);
  }

  /** A submitted command's verdict is Good. */
  lemma SubmittedIsGood(w: World, o: Outcomes, i: nat)
    requires Inv(w, o) && i < |w.engine.cmds| && w.engine.cmds[i].submitted
    ensures Good(w.engine, o, i)
  {
    forall p | FailingChain(w.engine, o, p) ensures p[0] != i {
      if p[0] == i {
        SubmittedChain(w, o, p, |p| - 1);
      }
    }
  }

  lemma PrependChain(e: Engine, o: Outcomes, i: nat, d: nat)
    requires Shape(e) && i < |e.cmds| && d in e.cmds[i].pendingDeps && !Good(e, o, d)
    ensures !Good(e, o, i)
  {
    var p :| FailingChain(e, o, p) && p[0] == d;
    ExtendFront(GraphOf(e), i, p);
    assert FailingChain(e, o, [i] + p);
  }

  /** The verdict unfolds as documented: all outside Fences OK, and every pending
      dependency has a good verdict and finishes OK. */
  lemma GoodUnfold(e: Engine, o: Outcomes, i: nat)
    requires Shape(e) && i < |e.cmds|
    ensures Good(e, o, i) <==>
            && LocalOk(e.cmds[i], o)
            && forall d :: d in e.cmds[i].pendingDeps ==> Good(e, o, d) && o.own(d) == DMA_ACCEL_OK
  {
    var g := GraphOf(e);
    if Good(e, o, i) {
      if !LocalOk(e.cmds[i], o) { assert FailingChain(e, o, [i]); }
      forall d | d in e.cmds[i].pendingDeps ensures Good(e, o, d) && o.own(d) == DMA_ACCEL_OK {
        if !Good(e, o, d) { PrependChain(e, o, i, d); }
        assert d in g[i] && d < |g|;
        if o.own(d) != DMA_ACCEL_OK { assert FailingChain(e, o, [i, d]); }
      }
    } else {
      var p :| FailingChain(e, o, p) && p[0] == i;
      if |p| > 1 {
        SubPath(g, p, 1, |p|);
        assert p[1] in g[p[0]];
        if |p| > 2 { assert FailingChain(e, o, p[1..]); }
        if !LocalOk(e.cmds[p[|p| - 1]], o) { assert FailingChain(e, o, p[1..]); }
      }
    }
  }

  /** A failing chain survives when commands and dependencies are only added. */
  ghost predicate Grows(e: Engine, e': Engine) {
    && |e.cmds| <= |e'.cmds|
    && forall i :: 0 <= i < |e.cmds| ==>
         && e.cmds[i].fenceDeps <= e'.cmds[i].fenceDeps
         && e.cmds[i].groupDeps <= e'.cmds[i].groupDeps
         && e.cmds[i].pendingDeps <= e'.cmds[i].pendingDeps
  }

  lemma FailingChainGrows(e: Engine, e': Engine, o: Outcomes, i: nat)
    requires Grows(e, e') && i < |e.cmds| && !Good(e, o, i)
    ensures !Good(e', o, i)
  {
    var p :| FailingChain(e, o, p) && p[0] == i;
    var g, g' := GraphOf(e), GraphOf(e');
    forall k | 0 < k < |p| ensures p[k] in g'[p[k - 1]] {
      assert p[k] in g[p[k - 1]];
      assert g[p[k - 1]] <= g'[p[k - 1]];
      var m :| 0 <= m < |g[p[k - 1]]| && g[p[k - 1]][m] == p[k];
      assert g'[p[k - 1]][m] == p[k];
    }
    var c, c' := e.cmds[p[|p| - 1]], e'.cmds[p[|p| - 1]];
    if LocalOk(c', o) { LocalOkGrows(c, c', o); }
    assert FailingChain(e', o, p);
  }

  lemma LocalOkGrows(c: Command, c': Command, o: Outcomes)
    requires c.fenceDeps <= c'.fenceDeps && c.groupDeps <= c'.groupDeps && LocalOk(c', o)
    ensures LocalOk(c, o)
  {
    forall k | 0 <= k < |c.fenceDeps| ensures o.ext(c.fenceDeps[k]) == DMA_ACCEL_OK {
      assert c'.fenceDeps[k] == c.fenceDeps[k];
    }
    forall k, m | 0 <= k < |c.groupDeps| && 0 <= m < |c.groupDeps[k]|
      ensures o.ext(c.groupDeps[k][m]) == DMA_ACCEL_OK
    {
      assert c'.groupDeps[k] == c.groupDeps[k];
    }
  }

  // ----------------------------------------------------- steps keep the invariant --

  /** A visit blocks a command only when its verdict is bad. */
  lemma VisitFailed(w: World, o: Outcomes, i: nat)
    requires Inv(w, o) && i < |w.engine.cmds| && !w.engine.cmds[i].submitted
    requires Evaluate(w.engine, i) == Failed
    ensures !Good(w.engine, o, i)
  {
    var e, c := w.engine, w.engine.cmds[i];
    GoodUnfold(e, o, i);
    ScanFencesMeaning(c.fenceDeps, e.ext);
    ScanGroupsMeaning(c.groupDeps, e.ext);
    ScanPendingMeaning(c.pendingDeps, e.cmds);
    if ScanFences(c.fenceDeps, e.ext) == Clear && ScanGroups(c.groupDeps, e.ext) == Clear {
      var k :| 0 <= k < |c.pendingDeps| && ScanOne(e.cmds[c.pendingDeps[k]]) == Failed;
      assert c.pendingDeps[k] in c.pendingDeps;
    } else if ScanFences(c.fenceDeps, e.ext) == Clear {
      var k, m :| 0 <= k < |c.groupDeps| && 0 <= m < |c.groupDeps[k]| && c.groupDeps[k][m] in e.ext &&
        e.ext[c.groupDeps[k][m]] != DMA_ACCEL_OK;
      assert o.ext(c.groupDeps[k][m]) != DMA_ACCEL_OK;
    }
  }

  /** A visit submits a command only when everything it waits for is complete with OK. */
  lemma VisitClear(e: Engine, i: nat)
    requires Shape(e) && i < |e.cmds|
    requires Evaluate(e, i) == Clear
    ensures Satisfied(e, e.cmds[i])
  {
    var c := e.cmds[i];
    ScanFencesMeaning(c.fenceDeps, e.ext);
    ScanGroupsMeaning(c.groupDeps, e.ext);
    ScanPendingMeaning(c.pendingDeps, e.cmds);
  }

  lemma SatisfiedPersists(e: Engine, e': Engine, c: Command)
    requires Satisfied(e, c) && |e.cmds| <= |e'.cmds|
    requires forall f :: f in e.ext ==> f in e'.ext && e'.ext[f] == e.ext[f]
    requires forall i :: 0 <= i < |e.cmds| && e.cmds[i].submitted && e.cmds[i].done.Some? ==>
               e'.cmds[i].submitted && e'.cmds[i].done == e.cmds[i].done
    ensures Satisfied(e', c)
  {
    forall k | 0 <= k < |c.groupDeps| ensures FencesOk(c.groupDeps[k], e'.ext) {
      assert FencesOk(c.groupDeps[k], e.ext);
    }
  }

  /** Steps only add commands, dependencies, readiness and decisions; a submitted command's
      dependencies are frozen. */
  lemma StepMonotone(w: World, s: Step, o: Outcomes)
    requires Registered(w.engine) && Enabled(w, s)
    ensures var e, e' := w.engine, Apply(w, s, o).engine;
            && Grows(e, e')
            && (forall f :: f in e.ext ==> f in e'.ext && e'.ext[f] == e.ext[f])
            && (forall i :: 0 <= i < |e.cmds| ==>
                  && (e.cmds[i].submitted ==> e'.cmds[i].submitted)
                  && (e.cmds[i].blocked ==> e'.cmds[i].blocked)
                  && (e.cmds[i].done.Some? ==> e'.cmds[i].done == e.cmds[i].done)
                  && (e.cmds[i].submitted ==> e'.cmds[i].(done := e.cmds[i].done) == e.cmds[i]))
    ensures w.effects <= Apply(w, s, o).effects
  {
  }

  lemma StepShape(w: World, s: Step, o: Outcomes)
    requires Inv(w, o) && Enabled(w, s)
    ensures Shape(Apply(w, s, o).engine)
  {
    var e, e' := w.engine, Apply(w, s, o).engine;
    var g := GraphOf(e);
    match s {
      case Defer =>
        AddNodeAcyclic(g);
        assert GraphOf(e') == AddNode(g);
      case DependPending(i, j) =>
        if e' != e {
          AddEdgeAcyclic(g, i, j);
          assert GraphOf(e') == AddEdge(g, i, j);
        }
      case _ =>
        assert GraphOf(e') == g;
    }
  }

  lemma StepGated(w: World, s: Step, o: Outcomes)
    requires Inv(w, o) && Enabled(w, s)
    ensures Gated(Apply(w, s, o).engine)
  {
    var e, e' := w.engine, Apply(w, s, o).engine;
    StepMonotone(w, s, o);
    forall i | 0 <= i < |e'.cmds| && e'.cmds[i].submitted ensures Satisfied(e', e'.cmds[i]) {
      if !e.cmds[i].submitted {
        VisitClear(e, i);
      }
      SatisfiedPersists(e, e', e.cmds[i]);
    }
  }

  lemma StepCause(w: World, s: Step, o: Outcomes)
    requires Inv(w, o) && Enabled(w, s)
    ensures BlockedHasCause(Apply(w, s, o).engine, o)
  {
    var e, e' := w.engine, Apply(w, s, o).engine;
    StepMonotone(w, s, o);
    forall i | 0 <= i < |e'.cmds| && e'.cmds[i].blocked ensures !Good(e', o, i) {
      if !e.cmds[i].blocked {
        VisitFailed(w, o, i);
      }
      FailingChainGrows(e, e', o, i);
    }
  }

  lemma StepFaithful(w: World, s: Step, o: Outcomes)
    requires Registered(w.engine) && Faithful(w, o) && Enabled(w, s)
    ensures Faithful(Apply(w, s, o), o)
  {
    StepMonotone(w, s, o);
  }

  lemma StepOrdered(w: World, s: Step, o: Outcomes)
    requires Registered(w.engine) && Gated(w.engine) && Faithful(w, o) && Ordered(w) && Enabled(w, s)
    ensures Ordered(Apply(w, s, o))
  {
    var w' := Apply(w, s, o);
    StepMonotone(w, s, o);
    forall b | 0 <= b < |w'.effects|
      ensures w'.effects[b] < |w'.engine.cmds|
      ensures forall d :: d in w'.engine.cmds[w'.effects[b]].pendingDeps ==> Before(w'.effects, d, b)
    {
      var x := w'.effects[b];
      if b < |w.effects| {
        assert x == w.effects[b];
        forall d | d in w'.engine.cmds[x].pendingDeps ensures Before(w'.effects, d, b) {
          assert d in w.engine.cmds[x].pendingDeps;
          assert Before(w.effects, d, b);
          var a :| 0 <= a < b && a < |w.effects| && w.effects[a] == d;
          assert w'.effects[a] == d;
        }
      } else {
        var c := w.engine.cmds[x];
        assert Satisfied(w.engine, c);
        forall d | d in c.pendingDeps ensures Before(w'.effects, d, b) {
          assert d in w.effects;
          var a :| 0 <= a < |w.effects| && w.effects[a] == d;
          assert w'.effects[a] == d;
        }
      }
    }
  }

  lemma StepInv(w: World, s: Step, o: Outcomes)
    requires Inv(w, o) && Enabled(w, s)
    ensures Inv(Apply(w, s, o), o)
  {
    StepShape(w, s, o);
    StepGated(w, s, o);
    StepCause(w, s, o);
    StepFaithful(w, s, o);
    StepOrdered(w, s, o);
  }

  lemma EmptyInv(o: Outcomes)
    ensures Inv(EmptyWorld, o)
  {
    assert GraphOf(EmptyWorld.engine) == [];
  }

  // ------------------------------------------------------------------- runs --

  ghost predicate StepTo(w: World, s: Step, w': World, o: Outcomes) {
    Registered(w.engine) && Enabled(w, s) && w' == Apply(w, s, o)
  }

  /** A run: worlds linked by steps. */
  ghost predicate IsRun(ws: seq<World>, ss: seq<Step>, o: Outcomes) {
    && |ws| == |ss| + 1
    && (forall k {:trigger ss[k]} :: 0 <= k < |ss| ==> StepTo(ws[k], ss[k], ws[k + 1], o))
  }

  lemma {:induction false} RunInv(ws: seq<World>, ss: seq<Step>, o: Outcomes, k: nat)
    requires IsRun(ws, ss, o) && ws[0] == EmptyWorld && k < |ws|
    ensures Inv(ws[k], o)
  {
    if k == 0 {
      EmptyInv(o);
    } else {
      RunInv(ws, ss, o, k - 1);
      StepInv(ws[k - 1], ss[k - 1], o);
    }
  }

  lemma {:induction false} FlagsPermanent(ws: seq<World>, ss: seq<Step>, o: Outcomes, a: nat, b: nat, i: nat)
    requires IsRun(ws, ss, o) && a <= b < |ws| && i < |ws[a].engine.cmds|
    ensures i < |ws[b].engine.cmds|
    ensures ws[a].engine.cmds[i].submitted ==> ws[b].engine.cmds[i].submitted
    ensures ws[a].engine.cmds[i].blocked ==> ws[b].engine.cmds[i].blocked
    decreases b
  {
    if a < b {
      FlagsPermanent(ws, ss, o, a, b - 1, i);
      StepMonotone(ws[b - 1], ss[b - 1], o);
    }
  }

  /** In every invariant state the flags exclude each other and agree with `Good`. */
  lemma FlagsMeanGood(w: World, o: Outcomes, i: nat)
    requires Inv(w, o) && i < |w.engine.cmds|
    ensures w.engine.cmds[i].submitted ==> !w.engine.cmds[i].blocked && Good(w.engine, o, i)
    ensures w.engine.cmds[i].blocked ==> !w.engine.cmds[i].submitted && !Good(w.engine, o, i)
  {
    if w.engine.cmds[i].submitted { SubmittedIsGood(w, o, i); }
  }

  /** Decisions are permanent, exclusive and agree with the final graph's verdict, at every
      point of every run. */
  lemma DecisionsPermanent(ws: seq<World>, ss: seq<Step>, o: Outcomes, a: nat, b: nat, i: nat)
    requires IsRun(ws, ss, o) && ws[0] == EmptyWorld && a <= b < |ws| && i < |ws[a].engine.cmds|
    ensures i < |ws[b].engine.cmds|
    ensures ws[a].engine.cmds[i].submitted ==>
              ws[b].engine.cmds[i].submitted && !ws[b].engine.cmds[i].blocked && Good(ws[b].engine, o, i)
    ensures ws[a].engine.cmds[i].blocked ==>
              ws[b].engine.cmds[i].blocked && !ws[b].engine.cmds[i].submitted && !Good(ws[b].engine, o, i)
  {
    RunInv(ws, ss, o, b);
    FlagsPermanent(ws, ss, o, a, b, i);
    FlagsMeanGood(ws[b], o, i);
  }

  ghost predicate AllDecided(e: Engine) {
    forall i :: 0 <= i < |e.cmds| ==> e.cmds[i].submitted || e.cmds[i].blocked
  }

  ghost predicate SameDependencies(e: Engine, e': Engine) {
    && |e.cmds| == |e'.cmds|
    && forall i :: 0 <= i < |e.cmds| ==>
         && e.cmds[i].fenceDeps == e'.cmds[i].fenceDeps
         && e.cmds[i].groupDeps == e'.cmds[i].groupDeps
         && e.cmds[i].pendingDeps == e'.cmds[i].pendingDeps
  }

  /** Confluence: two runs that end fully decided over the same dependencies and outcomes
      agree on every command, whatever the completion timing and interleaving were; and the
      split is the documented one. */
  lemma Confluence(ws: seq<World>, ss: seq<Step>, vs: seq<World>, ts: seq<Step>, o: Outcomes, i: nat)
    requires IsRun(ws, ss, o) && ws[0] == EmptyWorld && IsRun(vs, ts, o) && vs[0] == EmptyWorld
    requires var e, e' := ws[|ss|].engine, vs[|ts|].engine;
             AllDecided(e) && AllDecided(e') && SameDependencies(e, e') && i < |e.cmds|
    ensures var c, c' := ws[|ss|].engine.cmds[i], vs[|ts|].engine.cmds[i];
            c.submitted == c'.submitted && c.blocked == c'.blocked
    ensures var e := ws[|ss|].engine;
            e.cmds[i].submitted <==>
              && LocalOk(e.cmds[i], o)
              && forall d :: d in e.cmds[i].pendingDeps ==>
                   d < |e.cmds| && e.cmds[d].submitted && o.own(d) == DMA_ACCEL_OK
  {
    var e, e' := ws[|ss|].engine, vs[|ts|].engine;
    RunInv(ws, ss, o, |ss|);
    RunInv(vs, ts, o, |ts|);
    forall k | 0 <= k < |e.cmds|
      ensures e.cmds[k].submitted <==> Good(e, o, k)
      ensures e'.cmds[k].submitted <==> Good(e', o, k)
    {
      if e.cmds[k].submitted { SubmittedIsGood(ws[|ss|], o, k); }
      if e'.cmds[k].submitted { SubmittedIsGood(vs[|ts|], o, k); }
    }
    assert GraphOf(e) == GraphOf(e');
    if Good(e, o, i) != Good(e', o, i) {
      if Good(e, o, i) { FailingChainGrows(e', e, o, i); } else { FailingChainGrows(e, e', o, i); }
    }
    GoodUnfold(e, o, i);
    forall d | d in e.cmds[i].pendingDeps ensures d < |e.cmds| {
      assert d in GraphOf(e)[i];
    }
  }
}
