/**
 `DependencyEngine` as the object it is: a registry that `depends_on` and `progress` update
 in place.  `Progress` is proved against `Pass`; a pass is a run of the state machine, so the
 theorems about runs are about this code; and repeated passes decide everything.
 */
module DependencyProgress {
  import opened Basics
  import opened DependencyGraph
  import opened Dependencies

  /** A completion that a pump of the Stream finds. */
  datatype Arrival = OwnDone(i: nat, status: nat) | ExtDone(f: nat, status: nat)

  /** A Fence becomes ready once; completions for unknown commands are skipped. */
  function Deliver(e: Engine, a: Arrival): Engine {
    match a
    case OwnDone(i, status) =>
      if i < |e.cmds| && e.cmds[i].submitted && e.cmds[i].done.None?
      then e.(cmds := e.cmds[i := e.cmds[i].(done := Some(status))])
      else e
    case ExtDone(f, status) =>
      if f in e.ext then e else e.(ext := e.ext[f := status])
  }

  function Pump(e: Engine, batch: seq<Arrival>): Engine
    decreases |batch|
  {
    if batch == [] then e else Pump(Deliver(e, batch[0]), batch[1..])
  }

  /** Delivering changes readiness only, and only from not-ready to ready. */
  ghost predicate Advances(e: Engine, e': Engine) {
    && |e.cmds| == |e'.cmds|
    && (forall f :: f in e.ext ==> f in e'.ext && e'.ext[f] == e.ext[f])
    && (forall i :: 0 <= i < |e.cmds| ==>
          && e'.cmds[i].(done := None) == e.cmds[i].(done := None)
          && (e.cmds[i].done.Some? ==> e'.cmds[i].done == e.cmds[i].done))
  }

  lemma {:induction false} PumpAdvances(e: Engine, batch: seq<Arrival>)
    ensures Advances(e, Pump(e, batch))
    decreases |batch|
  {
    if batch != [] {
      var e1 := Deliver(e, batch[0]);
      assert Advances(e, e1);
      PumpAdvances(e1, batch[1..]);
      AdvancesTransitive(e, e1, Pump(e1, batch[1..]));
    }
  }

  lemma AdvancesTransitive(e: Engine, e1: Engine, e2: Engine)
    requires Advances(e, e1) && Advances(e1, e2)
    ensures Advances(e, e2)
  {
    forall i | 0 <= i < |e.cmds| ensures e2.cmds[i].(done := None) == e.cmds[i].(done := None) {
      assert e1.cmds[i].(done := None) == e.cmds[i].(done := None);
      assert e2.cmds[i].(done := None) == e1.cmds[i].(done := None);
    }
  }

  lemma AdvancesFields(e: Engine, e': Engine, i: nat)
    requires Advances(e, e') && i < |e.cmds|
    ensures var c, c' := e.cmds[i], e'.cmds[i];
            && c'.fenceDeps == c.fenceDeps && c'.groupDeps == c.groupDeps && c'.pendingDeps == c.pendingDeps
            && c'.submitted == c.submitted && c'.blocked == c.blocked
  {
    var c, c' := e.cmds[i], e'.cmds[i];
    assert c'.(done := None) == c.(done := None);
    assert c'.(done := None).submitted == c'.submitted;
  }

  lemma AdvancesRegistered(e: Engine, e': Engine)
    requires Registered(e) && Advances(e, e')
    ensures Registered(e') && GraphOf(e') == GraphOf(e)
  {
    forall i | 0 <= i < |e.cmds| ensures e'.cmds[i].pendingDeps == e.cmds[i].pendingDeps {
      AdvancesFields(e, e', i);
    }
  }

  // ------------------------------------------------------- what a pump does --

  predicate IsOwn(a: Arrival, i: nat) {
    a.OwnDone? && a.i == i
  }

  predicate IsExt(a: Arrival, f: nat) {
    a.ExtDone? && a.f == f
  }

  /** Entry `k` of the batch is the first completion of command `i`. */
  ghost predicate FirstOwn(batch: seq<Arrival>, i: nat, k: int) {
    0 <= k < |batch| && IsOwn(batch[k], i) && forall m :: 0 <= m < k ==> !IsOwn(batch[m], i)
  }

  ghost predicate FirstExt(batch: seq<Arrival>, f: nat, k: int) {
    0 <= k < |batch| && IsExt(batch[k], f) && forall m :: 0 <= m < k ==> !IsExt(batch[m], f)
  }

  ghost predicate HasOwn(batch: seq<Arrival>, i: nat) {
    exists k :: FirstOwn(batch, i, k)
  }

  ghost predicate HasExt(batch: seq<Arrival>, f: nat) {
    exists k :: FirstExt(batch, f, k)
  }

  lemma FirstOwnShift(batch: seq<Arrival>, i: nat, k: int)
    requires batch != [] && !IsOwn(batch[0], i)
    ensures FirstOwn(batch[1..], i, k) <==> FirstOwn(batch, i, k + 1) && k >= 0
  {
    if 0 <= k < |batch| - 1 {
      assert batch[1..][k] == batch[k + 1];
      assert forall m :: 0 <= m < k ==> batch[1..][m] == batch[m + 1];
      assert forall m :: 0 < m < k + 1 ==> batch[m] == batch[1..][m - 1];
    }
  }

  lemma FirstExtShift(batch: seq<Arrival>, f: nat, k: int)
    requires batch != [] && !IsExt(batch[0], f)
    ensures FirstExt(batch[1..], f, k) <==> FirstExt(batch, f, k + 1) && k >= 0
  {
    if 0 <= k < |batch| - 1 {
      assert batch[1..][k] == batch[k + 1];
      assert forall m :: 0 <= m < k ==> batch[1..][m] == batch[m + 1];
      assert forall m :: 0 < m < k + 1 ==> batch[m] == batch[1..][m - 1];
    }
  }

  /** What a batch does to command `i`: the first completion for it counts, with its status, if
      the command is submitted and not done; otherwise nothing changes. */
  lemma {:induction false} PumpOwn(e: Engine, batch: seq<Arrival>, i: nat)
    requires i < |e.cmds|
    ensures |Pump(e, batch).cmds| == |e.cmds|
    ensures var c, c' := e.cmds[i], Pump(e, batch).cmds[i];
            && (c.done.Some? || !c.submitted || !HasOwn(batch, i) ==> c' == c)
            && (c.submitted && c.done.None? ==>
                  forall k :: FirstOwn(batch, i, k) ==> c' == c.(done := Some(batch[k].status)))
    decreases |batch|
  {
    if batch != [] {
      var e1 := Deliver(e, batch[0]);
      PumpOwn(e1, batch[1..], i);
      if IsOwn(batch[0], i) {
        assert FirstOwn(batch, i, 0);
      } else {
        assert e1.cmds[i] == e.cmds[i];
        forall k ensures FirstOwn(batch, i, k) ==> FirstOwn(batch[1..], i, k - 1) { FirstOwnShift(batch, i, k - 1); }
        forall k ensures FirstOwn(batch[1..], i, k) ==> FirstOwn(batch, i, k + 1) { FirstOwnShift(batch, i, k); }
      }
    }
  }

  /** The same for an outside Fence. */
  lemma {:induction false} PumpExt(e: Engine, batch: seq<Arrival>, f: nat)
    ensures var ext' := Pump(e, batch).ext;
            && (f in e.ext ==> f in ext' && ext'[f] == e.ext[f])
            && (f !in e.ext ==> forall k :: FirstExt(batch, f, k) ==> f in ext' && ext'[f] == batch[k].status)
            && (f !in e.ext && !HasExt(batch, f) ==> f !in ext')
    decreases |batch|
  {
    if batch != [] {
      var e1 := Deliver(e, batch[0]);
      PumpExt(e1, batch[1..], f);
      if IsExt(batch[0], f) {
        assert FirstExt(batch, f, 0);
      } else {
        assert f in e1.ext <==> f in e.ext;
        forall k ensures FirstExt(batch, f, k) ==> FirstExt(batch[1..], f, k - 1) { FirstExtShift(batch, f, k - 1); }
        forall k ensures FirstExt(batch[1..], f, k) ==> FirstExt(batch, f, k + 1) { FirstExtShift(batch, f, k); }
      }
    }
  }

  // -------------------------------------------------------------- one visit --

  /** The visit of command `i` submits it. */
  predicate Submits(e: Engine, i: nat)
    requires Registered(e) && i < |e.cmds|
  {
    !e.cmds[i].submitted && !e.cmds[i].blocked && Evaluate(e, i) == Clear
  }

  /** One loop iteration.  Submitting may block in the Stream's throttle, which pumps, so
      completions can arrive just before the command counts as submitted. */
  function VisitThrottled(e: Engine, i: nat, during: seq<Arrival>): Engine
    requires Registered(e) && i < |e.cmds|
  {
    if Submits(e, i) then
      PumpAdvances(e, during);
      var e1 := Pump(e, during);
      e1.(cmds := e1.cmds[i := e1.cmds[i].(submitted := true)])
    else
      Visit(e, i)
  }

  lemma VisitThrottledKeeps(e: Engine, i: nat, during: seq<Arrival>)
    requires Registered(e) && i < |e.cmds|
    ensures var e' := VisitThrottled(e, i, during);
            Registered(e') && |e'.cmds| == |e.cmds| && GraphOf(e') == GraphOf(e)
  {
    PumpAdvances(e, during);
    var e1 := Pump(e, during);
    AdvancesRegistered(e, e1);
    var e' := VisitThrottled(e, i, during);
    if Submits(e, i) {
      assert forall k :: 0 <= k < |e.cmds| ==> e'.cmds[k].pendingDeps == e1.cmds[k].pendingDeps;
      assert GraphOf(e') == GraphOf(e1);
      forall k | 0 <= k < |e.cmds| ensures e'.cmds[k].pendingDeps == e.cmds[k].pendingDeps {
        AdvancesFields(e, e1, k);
      }
    } else {
      assert forall k :: 0 <= k < |e.cmds| ==> e'.cmds[k].pendingDeps == e.cmds[k].pendingDeps;
      assert GraphOf(e') == GraphOf(e);
    }
  }

  /** The rest of a pass, from registry position `i` on. */
  function Pass(e: Engine, i: nat, arrivals: nat -> seq<Arrival>): Engine
    requires Registered(e) && i <= |e.cmds|
    decreases |e.cmds| - i
  {
    if i == |e.cmds| then e
    else
      VisitThrottledKeeps(e, i, arrivals(i));
      Pass(VisitThrottled(e, i, arrivals(i)), i + 1, arrivals)
  }

  lemma PassUnfold(e: Engine, i: nat, arrivals: nat -> seq<Arrival>)
    requires Registered(e) && i < |e.cmds|
    ensures var e' := VisitThrottled(e, i, arrivals(i));
            && Registered(e') && |e'.cmds| == |e.cmds| && GraphOf(e') == GraphOf(e)
            && Pass(e, i, arrivals) == Pass(e', i + 1, arrivals)
  {
    VisitThrottledKeeps(e, i, arrivals(i));
  }

  // ------------------------------------------------------ a pass is a run --

  /** `w'` is reached from `w` by some steps. */
  ghost predicate Leads(w: World, w': World, o: Outcomes) {
    exists ws, ss :: IsRun(ws, ss, o) && ws[0] == w && ws[|ss|] == w'
  }

  lemma LeadsRefl(w: World, o: Outcomes)
    requires Registered(w.engine)
    ensures Leads(w, w, o)
  {
    var ws, ss: seq<Step> := [w], [];
    assert IsRun(ws, ss, o) && ws[0] == w && ws[|ss|] == w;
  }

  lemma LeadsStep(w: World, w1: World, s: Step, o: Outcomes)
    requires Leads(w, w1, o) && Inv(w1, o) && Enabled(w1, s)
    ensures Leads(w, Apply(w1, s, o), o) && Inv(Apply(w1, s, o), o)
  {
    StepInv(w1, s, o);
    ExtendRun(w, w1, s, o);
  }

  lemma ExtendRun(w: World, w1: World, s: Step, o: Outcomes)
    requires Leads(w, w1, o) && Registered(w1.engine) && Enabled(w1, s)
    ensures Leads(w, Apply(w1, s, o), o)
  {
    var ws, ss :| IsRun(ws, ss, o) && ws[0] == w && ws[|ss|] == w1;
    var w2 := Apply(w1, s, o);
    AppendStep(ws, ss, s, w2, o);
    assert IsRun(ws + [w2], ss + [s], o) && (ws + [w2])[0] == w && (ws + [w2])[|ss + [s]|] == w2;
  }

  lemma AppendStep(ws: seq<World>, ss: seq<Step>, s: Step, w: World, o: Outcomes)
    requires IsRun(ws, ss, o) && StepTo(ws[|ss|], s, w, o)
    ensures IsRun(ws + [w], ss + [s], o)
  {
    var ws', ss' := ws + [w], ss + [s];
    forall k | 0 <= k < |ss'| ensures StepTo(ws'[k], ss'[k], ws'[k + 1], o) {
      if k < |ss| { assert StepTo(ws[k], ss[k], ws[k + 1], o); }
    }
  }

  /** The completions carry the outcomes and are for commands the device has applied. */
  ghost predicate Honest(batch: seq<Arrival>, effects: seq<nat>, o: Outcomes) {
    forall k :: 0 <= k < |batch| ==>
      match batch[k]
      case OwnDone(i, status) => i in effects && status == o.own(i)
      case ExtDone(f, status) => status == o.ext(f)
  }

  lemma {:induction false} PumpIsRun(w0: World, w: World, batch: seq<Arrival>, o: Outcomes)
    requires Leads(w0, w, o) && Inv(w, o) && Honest(batch, w.effects, o)
    ensures var w' := World(Pump(w.engine, batch), w.effects); Leads(w0, w', o) && Inv(w', o)
    decreases |batch|
  {
    if batch != [] {
      var w1 := World(Deliver(w.engine, batch[0]), w.effects);
      if w1 != w {
        match batch[0] {
          case OwnDone(i, status) =>
            assert Enabled(w, Complete(i)) && Apply(w, Complete(i), o) == w1;
            LeadsStep(w0, w, Complete(i), o);
          case ExtDone(f, status) =>
            assert Enabled(w, ExtComplete(f)) && Apply(w, ExtComplete(f), o) == w1;
            LeadsStep(w0, w, ExtComplete(f), o);
        }
      }
      PumpIsRun(w0, w1, batch[1..], o);
    }
  }

  /** What is clear stays clear while completions arrive. */
  lemma ClearPersists(e: Engine, e': Engine, i: nat)
    requires Shape(e) && Shape(e') && Advances(e, e') && i < |e.cmds| && Evaluate(e, i) == Clear
    ensures Evaluate(e', i) == Clear
  {
    VisitClear(e, i);
    AdvancesFields(e, e', i);
    forall k | 0 <= k < |e.cmds| ensures e'.cmds[k].submitted == e.cmds[k].submitted {
      AdvancesFields(e, e', k);
    }
    SatisfiedPersists(e, e', e.cmds[i]);
    var c := e'.cmds[i];
    ScanFencesMeaning(c.fenceDeps, e'.ext);
    ScanGroupsMeaning(c.groupDeps, e'.ext);
    ScanPendingMeaning(c.pendingDeps, e'.cmds);
  }

  lemma VisitIsRun(w0: World, w: World, i: nat, during: seq<Arrival>, o: Outcomes)
    requires Leads(w0, w, o) && Inv(w, o) && i < |w.engine.cmds|
    requires Submits(w.engine, i) ==> Honest(during, w.effects, o)
    ensures var w' := World(VisitThrottled(w.engine, i, during), w.effects); Leads(w0, w', o) && Inv(w', o)
  {
    var e := w.engine;
    var w1 := w;
    if Submits(e, i) {
      PumpIsRun(w0, w, during, o);
      PumpAdvances(e, during);
      w1 := World(Pump(e, during), w.effects);
      ClearPersists(e, w1.engine, i);
      AdvancesFields(e, w1.engine, i);
      assert VisitThrottled(e, i, during) == Visit(w1.engine, i);
    }
    LeadsStep(w0, w1, VisitStep(i), o);
  }

  /** The device may apply these commands now, in this order: each is submitted and none has
      been applied before. */
  ghost predicate CanApply(applied: seq<nat>, e: Engine, effects: seq<nat>) {
    && (forall k :: 0 <= k < |applied| ==>
          applied[k] < |e.cmds| && e.cmds[applied[k]].submitted && applied[k] !in effects)
    && Distinct(applied)
  }

  lemma ApplyRest(applied: seq<nat>, e: Engine, effects: seq<nat>)
    requires CanApply(applied, e, effects) && applied != []
    ensures applied[0] < |e.cmds| && e.cmds[applied[0]].submitted && applied[0] !in effects
    ensures CanApply(applied[1..], e, effects + [applied[0]])
    ensures effects + applied == effects + [applied[0]] + applied[1..]
  {
  }

  lemma EffectIsRun(w0: World, w: World, i: nat, o: Outcomes)
    requires Leads(w0, w, o) && Inv(w, o) && i < |w.engine.cmds| && w.engine.cmds[i].submitted && i !in w.effects
    ensures var w' := World(w.engine, w.effects + [i]); Leads(w0, w', o) && Inv(w', o)
  {
    LeadsStep(w0, w, Effect(i), o);
  }

  lemma {:induction false} EffectsAreRun(w0: World, w: World, applied: seq<nat>, o: Outcomes)
    requires Leads(w0, w, o) && Inv(w, o) && CanApply(applied, w.engine, w.effects)
    ensures var w' := World(w.engine, w.effects + applied); Leads(w0, w', o) && Inv(w', o)
    decreases |applied|
  {
    if applied == [] {
      assert w.effects + applied == w.effects;
    } else {
      ApplyRest(applied, w.engine, w.effects);
      EffectIsRun(w0, w, applied[0], o);
      EffectsAreRun(w0, World(w.engine, w.effects + [applied[0]]), applied[1..], o);
    }
  }

  /** What the device and the Stream may do during a pass: before visit `k` the device applies
      `applied(k)`, which may include commands submitted earlier in this pass; while the visit
      waits in the throttle, `arrivals(k)` are completions of commands applied by then. */
  ghost predicate PassHonest(e: Engine, effects: seq<nat>, i: nat, arrivals: nat -> seq<Arrival>,
                             applied: nat -> seq<nat>, o: Outcomes)
    requires Registered(e) && i <= |e.cmds|
    decreases |e.cmds| - i
  {
    i < |e.cmds| ==>
      && CanApply(applied(i), e, effects)
      && (Submits(e, i) ==> Honest(arrivals(i), effects + applied(i), o))
      && (VisitThrottledKeeps(e, i, arrivals(i));
          PassHonest(VisitThrottled(e, i, arrivals(i)), effects + applied(i), i + 1, arrivals, applied, o))
  }

  /** The effects after the visits from `i` up to `n`. */
  ghost function PassEffects(effects: seq<nat>, i: nat, n: nat, applied: nat -> seq<nat>): seq<nat>
    decreases n - i
  {
    if i >= n then effects else PassEffects(effects + applied(i), i + 1, n, applied)
  }

  /** A whole pass is a run of the machine, with the device applying commands and completions
      arriving while it submits, also those of commands submitted in this very pass. */
  lemma {:induction false} PassIsRun(w0: World, w: World, i: nat, arrivals: nat -> seq<Arrival>,
                                     applied: nat -> seq<nat>, o: Outcomes)
    requires Leads(w0, w, o) && Inv(w, o) && i <= |w.engine.cmds|
    requires PassHonest(w.engine, w.effects, i, arrivals, applied, o)
    ensures var w' := World(Pass(w.engine, i, arrivals), PassEffects(w.effects, i, |w.engine.cmds|, applied));
            Leads(w0, w', o) && Inv(w', o)
    decreases |w.engine.cmds| - i
  {
    if i < |w.engine.cmds| {
      EffectsAreRun(w0, w, applied(i), o);
      var w1 := World(w.engine, w.effects + applied(i));
      VisitIsRun(w0, w1, i, arrivals(i), o);
      VisitThrottledKeeps(w.engine, i, arrivals(i));
      PassIsRun(w0, World(VisitThrottled(w.engine, i, arrivals(i)), w1.effects), i + 1, arrivals, applied, o);
    }
  }

  /** One call of `progress`, from any state that satisfies the invariant, is a run: the device
      applies `before`, the pump finds `first`, and then comes the pass.  Every theorem about runs
      is a theorem about sequences of these calls. */
  lemma CallIsRun(w: World, before: seq<nat>, first: seq<Arrival>, arrivals: nat -> seq<Arrival>,
                  applied: nat -> seq<nat>, o: Outcomes)
    requires Inv(w, o) && CanApply(before, w.engine, w.effects) && Honest(first, w.effects + before, o)
    requires (PumpAdvances(w.engine, first);
              AdvancesRegistered(w.engine, Pump(w.engine, first));
              PassHonest(Pump(w.engine, first), w.effects + before, 0, arrivals, applied, o))
    ensures var effects := PassEffects(w.effects + before, 0, |w.engine.cmds|, applied);
            var w' := World(AfterCall(w.engine, first, arrivals), effects);
            Leads(w, w', o) && Inv(w', o)
  {
    LeadsRefl(w, o);
    EffectsAreRun(w, w, before, o);
    var w1 := World(w.engine, w.effects + before);
    PumpIsRun(w, w1, first, o);
    PumpAdvances(w.engine, first);
    PassIsRun(w, World(Pump(w.engine, first), w1.effects), 0, arrivals, applied, o);
  }

  /** Calls compose: what leads from the empty engine goes on leading from it. */
  lemma LeadsTransitive(w: World, w1: World, w2: World, o: Outcomes)
    requires Leads(w, w1, o) && Leads(w1, w2, o)
    ensures Leads(w, w2, o)
  {
    var ws, ss :| IsRun(ws, ss, o) && ws[0] == w && ws[|ss|] == w1;
    var vs, ts :| IsRun(vs, ts, o) && vs[0] == w1 && vs[|ts|] == w2;
    JoinRuns(ws, ss, vs, ts, o);
    assert IsRun(ws + vs[1..], ss + ts, o) && (ws + vs[1..])[0] == w && (ws + vs[1..])[|ss + ts|] == w2;
  }

  lemma JoinRuns(ws: seq<World>, ss: seq<Step>, vs: seq<World>, ts: seq<Step>, o: Outcomes)
    requires IsRun(ws, ss, o) && IsRun(vs, ts, o) && ws[|ss|] == vs[0]
    ensures IsRun(ws + vs[1..], ss + ts, o)
    ensures forall k :: 0 <= k < |vs| ==> (ws + vs[1..])[|ss| + k] == vs[k]
  {
    var us, rs := ws + vs[1..], ss + ts;
    assert forall k :: 0 <= k < |vs| ==> us[|ss| + k] == vs[k];
    forall k | 0 <= k < |rs| ensures StepTo(us[k], rs[k], us[k + 1], o) {
      if k < |ss| {
        assert StepTo(ws[k], ss[k], ws[k + 1], o);
      } else {
        var m := k - |ss|;
        assert rs[k] == ts[m] && us[k] == vs[m] && us[k + 1] == vs[m + 1];
        assert StepTo(vs[m], ts[m], vs[m + 1], o);
      }
    }
  }

  // --------------------------------------------------------- convergence --

  predicate Decided(c: Command) {
    c.submitted || c.blocked
  }

  /** Nothing that command `x` looks at is still outstanding. */
  ghost predicate NothingOutstanding(e: Engine, x: nat)
    requires Registered(e) && x < |e.cmds|
  {
    var c := e.cmds[x];
    && (forall k :: 0 <= k < |c.fenceDeps| ==> c.fenceDeps[k] in e.ext)
    && (forall k, m :: 0 <= k < |c.groupDeps| && 0 <= m < |c.groupDeps[k]| ==> c.groupDeps[k][m] in e.ext)
    && (forall k :: 0 <= k < |c.pendingDeps| ==>
          var d := e.cmds[c.pendingDeps[k]]; d.blocked || (d.submitted && d.done.Some?))
  }

  lemma VisitDecides(e: Engine, x: nat, during: seq<Arrival>)
    requires Registered(e) && x < |e.cmds| && NothingOutstanding(e, x)
    ensures var e' := VisitThrottled(e, x, during); |e'.cmds| == |e.cmds| && Decided(e'.cmds[x])
  {
    var c := e.cmds[x];
    ScanFencesMeaning(c.fenceDeps, e.ext);
    ScanGroupsMeaning(c.groupDeps, e.ext);
    ScanPendingMeaning(c.pendingDeps, e.cmds);
    PumpAdvances(e, during);
  }

  /** Visiting another command keeps a command's inputs settled and its decision. */
  lemma VisitKeeps(e: Engine, i: nat, x: nat, during: seq<Arrival>)
    requires Registered(e) && i < |e.cmds| && x < |e.cmds|
    ensures var e' := VisitThrottled(e, i, during);
            && Registered(e') && |e'.cmds| == |e.cmds|
            && (Decided(e.cmds[x]) ==> Decided(e'.cmds[x]))
            && (NothingOutstanding(e, x) ==> NothingOutstanding(e', x))
  {
    VisitThrottledKeeps(e, i, during);
    PumpAdvances(e, during);
    var e1 := Pump(e, during);
    var e' := VisitThrottled(e, i, during);
    forall k | 0 <= k < |e.cmds|
      ensures var c, c1 := e.cmds[k], e1.cmds[k];
              && c1.fenceDeps == c.fenceDeps && c1.groupDeps == c.groupDeps && c1.pendingDeps == c.pendingDeps
              && c1.submitted == c.submitted && c1.blocked == c.blocked
    {
      AdvancesFields(e, e1, k);
    }
  }

  lemma {:induction false} PassDecides(e: Engine, i: nat, arrivals: nat -> seq<Arrival>, x: nat)
    requires Registered(e) && i <= |e.cmds| && x < |e.cmds|
    requires Decided(e.cmds[x]) || (i <= x && NothingOutstanding(e, x))
    ensures var e' := Pass(e, i, arrivals);
            Registered(e') && |e'.cmds| == |e.cmds| && GraphOf(e') == GraphOf(e) && Decided(e'.cmds[x])
    decreases |e.cmds| - i
  {
    if i < |e.cmds| {
      VisitThrottledKeeps(e, i, arrivals(i));
      VisitKeeps(e, i, x, arrivals(i));
      if i == x && !Decided(e.cmds[x]) { VisitDecides(e, x, arrivals(i)); }
      PassDecides(VisitThrottled(e, i, arrivals(i)), i + 1, arrivals, x);
    }
  }

  /** Every submitted command, and every outside Fence anyone waits for, has completed. */
  ghost predicate Settled(e: Engine) {
    && (forall i :: 0 <= i < |e.cmds| && e.cmds[i].submitted ==> e.cmds[i].done.Some?)
    && (forall i, k :: 0 <= i < |e.cmds| && 0 <= k < |e.cmds[i].fenceDeps| ==> e.cmds[i].fenceDeps[k] in e.ext)
    && (forall i, k, m :: 0 <= i < |e.cmds| && 0 <= k < |e.cmds[i].groupDeps| && 0 <= m < |e.cmds[i].groupDeps[k]| ==>
          e.cmds[i].groupDeps[k][m] in e.ext)
  }

  /** The batch has a completion for everything that is still outstanding. */
  ghost predicate NamesOutstanding(e: Engine, batch: seq<Arrival>) {
    && (forall i :: 0 <= i < |e.cmds| && e.cmds[i].submitted && e.cmds[i].done.None? ==> HasOwn(batch, i))
    && (forall i, k :: 0 <= i < |e.cmds| && 0 <= k < |e.cmds[i].fenceDeps| && e.cmds[i].fenceDeps[k] !in e.ext ==>
          HasExt(batch, e.cmds[i].fenceDeps[k]))
    && (forall i, k, m :: 0 <= i < |e.cmds| && 0 <= k < |e.cmds[i].groupDeps| && 0 <= m < |e.cmds[i].groupDeps[k]| ==>
          e.cmds[i].groupDeps[k][m] in e.ext || HasExt(batch, e.cmds[i].groupDeps[k][m]))
  }

  lemma ExtArrives(e: Engine, batch: seq<Arrival>, f: nat)
    requires f in e.ext || HasExt(batch, f)
    ensures f in Pump(e, batch).ext
  {
    PumpExt(e, batch, f);
  }

  /** A pump that finds all of them settles the engine. */
  lemma PumpSettles(e: Engine, batch: seq<Arrival>)
    requires NamesOutstanding(e, batch)
    ensures Settled(Pump(e, batch))
  {
    var e' := Pump(e, batch);
    PumpAdvances(e, batch);
    forall i | 0 <= i < |e'.cmds|
      ensures e'.cmds[i].submitted ==> e'.cmds[i].done.Some?
      ensures e'.cmds[i].fenceDeps == e.cmds[i].fenceDeps && e'.cmds[i].groupDeps == e.cmds[i].groupDeps
    {
      PumpOwn(e, batch, i);
      AdvancesFields(e, e', i);
    }
    forall f | f in e.ext || HasExt(batch, f) ensures f in e'.ext { ExtArrives(e, batch, f); }
  }

  /** One call of `progress` made when everything submitted has completed. */
  ghost predicate IsCall(e: Engine, e': Engine, arrivals: nat -> seq<Arrival>) {
    Registered(e) && Settled(e) && e' == Pass(e, 0, arrivals)
  }

  /** Successive calls: `before[k]` and `after[k]` around call `k`, with everything submitted
      completing between the calls. */
  ghost predicate Calls(before: seq<Engine>, after: seq<Engine>, arrivals: seq<nat -> seq<Arrival>>) {
    && |before| == |after| == |arrivals|
    && (forall k {:trigger arrivals[k]} :: 0 <= k < |before| ==> IsCall(before[k], after[k], arrivals[k]))
    && (forall k {:trigger before[k]} :: 0 < k < |before| ==> Advances(after[k - 1], before[k]))
  }

  ghost predicate ChainsBelow(g: Graph, x: nat, n: nat) {
    forall p :: IsPath(g, p) && p[0] == x ==> |p| <= n
  }

  /** Every command whose dependency chains have at most `n` nodes is decided. */
  ghost predicate DecidedBelow(e: Engine, n: nat) {
    forall x :: 0 <= x < |e.cmds| && ChainsBelow(GraphOf(e), x, n) ==> Decided(e.cmds[x])
  }

  /** One call lifts the decided chain length by one. */
  lemma CallLifts(e: Engine, e': Engine, arrivals: nat -> seq<Arrival>, n: nat)
    requires IsCall(e, e', arrivals) && DecidedBelow(e, n)
    ensures DecidedBelow(e', n + 1)
  {
    CallKeepsGraph(e, e', arrivals);
    forall x | 0 <= x < |e'.cmds| && ChainsBelow(GraphOf(e'), x, n + 1) ensures Decided(e'.cmds[x]) {
      var deps := e.cmds[x].pendingDeps;
      forall m | 0 <= m < |deps| ensures Decided(e.cmds[deps[m]]) {
        ShorterChains(e, x, deps[m], n);
      }
      CallDecides(e, e', arrivals, x);
    }
  }

  lemma CompletionsKeepDecided(e: Engine, e': Engine, n: nat)
    requires Registered(e) && Advances(e, e') && DecidedBelow(e, n)
    ensures DecidedBelow(e', n)
  {
    AdvancesRegistered(e, e');
    forall x | 0 <= x < |e'.cmds| && ChainsBelow(GraphOf(e'), x, n) ensures Decided(e'.cmds[x]) {
      AdvancesFields(e, e', x);
    }
  }

  /** Convergence: after `k + 1` calls every command whose dependency chains all have at most
      `k` edges is submitted or blocked, although each scan stops at its first pending
      dependency. */
  lemma {:induction false} Convergence(before: seq<Engine>, after: seq<Engine>,
                                       arrivals: seq<nat -> seq<Arrival>>, k: nat)
    requires Calls(before, after, arrivals) && k < |before|
    ensures DecidedBelow(after[k], k + 1)
  {
    if k == 0 {
      NoEmptyChains(before[0]);
    } else {
      Convergence(before, after, arrivals, k - 1);
      BetweenCallsDecided(before[k - 1], after[k - 1], arrivals[k - 1], before[k], k);
    }
    CallLifts(before[k], after[k], arrivals[k], k);
  }

  lemma BetweenCallsDecided(e: Engine, e': Engine, arrivals: nat -> seq<Arrival>, e'': Engine, n: nat)
    requires IsCall(e, e', arrivals) && DecidedBelow(e', n) && Advances(e', e'')
    ensures DecidedBelow(e'', n)
  {
    CallKeepsGraph(e, e', arrivals);
    CompletionsKeepDecided(e', e'', n);
  }

  lemma NoEmptyChains(e: Engine)
    ensures DecidedBelow(e, 0)
  {
    forall x | 0 <= x < |e.cmds| ensures !ChainsBelow(GraphOf(e), x, 0) {
      assert IsPath(GraphOf(e), [x]);
    }
  }

  lemma CallKeepsGraph(e: Engine, e': Engine, arrivals: nat -> seq<Arrival>)
    requires IsCall(e, e', arrivals)
    ensures Registered(e) && Registered(e') && |e'.cmds| == |e.cmds| && GraphOf(e') == GraphOf(e)
  {
    PassKeepsGraph(e, 0, arrivals);
  }

  lemma CallDecides(e: Engine, e': Engine, arrivals: nat -> seq<Arrival>, x: nat)
    requires IsCall(e, e', arrivals) && x < |e.cmds| && |e'.cmds| == |e.cmds|
    requires forall k :: 0 <= k < |e.cmds[x].pendingDeps| ==> Decided(e.cmds[e.cmds[x].pendingDeps[k]])
    ensures Decided(e'.cmds[x])
  {
    SettledInputs(e, x);
    PassDecides(e, 0, arrivals, x);
  }

  lemma ShorterChains(e: Engine, x: nat, d: nat, k: nat)
    requires Registered(e) && x < |e.cmds| && d in e.cmds[x].pendingDeps && ChainsBelow(GraphOf(e), x, k + 1)
    ensures ChainsBelow(GraphOf(e), d, k)
  {
    var g := GraphOf(e);
    forall p | IsPath(g, p) && p[0] == d ensures |p| <= k {
      ExtendFront(g, x, p);
      assert |[x] + p| <= k + 1;
    }
  }

  lemma SettledInputs(e: Engine, x: nat)
    requires Registered(e) && Settled(e) && x < |e.cmds|
    requires forall k :: 0 <= k < |e.cmds[x].pendingDeps| ==> Decided(e.cmds[e.cmds[x].pendingDeps[k]])
    ensures NothingOutstanding(e, x)
  {
  }

  lemma {:induction false} PassKeepsGraph(e: Engine, i: nat, arrivals: nat -> seq<Arrival>)
    requires Registered(e) && i <= |e.cmds|
    ensures var e' := Pass(e, i, arrivals);
            Registered(e') && |e'.cmds| == |e.cmds| && GraphOf(e') == GraphOf(e)
    decreases |e.cmds| - i
  {
    if i < |e.cmds| {
      VisitThrottledKeeps(e, i, arrivals(i));
      PassKeepsGraph(VisitThrottled(e, i, arrivals(i)), i + 1, arrivals);
    }
  }

  /** In particular as many calls as there are commands decide everything. */
  lemma EventuallyDecided(before: seq<Engine>, after: seq<Engine>, arrivals: seq<nat -> seq<Arrival>>)
    requires Calls(before, after, arrivals) && |before| > 0
    requires var last := before[|before| - 1]; |last.cmds| <= |before| && Acyclic(GraphOf(last))
    ensures AllDecided(after[|before| - 1])
  {
    var k := |before| - 1;
    CallKeepsGraph(before[k], after[k], arrivals[k]);
    Convergence(before, after, arrivals, k);
    ShortChainsDecided(after[k], k + 1);
  }

  /** The engine after a call of `progress` whose pump finds `first`. */
  ghost function AfterCall(e: Engine, first: seq<Arrival>, arrivals: nat -> seq<Arrival>): Engine
    requires Registered(e)
  {
    PumpAdvances(e, first);
    AdvancesRegistered(e, Pump(e, first));
    Pass(Pump(e, first), 0, arrivals)
  }

  /** Successive calls of `progress`, each of whose pumps finds everything outstanding. */
  ghost predicate ProgressCalls(es: seq<Engine>, firsts: seq<seq<Arrival>>, arrivals: seq<nat -> seq<Arrival>>) {
    && |es| == |firsts| + 1 == |arrivals| + 1
    && (forall k {:trigger firsts[k]} :: 0 <= k < |firsts| ==>
          Registered(es[k]) && NamesOutstanding(es[k], firsts[k]) && es[k + 1] == AfterCall(es[k], firsts[k], arrivals[k]))
  }

  lemma ProgressIsCalls(es: seq<Engine>, firsts: seq<seq<Arrival>>, arrivals: seq<nat -> seq<Arrival>>)
    requires ProgressCalls(es, firsts, arrivals)
    ensures Calls(seq(|firsts|, k requires 0 <= k < |firsts| => Pump(es[k], firsts[k])), es[1..], arrivals)
  {
    var before, after := seq(|firsts|, k requires 0 <= k < |firsts| => Pump(es[k], firsts[k])), es[1..];
    forall k | 0 <= k < |before|
      ensures IsCall(before[k], after[k], arrivals[k])
      ensures k > 0 ==> Advances(after[k - 1], before[k])
    {
      assert before[k] == Pump(es[k], firsts[k]) && after[k] == es[k + 1];
      PumpAdvances(es[k], firsts[k]);
      AdvancesRegistered(es[k], before[k]);
      PumpSettles(es[k], firsts[k]);
    }
  }

  /** Convergence over the calls themselves: after `k + 1` calls every command whose dependency
      chains all have at most `k` edges is submitted or blocked, and as many calls as there are
      commands decide everything. */
  lemma ProgressConverges(es: seq<Engine>, firsts: seq<seq<Arrival>>, arrivals: seq<nat -> seq<Arrival>>, k: nat)
    requires ProgressCalls(es, firsts, arrivals) && k < |firsts|
    ensures DecidedBelow(es[k + 1], k + 1)
    ensures |es[k].cmds| <= k + 1 && Acyclic(GraphOf(es[k])) ==> AllDecided(es[k + 1])
  {
    var before, after := seq(|firsts|, k requires 0 <= k < |firsts| => Pump(es[k], firsts[k])), es[1..];
    ProgressIsCalls(es, firsts, arrivals);
    Convergence(before, after, arrivals, k);
    assert after[k] == es[k + 1] && before[k] == Pump(es[k], firsts[k]);
    if |es[k].cmds| <= k + 1 && Acyclic(GraphOf(es[k])) {
      PumpAdvances(es[k], firsts[k]);
      AdvancesRegistered(es[k], before[k]);
      CallKeepsGraph(before[k], after[k], arrivals[k]);
      ShortChainsDecided(after[k], k + 1);
    }
  }

  lemma ShortChainsDecided(e: Engine, n: nat)
    requires DecidedBelow(e, n) && |e.cmds| <= n && Acyclic(GraphOf(e))
    ensures AllDecided(e)
  {
    forall x | 0 <= x < |e.cmds| ensures Decided(e.cmds[x]) {
      forall p | IsPath(GraphOf(e), p) ensures |p| <= n { PathLength(GraphOf(e), p); }
    }
  }

  // ------------------------------------------------------------- the object --

  datatype Outcome = Accepted | AlreadySubmitted | WouldCloseCycle

  class DependencyEngine {
    var registry: seq<Command>
    var ext: map<nat, nat>

    ghost function View(): Engine
      reads this
    {
      Engine(registry, ext)
    }

    ghost predicate Valid()
      reads this
    {
      Registered(View()) && Acyclic(GraphOf(View()))
    }

    constructor ()
      ensures Valid() && View() == EmptyWorld.engine
    {
      registry := [];
      ext := map[];
      new;
      assert GraphOf(View()) == [];
    }

    method DeferSubmit() returns (handle: nat)
      requires Valid()
      modifies this
      ensures Valid() && handle == |old(registry)|
      ensures View() == Engine(old(registry) + [FreshCommand], old(ext))
    {
      handle := |registry|;
      ghost var g := GraphOf(View());
      registry := registry + [FreshCommand];
      AddNodeAcyclic(g);
      assert GraphOf(View()) == AddNode(g);
    }

    method DependsOnFence(handle: nat, fence: nat) returns (r: Outcome)
      requires Valid() && handle < |registry|
      modifies this
      ensures Valid() && ext == old(ext) && |registry| == |old(registry)|
      ensures r == if old(registry[handle].submitted) then AlreadySubmitted else Accepted
      ensures var c := old(registry[handle]);
              registry == if r.Accepted? then old(registry)[handle := c.(fenceDeps := c.fenceDeps + [fence])]
                          else old(registry)
    {
      var c := registry[handle];
      if c.submitted {
        return AlreadySubmitted;
      }
      ghost var g := GraphOf(View());
      registry := registry[handle := c.(fenceDeps := c.fenceDeps + [fence])];
      assert GraphOf(View()) == g;
      return Accepted;
    }

    method DependsOnGroup(handle: nat, fences: seq<nat>) returns (r: Outcome)
      requires Valid() && handle < |registry|
      modifies this
      ensures Valid() && ext == old(ext) && |registry| == |old(registry)|
      ensures r == if old(registry[handle].submitted) then AlreadySubmitted else Accepted
      ensures var c := old(registry[handle]);
              registry == if r.Accepted? then old(registry)[handle := c.(groupDeps := c.groupDeps + [fences])]
                          else old(registry)
    {
      var c := registry[handle];
      if c.submitted {
        return AlreadySubmitted;
      }
      ghost var g := GraphOf(View());
      registry := registry[handle := c.(groupDeps := c.groupDeps + [fences])];
      assert GraphOf(View()) == g;
      return Accepted;
    }

    /** The edge is refused exactly when the command is submitted or the edge would close a
        cycle; otherwise it is added. */
    method DependsOnPending(handle: nat, other: nat) returns (r: Outcome)
      requires Valid() && handle < |registry| && other < |registry|
      modifies this
      ensures Valid()
      ensures r == AlreadySubmitted <==> old(registry[handle].submitted)
      ensures r == WouldCloseCycle <==>
                !old(registry[handle].submitted) && !Acyclic(AddEdge(old(GraphOf(View())), handle, other))
      ensures View() == DependOn(old(View()), handle, other)
      ensures r.Accepted? ==> GraphOf(View()) == AddEdge(old(GraphOf(View())), handle, other)
      ensures !r.Accepted? ==> View() == old(View())
    {
      var c := registry[handle];
      if c.submitted {
        return AlreadySubmitted;
      }
      var g := GraphNow();
      EdgeClosesCycleIff(g, handle, other);
      var closes := Reachable(g, other, handle);
      if closes {
        return WouldCloseCycle;
      }
      registry := registry[handle := c.(pendingDeps := c.pendingDeps + [other])];
      AddEdgeAcyclic(g, handle, other);
      assert GraphOf(View()) == AddEdge(g, handle, other);
      return Accepted;
    }

    method GraphNow() returns (g: Graph)
      ensures g == GraphOf(View())
    {
      g := GraphOf(Engine(registry, ext));
    }

    /** The scan of one Fence list, stopping at the first Fence that is not ready-and-OK. */
    method CheckFences(fences: seq<nat>) returns (anyPending: bool, anyFailed: bool)
      ensures !(anyPending && anyFailed)
      ensures ScanFences(fences, ext) == if anyPending then Pending else if anyFailed then Failed else Clear
    {
      anyPending, anyFailed := false, false;
      for k := 0 to |fences|
        invariant !anyPending && !anyFailed
        invariant ScanFences(fences, ext) == ScanFences(fences[k..], ext)
      {
        var f := fences[k];
        assert fences[k..][0] == f && fences[k..][1..] == fences[k + 1..];
        if f !in ext {
          anyPending := true;
          return;
        }
        if ext[f] != DMA_ACCEL_OK {
          anyFailed := true;
          return;
        }
      }
    }

    /** The eligibility check of one registered command. */
    method Check(i: nat) returns (anyPending: bool, anyFailed: bool)
      requires Valid() && i < |registry|
      ensures !(anyPending && anyFailed)
      ensures Evaluate(View(), i) == if anyPending then Pending else if anyFailed then Failed else Clear
    {
      var c := registry[i];
      anyPending, anyFailed := CheckFences(c.fenceDeps);
      if anyPending || anyFailed {
        return;
      }
      for k := 0 to |c.groupDeps|
        invariant !anyPending && !anyFailed
        invariant ScanGroups(c.groupDeps, ext) == ScanGroups(c.groupDeps[k..], ext)
      {
        assert c.groupDeps[k..][0] == c.groupDeps[k] && c.groupDeps[k..][1..] == c.groupDeps[k + 1..];
        anyPending, anyFailed := CheckFences(c.groupDeps[k]);
        if anyPending || anyFailed {
          return;
        }
      }
      for k := 0 to |c.pendingDeps|
        invariant ScanPending(c.pendingDeps, registry) == ScanPending(c.pendingDeps[k..], registry)
        invariant ScanGroups(c.groupDeps, ext) == Clear
      {
        assert c.pendingDeps[k..][0] == c.pendingDeps[k] && c.pendingDeps[k..][1..] == c.pendingDeps[k + 1..];
        var dep := registry[c.pendingDeps[k]];
        if dep.blocked {
          return false, true;
        }
        if !dep.submitted || dep.done.None? {
          return true, false;
        }
        if dep.done.value != DMA_ACCEL_OK {
          return false, true;
        }
      }
      return false, false;
    }

    method PumpStream(batch: seq<Arrival>)
      modifies this
      ensures View() == Pump(old(View()), batch)
    {
      for k := 0 to |batch|
        invariant Pump(View(), batch[k..]) == Pump(old(View()), batch)
      {
        assert batch[k..][0] == batch[k] && batch[k..][1..] == batch[k + 1..];
        match batch[k] {
          case OwnDone(i, status) =>
            if i < |registry| && registry[i].submitted && registry[i].done.None? {
              registry := registry[i := registry[i].(done := Some(status))];
            }
          case ExtDone(f, status) =>
            if f !in ext {
              ext := ext[f := status];
            }
        }
      }
    }

    method VisitOne(i: nat, during: seq<Arrival>)
      requires Valid() && i < |registry|
      modifies this
      ensures View() == VisitThrottled(old(View()), i, during)
    {
      if registry[i].submitted || registry[i].blocked {
        return;
      }
      var anyPending, anyFailed := Check(i);
      if anyFailed {
        registry := registry[i := registry[i].(blocked := true)];
      } else if !anyPending {
        PumpAdvances(View(), during);
        PumpStream(during);
        registry := registry[i := registry[i].(submitted := true)];
      }
    }

    /** One pass over the registry, in registration order. */
    method VisitAll(arrivals: nat -> seq<Arrival>)
      requires Valid()
      modifies this
      ensures Valid() && GraphOf(View()) == old(GraphOf(View()))
      ensures View() == Pass(old(View()), 0, arrivals)
    {
      ghost var end := Pass(View(), 0, arrivals);
      PassKeepsGraph(View(), 0, arrivals);
      for i := 0 to |registry|
        invariant Rest(i, arrivals, end)
      {
        VisitNext(i, arrivals, end);
      }
    }

    /** The pass has reached position `i`, and its rest leads to `end`. */
    ghost predicate Rest(i: nat, arrivals: nat -> seq<Arrival>, end: Engine)
      reads this
    {
      Valid() && i <= |registry| == |end.cmds| && Pass(View(), i, arrivals) == end
    }

    method VisitNext(i: nat, arrivals: nat -> seq<Arrival>, ghost end: Engine)
      requires Rest(i, arrivals, end) && i < |registry|
      modifies this
      ensures Rest(i + 1, arrivals, end) && |registry| == |old(registry)|
    {
      PassUnfold(View(), i, arrivals);
      VisitOne(i, arrivals(i));
    }

    /** One call: a pump, then one pass.  `CallIsRun` says that this is a run of the machine. */
    method Progress(first: seq<Arrival>, arrivals: nat -> seq<Arrival>)
      requires Valid()
      modifies this
      ensures Valid() && GraphOf(View()) == old(GraphOf(View()))
      ensures View() == AfterCall(old(View()), first, arrivals)
    {
      PumpAdvances(View(), first);
      AdvancesRegistered(View(), Pump(View(), first));
      PumpStream(first);
      VisitAll(arrivals);
    }
  }
}
