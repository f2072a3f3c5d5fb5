/**
 What dependency-gated submission is for: when every two commands with conflicting buffer
 ranges are joined by a dependency path, memory ends up as if the commands had run one at a
 time, in any order that respects the dependencies.

 The device is not part of the repository, so the theorem is for every device that computes
 each destination byte from the command and from the bytes of the command's own ranges.
 */
module SequentialEquivalence {
  import opened Basics
  import opened DependencyGraph
  import opened Dependencies

  newtype Byte = x: int | 0 <= x < 256

  type Memory = seq<Byte>

  datatype Range = Range(lo: nat, len: nat)

  /** The ranges a descriptor names.  An opcode without a second input has an empty `src2`. */
  datatype Footprint = Footprint(src: Range, src2: Range, dst: Range)

  /** Destination byte number `a` of command `i`, from the bytes of src, src2 and dst.  The
      command number stands for opcode, scalar and final status. */
  type Device = (nat, seq<Byte>, seq<Byte>, seq<Byte>, nat) -> Byte

  datatype Program = Program(footprint: nat -> Footprint, device: Device)

  ghost predicate Fits(r: Range, m: Memory) {
    r.lo + r.len <= |m|
  }

  ghost predicate InBounds(f: Footprint, m: Memory) {
    Fits(f.src, m) && Fits(f.src2, m) && Fits(f.dst, m)
  }

  function Slice(m: Memory, r: Range): seq<Byte>
    requires Fits(r, m)
  {
    m[r.lo..r.lo + r.len]
  }

  /** Applying one command. */
  function Run(p: Program, i: nat, m: Memory): (m': Memory)
    requires InBounds(p.footprint(i), m)
    ensures |m'| == |m|
  {
    var f := p.footprint(i);
    seq(|m|, a requires 0 <= a < |m| =>
      if f.dst.lo <= a < f.dst.lo + f.dst.len
      then p.device(i, Slice(m, f.src), Slice(m, f.src2), Slice(m, f.dst), a - f.dst.lo)
      else m[a])
  }

  ghost predicate AllInBounds(p: Program, order: seq<nat>, m: Memory) {
    forall k :: 0 <= k < |order| ==> InBounds(p.footprint(order[k]), m)
  }

  /** Applying commands one at a time. */
  function RunAll(p: Program, order: seq<nat>, m: Memory): (m': Memory)
    requires AllInBounds(p, order, m)
    ensures |m'| == |m|
  {
    if order == [] then m else RunAll(p, order[1..], Run(p, order[0], m))
  }

  /** A command replaces its destination by what the device computes and changes no other byte. */
  lemma RunMeaning(p: Program, i: nat, m: Memory, a: nat)
    requires InBounds(p.footprint(i), m) && a < |m|
    ensures var f, m' := p.footprint(i), Run(p, i, m);
            if f.dst.lo <= a < f.dst.lo + f.dst.len
            then Slice(m', f.dst)[a - f.dst.lo] == p.device(i, Slice(m, f.src), Slice(m, f.src2), Slice(m, f.dst), a - f.dst.lo)
            else m'[a] == m[a]
  {
  }

  /** One at a time and in order: nothing happens for no commands, and the last command acts on
      what the others have left. */
  lemma RunAllMeaning(p: Program, order: seq<nat>, x: nat, m: Memory)
    requires AllInBounds(p, order, m) && InBounds(p.footprint(x), m)
    ensures RunAll(p, [], m) == m
    ensures AllInBounds(p, order + [x], m) && RunAll(p, order + [x], m) == Run(p, x, RunAll(p, order, m))
  {
    RunAllConcat(p, order, [x], m);
  }

  predicate Overlap(r: Range, q: Range) {
    r.len > 0 && q.len > 0 && r.lo < q.lo + q.len && q.lo < r.lo + r.len
  }

  predicate Touches(r: Range, f: Footprint) {
    Overlap(r, f.src) || Overlap(r, f.src2) || Overlap(r, f.dst)
  }

  /** One command writes what the other reads or writes. */
  predicate Conflict(p: Program, i: nat, j: nat) {
    Touches(p.footprint(i).dst, p.footprint(j)) || Touches(p.footprint(j).dst, p.footprint(i))
  }

  // ------------------------------------------------------- commuting commands --

  lemma SliceUnchanged(p: Program, i: nat, m: Memory, r: Range)
    requires InBounds(p.footprint(i), m) && Fits(r, m) && !Overlap(p.footprint(i).dst, r)
    ensures Slice(Run(p, i, m), r) == Slice(m, r)
  {
  }

  lemma Commute(p: Program, i: nat, j: nat, m: Memory)
    requires InBounds(p.footprint(i), m) && InBounds(p.footprint(j), m) && !Conflict(p, i, j)
    ensures Run(p, i, Run(p, j, m)) == Run(p, j, Run(p, i, m))
  {
    var f, h := p.footprint(i), p.footprint(j);
    SliceUnchanged(p, j, m, f.src);
    SliceUnchanged(p, j, m, f.src2);
    SliceUnchanged(p, j, m, f.dst);
    SliceUnchanged(p, i, m, h.src);
    SliceUnchanged(p, i, m, h.src2);
    SliceUnchanged(p, i, m, h.dst);
  }

  /** A command that conflicts with nothing in `pre` may run before all of it. */
  lemma {:induction false} RunFirst(p: Program, pre: seq<nat>, x: nat, m: Memory)
    requires AllInBounds(p, pre, m) && InBounds(p.footprint(x), m)
    requires forall k :: 0 <= k < |pre| ==> !Conflict(p, pre[k], x)
    ensures Run(p, x, RunAll(p, pre, m)) == RunAll(p, pre, Run(p, x, m))
  {
    if pre != [] {
      RunFirst(p, pre[1..], x, Run(p, pre[0], m));
      Commute(p, pre[0], x, m);
    }
  }

  lemma {:induction false} RunAllConcat(p: Program, s: seq<nat>, t: seq<nat>, m: Memory)
    requires AllInBounds(p, s, m) && AllInBounds(p, t, m)
    ensures AllInBounds(p, s + t, m)
    ensures RunAll(p, s + t, m) == RunAll(p, t, RunAll(p, s, m))
  {
    if s == [] {
      assert s + t == t;
    } else {
      assert (s + t)[0] == s[0] && (s + t)[1..] == s[1..] + t;
      RunAllConcat(p, s[1..], t, Run(p, s[0], m));
    }
  }

  ghost predicate SameElements(s: seq<nat>, t: seq<nat>) {
    forall x :: x in s <==> x in t
  }

  ghost predicate Precedes(s: seq<nat>, x: nat, y: nat) {
    exists a, b :: 0 <= a < b < |s| && s[a] == x && s[b] == y
  }

  /** No conflicting pair appears in opposite orders. */
  ghost predicate NoInversion(p: Program, s: seq<nat>, t: seq<nat>) {
    forall x, y :: Precedes(s, x, y) && Precedes(t, y, x) ==> !Conflict(p, y, x)
  }

  function Without(t: seq<nat>, d: nat): seq<nat>
    requires d < |t|
  {
    t[..d] + t[d + 1..]
  }

  lemma WithoutElements(t: seq<nat>, d: nat, x: nat)
    requires d < |t| && Distinct(t)
    ensures x in Without(t, d) <==> x in t && x != t[d]
  {
    var u := Without(t, d);
    if x in u {
      var k :| 0 <= k < |u| && u[k] == x;
      assert x == t[if k < d then k else k + 1];
    }
    if x in t && x != t[d] {
      var c :| 0 <= c < |t| && t[c] == x;
      assert u[if c < d then c else c - 1] == x;
    }
  }

  lemma WithoutDistinct(t: seq<nat>, d: nat)
    requires d < |t| && Distinct(t)
    ensures Distinct(Without(t, d))
  {
    var u := Without(t, d);
    forall a, b | 0 <= a < b < |u| ensures u[a] != u[b] {
      assert u[a] == t[if a < d then a else a + 1];
      assert u[b] == t[if b < d then b else b + 1];
    }
  }

  lemma WithoutPrecedes(t: seq<nat>, d: nat, x: nat, y: nat)
    requires d < |t| && Precedes(Without(t, d), x, y)
    ensures Precedes(t, x, y)
  {
    var u := Without(t, d);
    var a, b :| 0 <= a < b < |u| && u[a] == x && u[b] == y;
    var a', b' := if a < d then a else a + 1, if b < d then b else b + 1;
    assert t[a'] == x && t[b'] == y;
  }

  /** Dropping one command from two orders keeps their relation. */
  lemma DropFromBoth(p: Program, s: seq<nat>, t: seq<nat>, c: nat, d: nat)
    requires Distinct(s) && Distinct(t) && SameElements(s, t) && NoInversion(p, s, t)
    requires c < |s| && d < |t| && t[d] == s[c]
    ensures var r, u := Without(s, c), Without(t, d);
            Distinct(r) && Distinct(u) && SameElements(r, u) && NoInversion(p, r, u)
  {
    var r, u := Without(s, c), Without(t, d);
    WithoutDistinct(s, c);
    WithoutDistinct(t, d);
    forall x ensures x in r <==> x in u {
      WithoutElements(s, c, x);
      WithoutElements(t, d, x);
    }
    forall x, y | Precedes(r, x, y) && Precedes(u, y, x) ensures !Conflict(p, y, x) {
      WithoutPrecedes(s, c, x, y);
      WithoutPrecedes(t, d, y, x);
    }
  }

  /** Orders of the same commands that agree on conflicting pairs have the same effect. */
  lemma {:induction false} ReorderInvariance(p: Program, s: seq<nat>, t: seq<nat>, m: Memory)
    requires Distinct(s) && Distinct(t) && SameElements(s, t) && NoInversion(p, s, t)
    requires AllInBounds(p, s, m) && AllInBounds(p, t, m)
    ensures RunAll(p, s, m) == RunAll(p, t, m)
    decreases |s|
  {
    if s == [] {
      EmptyIffNoElements(t);
    } else {
      var x := s[0];
      assert x in t;
      var d :| 0 <= d < |t| && t[d] == x;
      forall k | 0 <= k < d ensures !Conflict(p, t[k], x) {
        assert Precedes(t, t[k], x);
        assert t[k] in s;
        var b :| 0 <= b < |s| && s[b] == t[k];
        assert s[0] == x;
        assert Precedes(s, x, t[k]);
      }
      RunAtFront(p, t, d, m);
      DropFromBoth(p, s, t, 0, d);
      assert Without(s, 0) == s[1..];
      WithoutInBounds(p, t, d, Run(p, x, m));
      ReorderInvariance(p, s[1..], Without(t, d), Run(p, x, m));
    }
  }

  lemma WithoutInBounds(p: Program, t: seq<nat>, d: nat, m: Memory)
    requires d < |t| && AllInBounds(p, t, m)
    ensures AllInBounds(p, Without(t, d), m)
  {
    var u := Without(t, d);
    forall k | 0 <= k < |u| ensures InBounds(p.footprint(u[k]), m) {
      assert u[k] == t[if k < d then k else k + 1];
    }
  }

  lemma RunAtFront(p: Program, t: seq<nat>, d: nat, m: Memory)
    requires d < |t| && AllInBounds(p, t, m)
    requires forall k :: 0 <= k < d ==> !Conflict(p, t[k], t[d])
    ensures AllInBounds(p, Without(t, d), Run(p, t[d], m))
    ensures RunAll(p, t, m) == RunAll(p, Without(t, d), Run(p, t[d], m))
  {
    var pre, x, post := t[..d], t[d], t[d + 1..];
    var m1 := Run(p, x, m);
    assert t == pre + ([x] + post);
    RunAllConcat(p, pre, [x] + post, m);
    var mid := RunAll(p, pre, m);
    assert ([x] + post)[1..] == post;
    assert RunAll(p, [x] + post, mid) == RunAll(p, post, Run(p, x, mid));
    RunFirst(p, pre, x, m);
    WithoutInBounds(p, t, d, m1);
    RunAllConcat(p, pre, post, m1);
  }

  // --------------------------------------------- dependencies order conflicts --

  /** `t` lists each of its commands once, after everything it depends on. */
  ghost predicate Topological(e: Engine, t: seq<nat>) {
    && Distinct(t)
    && forall b :: 0 <= b < |t| ==>
         && t[b] < |e.cmds|
         && forall d :: d in e.cmds[t[b]].pendingDeps ==> Before(t, d, b)
  }

  /** Conflicting commands of the order are joined by a dependency path, one way or the other. */
  ghost predicate ConflictsJoined(p: Program, e: Engine, t: seq<nat>) {
    forall a, b :: 0 <= a < b < |t| && Conflict(p, t[b], t[a]) ==>
      Reaches(GraphOf(e), t[a], t[b]) || Reaches(GraphOf(e), t[b], t[a])
  }

  lemma {:induction false} PathComesBefore(e: Engine, t: seq<nat>, q: seq<nat>, b: nat, k: nat)
    requires Topological(e, t) && IsPath(GraphOf(e), q) && b < |t| && t[b] == q[0] && k < |q|
    ensures exists a :: 0 <= a <= b && t[a] == q[k] && (k > 0 ==> a < b)
  {
    if k > 0 {
      PathComesBefore(e, t, q, b, k - 1);
      var a :| 0 <= a <= b && t[a] == q[k - 1];
      assert q[k] in e.cmds[t[a]].pendingDeps;
      assert Before(t, q[k], a);
    }
  }

  lemma ReachedComesBefore(e: Engine, t: seq<nat>, a: nat, b: nat)
    requires Topological(e, t) && a < |t| && b < |t| && a != b && Reaches(GraphOf(e), t[b], t[a])
    ensures a < b
  {
    var q :| PathFromTo(GraphOf(e), q, t[b], t[a]);
    PathComesBefore(e, t, q, b, |q| - 1);
    var c :| 0 <= c <= b && t[c] == t[a];
  }

  lemma TopologicalNoInversion(p: Program, e: Engine, s: seq<nat>, t: seq<nat>)
    requires Topological(e, s) && Topological(e, t) && ConflictsJoined(p, e, s)
    ensures NoInversion(p, s, t)
  {
    forall x, y | Precedes(s, x, y) && Precedes(t, y, x) ensures !Conflict(p, y, x) {
      var a, b :| 0 <= a < b < |s| && s[a] == x && s[b] == y;
      var c, d :| 0 <= c < d < |t| && t[c] == y && t[d] == x;
      if Conflict(p, y, x) {
        if Reaches(GraphOf(e), x, y) {
          ReachedComesBefore(e, s, b, a);
        } else {
          ReachedComesBefore(e, t, d, c);
        }
      }
    }
  }

  /** Sequential equivalence, at every point of every run: memory is as if the commands
      applied so far had run one at a time in any dependency-respecting order. */
  lemma SequentiallyEquivalent(ws: seq<World>, ss: seq<Step>, o: Outcomes, k: nat,
                               p: Program, t: seq<nat>, m: Memory)
    requires IsRun(ws, ss, o) && ws[0] == EmptyWorld && k < |ws|
    requires var w := ws[k];
             && ConflictsJoined(p, w.engine, w.effects)
             && Topological(w.engine, t) && SameElements(w.effects, t)
    requires AllInBounds(p, ws[k].effects, m) && AllInBounds(p, t, m)
    ensures RunAll(p, ws[k].effects, m) == RunAll(p, t, m)
  {
    var w := ws[k];
    RunInv(ws, ss, o, k);
    assert Topological(w.engine, w.effects);
    TopologicalNoInversion(p, w.engine, w.effects, t);
    ReorderInvariance(p, w.effects, t, m);
  }

  /** The case of a drained engine: once every submitted command has completed, `t` may be any
      topological order of the submitted commands. */
  lemma DrainedEquivalent(ws: seq<World>, ss: seq<Step>, o: Outcomes, p: Program, t: seq<nat>, m: Memory)
    requires IsRun(ws, ss, o) && ws[0] == EmptyWorld
    requires var e := ws[|ss|].engine;
             && (forall i :: 0 <= i < |e.cmds| && e.cmds[i].submitted ==> e.cmds[i].done.Some?)
             && (forall i, j :: 0 <= i < |e.cmds| && 0 <= j < |e.cmds| && i != j && Conflict(p, i, j) ==>
                   Reaches(GraphOf(e), i, j) || Reaches(GraphOf(e), j, i))
             && Topological(e, t)
             && (forall i :: i in t <==> 0 <= i < |e.cmds| && e.cmds[i].submitted)
             && (forall i :: 0 <= i < |e.cmds| ==> InBounds(p.footprint(i), m))
    ensures AllInBounds(p, ws[|ss|].effects, m) && AllInBounds(p, t, m)
    ensures RunAll(p, ws[|ss|].effects, m) == RunAll(p, t, m)
  {
    var w := ws[|ss|];
    RunInv(ws, ss, o, |ss|);
    assert SameElements(w.effects, t);
    SequentiallyEquivalent(ws, ss, o, |ss|, p, t, m);
  }
}
