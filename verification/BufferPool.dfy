/**
 Buffer pools and their move-only handles: handles are moved, moved onto each other (also onto
 themselves, also across pools) and destroyed, and every buffer stays with exactly one holder.

 Pools and handles are named by identity; their fields are kept in maps that the operations
 update.  A buffer is named by its position in its pool's buffer vector.
 */
module BufferPools {
  import opened Basics

  type PoolId = nat
  type HandleId = nat

  datatype Handle = Empty | Holding(pool: PoolId, buffer: nat)

  type Handles = map<HandleId, Handle>

  predicate Holds(handles: Handles, h: HandleId, p: PoolId) {
    h in handles && handles[h].Holding? && handles[h].pool == p
  }

  ghost function Holders(handles: Handles, p: PoolId): set<HandleId> {
    set h | h in handles && Holds(handles, h, p)
  }

  ghost predicate IsHeld(handles: Handles, p: PoolId, b: nat) {
    exists h :: h in handles && handles[h] == Holding(p, b)
  }

  /** Every buffer of the pool is in the free list exactly once or held by exactly one live
      handle, never both; free buffers and holding handles add up to the capacity. */
  ghost predicate Partitioned(capacity: nat, free: seq<nat>, handles: Handles, p: PoolId) {
    && Distinct(free)
    && (forall b :: b in free ==> b < capacity && !IsHeld(handles, p, b))
    && (forall h :: Holds(handles, h, p) ==> handles[h].buffer < capacity)
    && (forall h, g :: Holds(handles, h, p) && Holds(handles, g, p) && h != g ==> handles[h].buffer != handles[g].buffer)
    && (forall b: nat :: b < capacity ==> b in free || IsHeld(handles, p, b))
    && |free| + |Holders(handles, p)| == capacity
  }

  // ---------------------------------------------------------- elementary moves --

  lemma HeldAfter(handles: Handles, h: HandleId, v: Handle, p: PoolId, b: nat)
    ensures IsHeld(handles[h := v], p, b) <==> v == Holding(p, b) || exists g :: g in handles && g != h && handles[g] == Holding(p, b)
  {
    var handles' := handles[h := v];
    if v == Holding(p, b) { assert handles'[h] == Holding(p, b); }
    if g :| g in handles && g != h && handles[g] == Holding(p, b) { assert handles'[g] == Holding(p, b); }
  }

  lemma Unaffected(capacity: nat, free: seq<nat>, handles: Handles, h: HandleId, v: Handle, p: PoolId)
    requires Partitioned(capacity, free, handles, p) && !Holds(handles, h, p) && !(v.Holding? && v.pool == p)
    ensures Partitioned(capacity, free, handles[h := v], p)
  {
    forall b: nat ensures IsHeld(handles[h := v], p, b) <==> IsHeld(handles, p, b) {
      HeldAfter(handles, h, v, p, b);
      if IsHeld(handles, p, b) {
        var g :| g in handles && handles[g] == Holding(p, b);
        assert Holds(handles, g, p);
      }
    }
    assert Holders(handles[h := v], p) == Holders(handles, p);
    forall g | Holds(handles[h := v], g, p) ensures g != h && Holds(handles, g, p) {}
  }

  lemma LastOut(free: seq<nat>)
    requires Distinct(free) && free != []
    ensures var n := |free| - 1;
            && Distinct(free[..n]) && free[n] !in free[..n]
            && forall x :: x in free <==> x in free[..n] || x == free[n]
  {
    assert free == free[..|free| - 1] + [free[|free| - 1]];
  }

  lemma TakenIsHeld(handles: Handles, h: HandleId, p: PoolId, b: nat, x: nat)
    requires !Holds(handles, h, p)
    ensures IsHeld(handles[h := Holding(p, b)], p, x) <==> IsHeld(handles, p, x) || x == b
  {
    HeldAfter(handles, h, Holding(p, b), p, x);
    if IsHeld(handles, p, x) {
      var g :| g in handles && handles[g] == Holding(p, x);
      assert Holds(handles, g, p);
    }
  }

  lemma Taken(capacity: nat, free: seq<nat>, handles: Handles, h: HandleId, p: PoolId)
    requires Partitioned(capacity, free, handles, p) && free != [] && !Holds(handles, h, p)
    ensures var n := |free| - 1; Partitioned(capacity, free[..n], handles[h := Holding(p, free[n])], p)
  {
    var n := |free| - 1;
    var b, rest := free[n], free[..n];
    var handles' := handles[h := Holding(p, b)];
    LastOut(free);
    forall x: nat ensures IsHeld(handles', p, x) <==> IsHeld(handles, p, x) || x == b {
      TakenIsHeld(handles, h, p, b, x);
    }
    assert Holders(handles', p) == Holders(handles, p) + {h};
    forall g | Holds(handles, g, p) ensures g != h && handles[g].buffer != b {
      assert IsHeld(handles, p, handles[g].buffer);
    }
  }

  lemma Returned(capacity: nat, free: seq<nat>, handles: Handles, h: HandleId, p: PoolId)
    requires Partitioned(capacity, free, handles, p) && Holds(handles, h, p)
    ensures Partitioned(capacity, free + [handles[h].buffer], handles[h := Empty], p)
  {
    var b := handles[h].buffer;
    var handles' := handles[h := Empty];
    assert IsHeld(handles, p, b);
    forall x: nat ensures IsHeld(handles', p, x) <==> IsHeld(handles, p, x) && x != b {
      HeldAfter(handles, h, Empty, p, x);
      if IsHeld(handles, p, x) && x != b {
        var g :| g in handles && handles[g] == Holding(p, x);
        assert g != h;
      }
      if g :| g in handles && g != h && handles[g] == Holding(p, x) {
        assert Holds(handles, g, p);
      }
    }
    assert Holders(handles', p) == Holders(handles, p) - {h};
    assert h in Holders(handles, p);
    forall g | Holds(handles', g, p) ensures g != h && Holds(handles, g, p) {}
  }

  lemma Handover(capacity: nat, free: seq<nat>, handles: Handles, dst: HandleId, src: HandleId, p: PoolId)
    requires Partitioned(capacity, free, handles, p) && src in handles && dst != src && !Holds(handles, dst, p)
    ensures Partitioned(capacity, free, handles[src := Empty][dst := handles[src]], p)
  {
    var v := handles[src];
    if v.Holding? && v.pool == p {
      var b := v.buffer;
      Returned(capacity, free, handles, src, p);
      Taken(capacity, free + [b], handles[src := Empty], dst, p);
      assert (free + [b])[..|free|] == free;
    } else {
      Unaffected(capacity, free, handles, src, Empty, p);
      Unaffected(capacity, free, handles[src := Empty], dst, v, p);
    }
  }

  lemma Dropped(capacity: nat, free: seq<nat>, handles: Handles, h: HandleId, p: PoolId)
    requires Partitioned(capacity, free, handles, p) && h in handles && handles[h].Empty?
    ensures Partitioned(capacity, free, handles - {h}, p)
  {
    var handles' := handles - {h};
    forall b: nat ensures IsHeld(handles', p, b) <==> IsHeld(handles, p, b) {
      if IsHeld(handles, p, b) {
        var g :| g in handles && handles[g] == Holding(p, b);
        assert g in handles' && handles'[g] == Holding(p, b);
      }
    }
    assert Holders(handles', p) == Holders(handles, p);
    forall g | Holds(handles', g, p) ensures Holds(handles, g, p) {}
  }

  // ------------------------------------------------------------- all pools at once --

  ghost predicate PoolOk(capacity: map<PoolId, nat>, free: map<PoolId, seq<nat>>, handles: Handles, p: PoolId)
    requires free.Keys == capacity.Keys
  {
    p in free ==> Partitioned(capacity[p], free[p], handles, p)
  }

  /** Every pool is partitioned, and handles hold buffers of existing pools only. */
  ghost predicate WellFormed(capacity: map<PoolId, nat>, free: map<PoolId, seq<nat>>, handles: Handles) {
    && free.Keys == capacity.Keys
    && (forall p {:trigger PoolOk(capacity, free, handles, p)} :: PoolOk(capacity, free, handles, p))
    && (forall h :: h in handles && handles[h].Holding? ==> handles[h].pool in free)
  }

  lemma NewPoolKeeps(capacity: map<PoolId, nat>, free: map<PoolId, seq<nat>>, handles: Handles, p: PoolId, count: nat)
    requires WellFormed(capacity, free, handles) && p !in free
    ensures WellFormed(capacity[p := count], free[p := seq(count, i => i)], handles)
  {
    var all := seq(count, i => i);
    FreshPool(handles, p, count);
    var capacity', free' := capacity[p := count], free[p := all];
    forall q ensures PoolOk(capacity', free', handles, q) {
      assert PoolOk(capacity, free, handles, q);
    }
  }

  lemma FreshPool(handles: Handles, p: PoolId, count: nat)
    requires forall h :: h in handles ==> !Holds(handles, h, p)
    ensures Partitioned(count, seq(count, i => i), handles, p)
  {
    var all := seq(count, i => i);
    forall b: nat | b < count ensures b in all { assert all[b] == b; }
    assert Holders(handles, p) == {};
    forall b: nat ensures !IsHeld(handles, p, b) {
      assert forall h :: h in handles && handles[h] == Holding(p, b) ==> Holds(handles, h, p);
    }
  }

  lemma AcquireKeeps(capacity: map<PoolId, nat>, free: map<PoolId, seq<nat>>, handles: Handles, p: PoolId, h: HandleId)
    requires WellFormed(capacity, free, handles) && p in free && free[p] != [] && h !in handles
    ensures var n := |free[p]| - 1;
            WellFormed(capacity, free[p := free[p][..n]], handles[h := Holding(p, free[p][n])])
  {
    var n := |free[p]| - 1;
    var v := Holding(p, free[p][n]);
    var free', handles' := free[p := free[p][..n]], handles[h := v];
    forall q ensures PoolOk(capacity, free', handles', q) {
      assert PoolOk(capacity, free, handles, q);
      if q == p {
        Taken(capacity[p], free[p], handles, h, p);
      } else if q in free {
        Unaffected(capacity[q], free[q], handles, h, v, q);
      }
    }
  }

  lemma ReleaseKeeps(capacity: map<PoolId, nat>, free: map<PoolId, seq<nat>>, handles: Handles, h: HandleId)
    requires WellFormed(capacity, free, handles) && h in handles
    ensures WellFormed(capacity, GivenBack(free, handles[h]), handles[h := Empty])
  {
    var free', handles' := GivenBack(free, handles[h]), handles[h := Empty];
    forall q ensures PoolOk(capacity, free', handles', q) {
      assert PoolOk(capacity, free, handles, q);
      if Holds(handles, h, q) {
        Returned(capacity[q], free[q], handles, h, q);
      } else if q in free {
        Unaffected(capacity[q], free[q], handles, h, Empty, q);
      }
    }
  }

  lemma TakeKeeps(capacity: map<PoolId, nat>, free: map<PoolId, seq<nat>>, handles: Handles, dst: HandleId, src: HandleId)
    requires WellFormed(capacity, free, handles) && src in handles && dst != src && (dst in handles ==> handles[dst].Empty?)
    ensures WellFormed(capacity, free, handles[src := Empty][dst := handles[src]])
  {
    var handles' := handles[src := Empty][dst := handles[src]];
    forall q ensures PoolOk(capacity, free, handles', q) {
      assert PoolOk(capacity, free, handles, q);
      if q in free { Handover(capacity[q], free[q], handles, dst, src, q); }
    }
  }

  lemma DropKeeps(capacity: map<PoolId, nat>, free: map<PoolId, seq<nat>>, handles: Handles, h: HandleId)
    requires WellFormed(capacity, free, handles) && h in handles && handles[h].Empty?
    ensures WellFormed(capacity, free, handles - {h})
  {
    var handles' := handles - {h};
    forall q ensures PoolOk(capacity, free, handles', q) {
      assert PoolOk(capacity, free, handles, q);
      if q in free { Dropped(capacity[q], free[q], handles, h, q); }
    }
  }

  // ------------------------------------------------------------- the operations --

  /** The free lists after handle value `v` has given back what it holds. */
  function GivenBack(free: map<PoolId, seq<nat>>, v: Handle): map<PoolId, seq<nat>> {
    if v.Holding? && v.pool in free then free[v.pool := free[v.pool] + [v.buffer]] else free
  }

  /** A buffer goes back to its own pool, on top: it is the next one to be acquired. */
  lemma GivenBackOnTop(free: map<PoolId, seq<nat>>, p: PoolId, b: nat)
    requires p in free
    ensures var free' := GivenBack(free, Holding(p, b));
            && free'.Keys == free.Keys && |free'[p]| == |free[p]| + 1
            && free'[p][|free[p]|] == b && free'[p][..|free[p]|] == free[p]
            && (forall q :: q in free && q != p ==> free'[q] == free[q])
  {
  }

  class PoolSystem {
    var capacity: map<PoolId, nat>
    var free: map<PoolId, seq<nat>>
    var handles: Handles

    ghost predicate Valid()
      reads this
    {
      WellFormed(capacity, free, handles)
    }

    constructor ()
      ensures Valid() && free == map[] && handles == map[]
    {
      capacity, free, handles := map[], map[], map[];
    }

    /** All buffers are allocated up front and start out free.  The Stream grants `granted`
        allocations; one that it refuses ends the construction and there is no pool. */
    method NewPool(p: PoolId, count: nat, granted: nat) returns (ok: bool)
      requires Valid() && p !in free
      modifies this
      ensures Valid() && handles == old(handles) && ok == (count <= granted)
      ensures !ok ==> capacity == old(capacity) && free == old(free)
      ensures ok ==> capacity == old(capacity)[p := count] && free == old(free)[p := seq(count, i => i)]
    {
      var list: seq<nat> := [];
      for i := 0 to count
        invariant i <= granted && |list| == i && forall j :: 0 <= j < i ==> list[j] == j
      {
        if i == granted {
          return false;
        }
        list := list + [i];
      }
      NewPoolKeeps(capacity, free, handles, p, count);
      assert list == seq(count, i => i);
      capacity, free := capacity[p := count], free[p := list];
      return true;
    }

    /** The most recently released buffer, or nothing when all are out. */
    method Acquire(p: PoolId, h: HandleId) returns (ok: bool)
      requires Valid() && p in free && h !in handles
      modifies this`free, this`handles
      ensures Valid() && ok == (old(free)[p] != [])
      ensures !ok ==> free == old(free) && handles == old(handles)
      ensures ok ==> var n := |old(free)[p]| - 1;
                     && free == old(free)[p := old(free)[p][..n]]
                     && handles == old(handles)[h := Holding(p, old(free)[p][n])]
    {
      if free[p] == [] {
        return false;
      }
      AcquireKeeps(capacity, free, handles, p, h);
      var n := |free[p]| - 1;
      handles := handles[h := Holding(p, free[p][n])];
      free := free[p := free[p][..n]];
      return true;
    }

    /** A handle gives back what it holds, if anything, and is empty afterwards. */
    method ReleaseIfHeld(h: HandleId)
      requires Valid() && h in handles
      modifies this`free, this`handles
      ensures Valid() && handles == old(handles)[h := Empty] && free == GivenBack(old(free), old(handles)[h])
    {
      ReleaseKeeps(capacity, free, handles, h);
      if handles[h].Holding? {
        var Holding(p, b) := handles[h];
        free := free[p := free[p] + [b]];
      }
      handles := handles[h := Empty];
    }

    method MoveConstruct(h: HandleId, other: HandleId)
      requires Valid() && h !in handles && other in handles
      modifies this`handles
      ensures Valid() && handles == old(handles)[other := Empty][h := old(handles)[other]]
    {
      TakeKeeps(capacity, free, handles, h, other);
      var v := handles[other];
      handles := handles[other := Empty][h := v];
    }

    /** Assigning a handle to itself changes nothing; otherwise the target's old buffer is given
        back first and the source ends up empty. */
    method MoveAssign(h: HandleId, other: HandleId)
      requires Valid() && h in handles && other in handles
      modifies this`free, this`handles
      ensures Valid()
      ensures h == other ==> handles == old(handles) && free == old(free)
      ensures h != other ==> handles == old(handles)[other := Empty][h := old(handles)[other]]
      ensures h != other ==> free == GivenBack(old(free), old(handles)[h])
    {
      if h != other {
        ReleaseIfHeld(h);
        TakeKeeps(capacity, free, handles, h, other);
        var v := handles[other];
        handles := handles[other := Empty][h := v];
      }
    }

    method Destroy(h: HandleId)
      requires Valid() && h in handles
      modifies this`free, this`handles
      ensures Valid() && handles == old(handles) - {h} && free == GivenBack(old(free), old(handles)[h])
    {
      ReleaseIfHeld(h);
      DropKeeps(capacity, free, handles, h);
      handles := handles - {h};
    }
  }
}
