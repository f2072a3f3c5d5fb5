/**
 A ring addressed by free-running 32-bit counters, as the driver uses three times: the
 submission queue and the completion queue (16 slots) and each session's completion ring (64
 slots).  The slot of a counter is `counter % size`; because the size divides 2^32 this stays
 right when a counter wraps.
 */
module Rings {

  const U32 := 0x1_0000_0000

  predicate ValidSize(n: nat) {
    0 < n < U32 && U32 % n == 0
  }

  /** The ring contents are `q`: the entries from the head counter up to the tail counter. */
  ghost predicate Holds<T>(buf: seq<T>, head: nat, tail: nat, q: seq<T>) {
    && ValidSize(|buf|) && head < U32
    && |q| <= |buf|
    && tail == (head + |q|) % U32
    && forall k :: 0 <= k < |q| ==> buf[Slot(head + k, |buf|)] == q[k]
  }

  /** Slot of the counter that has been incremented `x` times, wrapping at 2^32. */
  function Slot(x: nat, n: nat): (r: nat)
    requires n > 0
    ensures r < n
  {
    (x % U32) % n
  }

  lemma DivMod(x: nat, n: nat)
    requires n > 0
    ensures x == n * (x / n) + x % n
  {
  }

  lemma UniqueMod(q: nat, r: nat, n: nat)
    requires r < n
    ensures (n * q + r) % n == r
  {
    var x := n * q + r;
    DivMod(x, n);
    var d := x / n - q;
    assert n * (x / n) - n * q == n * d;
    if d >= 1 { MulAtLeast(n, d); } else if d <= -1 { MulAtLeast(n, -d); }
  }

  /** Wrapping at 2^32 does not move a counter to another slot. */
  lemma WrapKeepsSlot(x: nat, n: nat)
    requires ValidSize(n)
    ensures Slot(x, n) == x % n
  {
    var m, q, w := U32 / n, x / U32, x % U32;
    DivMod(x, U32);
    DivMod(U32, n);
    DivMod(w, n);
    assert x == n * (m * q + w / n) + w % n by {
      assert U32 * q == n * (m * q) by { assert U32 == n * m; MulAssoc(n, m, q); }
      assert n * (m * q + w / n) == n * (m * q) + n * (w / n);
    }
    UniqueMod(m * q + w / n, w % n, n);
  }

  lemma MulAssoc(a: nat, b: nat, c: nat)
    ensures (a * b) * c == a * (b * c)
  {
  }

  /** Counters less than a ring size apart never share a slot. */
  lemma DistinctSlots(x: nat, y: nat, n: nat)
    requires ValidSize(n) && x < y < x + n
    ensures Slot(x, n) != Slot(y, n)
  {
    WrapKeepsSlot(x, n);
    WrapKeepsSlot(y, n);
    if x % n == y % n {
      DivMod(x, n);
      DivMod(y, n);
      var a, b := x / n, y / n;
      assert y - x == n * b - n * a;
      assert n * b - n * a == n * (b - a);
      assert 0 < n * (b - a) < n;
      if b - a >= 1 { MulAtLeast(n, b - a); } else { MulAtMost(n, b - a); }
    }
  }

  lemma MulAtLeast(n: nat, k: int)
    requires k >= 1
    ensures n * k >= n
  {
  }

  lemma MulAtMost(n: nat, k: int)
    requires k <= 0
    ensures n * k <= 0
  {
  }

  lemma WrapAdd(a: nat, b: nat)
    ensures ((a % U32) + b) % U32 == (a + b) % U32
  {
  }

  /** Writing at the tail of a ring that is not full appends: every unconsumed entry is still
      there, in order, followed by the new one. */
  lemma Push<T>(buf: seq<T>, head: nat, tail: nat, q: seq<T>, x: T)
    requires Holds(buf, head, tail, q) && |q| < |buf|
    ensures Holds(buf[tail % |buf| := x], head, (tail + 1) % U32, q + [x])
  {
    var n := |buf|;
    var slot := tail % n;
    assert slot == Slot(head + |q|, n);
    WrapAdd(head + |q|, 1);
    var buf', q' := buf[slot := x], q + [x];
    forall k | 0 <= k < |q'| ensures buf'[Slot(head + k, n)] == q'[k] {
      PushAt(buf, head, tail, q, x, k);
    }
  }

  lemma PushAt<T>(buf: seq<T>, head: nat, tail: nat, q: seq<T>, x: T, k: nat)
    requires Holds(buf, head, tail, q) && |q| < |buf| && k <= |q|
    ensures buf[tail % |buf| := x][Slot(head + k, |buf|)] == (q + [x])[k]
  {
    if k < |q| { DistinctSlots(head + k, head + |q|, |buf|); }
  }

  /** Reading at the head of a nonempty ring yields the oldest entry. */
  lemma Pop<T>(buf: seq<T>, head: nat, tail: nat, q: seq<T>)
    requires Holds(buf, head, tail, q) && q != []
    ensures buf[head % |buf|] == q[0]
    ensures Holds(buf, (head + 1) % U32, tail, q[1..])
  {
    var n := |buf|;
    assert Slot(head + 0, n) == head % n;
    WrapAdd(head + 1, |q| - 1);
    forall k | 0 <= k < |q| - 1 ensures buf[Slot((head + 1) % U32 + k, n)] == q[1..][k] {
      WrapAdd(head + 1, k);
      assert Slot((head + 1) % U32 + k, n) == Slot(head + (k + 1), n);
    }
  }

  /** The u32 difference of the counters is the number of entries, also across a wrap. */
  lemma Count<T>(buf: seq<T>, head: nat, tail: nat, q: seq<T>)
    requires Holds(buf, head, tail, q)
    ensures (tail - head) % U32 == |q|
    ensures head == tail <==> q == []
  {
  }
}
