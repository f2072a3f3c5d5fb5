/** What several components share. */
module Basics {

  datatype Option<+T> = None | Some(value: T)

  /** The status of a command that completed without an error. */
  const DMA_ACCEL_OK: nat := 0

  ghost predicate Distinct(s: seq<nat>) {
    forall a, b :: 0 <= a < b < |s| ==> s[a] != s[b]
  }

  lemma EmptyIffNoElements<T>(t: seq<T>)
    ensures t == [] <==> forall x :: x !in t
  {
    if t != [] { assert t[0] in t; }
  }

  lemma Reassociate<T>(a: seq<T>, b: seq<T>, c: seq<T>)
    ensures (a + b) + c == a + (b + c)
  {
  }
}
