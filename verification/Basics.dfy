/** Bytes, values that may be missing, and sequences without repetitions. */
module Basics {
  type byte = x: int | 0 <= x < 256

  datatype Option<T> = None | Some(value: T)

  ghost predicate NoDup<X>(q: seq<X>) {
    forall i, j :: 0 <= i < j < |q| ==> q[i] != q[j]
  }

  ghost function Set<X>(q: seq<X>): set<X> {
    set x | x in q
  }

  lemma Associates<X>(a: seq<X>, b: seq<X>, c: seq<X>)
    ensures (a + b) + c == a + (b + c)
  {
  }
}
