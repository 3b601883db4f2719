/** Byte slabs: what the latest-state overlay and the dirty-node overlay share. */
module Slab {
  import opened Bytes

  /** Where a slot sits: [off, end) of the slab. */
  datatype Span = Span(off: nat, end: nat)

  ghost predicate Apart(a: Span, b: Span) { a.end <= b.off || b.end <= a.off }

  /** The two slabs agree on [lo, hi). */
  ghost predicate Same(a: bytes, b: bytes, lo: nat, hi: nat) {
    hi <= |a| && hi <= |b| && forall i :: lo <= i < hi ==> a[i] == b[i]
  }
}
