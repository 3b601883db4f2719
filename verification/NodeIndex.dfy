/** commit/commit.go and commit/file.go: the index of storage roots, one 72-byte
    entry per account whose storage root is an internal node, and its search. */
module NodeIndex {
  import opened Bytes

  const EntryLen: nat := 72

  datatype Slot = Slot(hash: bytes, root: bytes, off: nat)

  predicate ValidSlot(e: Slot) { |e.hash| == 32 && |e.root| == 32 && e.off < Pow256(8) }

  ghost predicate AllSlots(es: seq<Slot>) { forall i :: 0 <= i < |es| ==> ValidSlot(es[i]) }

  function EntryBytes(e: Slot): (b: bytes)
    requires |e.hash| == 32 && |e.root| == 32
    ensures |b| == EntryLen
  {
    e.hash + e.root + Le(e.off, 8)
  }

  /** The index is its entries laid end to end. */
  ghost predicate IndexIs(idx: bytes, es: seq<Slot>) {
    && |idx| == |es| * EntryLen
    && (forall i {:trigger es[i]} :: 0 <= i < |es| ==> EntryAt(idx, i, es[i]))
  }

  ghost predicate EntryAt(idx: bytes, i: nat, e: Slot) {
    && |e.hash| == 32 && |e.root| == 32 && (i + 1) * EntryLen <= |idx|
    && idx[i * EntryLen..(i + 1) * EntryLen] == EntryBytes(e)
  }

  /** Hashes ascend. */
  ghost predicate Sorted(es: seq<Slot>) {
    forall i, j {:trigger Less(es[i].hash, es[j].hash)} :: 0 <= i < j < |es| ==> Less(es[i].hash, es[j].hash)
  }

  ghost predicate AllBelow(es: seq<Slot>, hash: bytes) {
    forall i {:trigger Less(es[i].hash, hash)} :: 0 <= i < |es| ==> Less(es[i].hash, hash)
  }

  lemma IndexAppend(idx: bytes, es: seq<Slot>, e: Slot)
    requires IndexIs(idx, es) && |e.hash| == 32 && |e.root| == 32
    ensures IndexIs(idx + EntryBytes(e), es + [e])
  {
    var idx', es' := idx + EntryBytes(e), es + [e];
    forall i {:trigger es'[i]} | 0 <= i < |es'| ensures EntryAt(idx', i, es'[i]) {
      if i < |es| {
        assert EntryAt(idx, i, es[i]);
        assert idx'[i * EntryLen..(i + 1) * EntryLen] == idx[i * EntryLen..(i + 1) * EntryLen];
      }
    }
  }

  lemma SortedAppend(es: seq<Slot>, e: Slot)
    requires Sorted(es) && AllBelow(es, e.hash)
    ensures Sorted(es + [e])
  {
    var es' := es + [e];
    forall i, j {:trigger Less(es'[i].hash, es'[j].hash)} | 0 <= i < j < |es'| ensures Less(es'[i].hash, es'[j].hash) {
      if j < |es| { assert Less(es[i].hash, es[j].hash); } else { assert Less(es[i].hash, e.hash); }
    }
  }

  lemma EntryCut(h: bytes, r: bytes, o: bytes)
    requires |h| == 32 && |r| == 32 && |o| == 8
    ensures var b := h + r + o; b[..32] == h && b[32..64] == r && b[64..] == o
  {
  }

  lemma EntryFields(e: Slot)
    requires ValidSlot(e)
    ensures var b := EntryBytes(e); b[..32] == e.hash && b[32..64] == e.root && UnLe(b[64..]) == e.off
  {
    EntryCut(e.hash, e.root, Le(e.off, 8));
    UnLeLe(e.off, 8);
  }

  /** The hash at position i, as the search compares it. */
  method HashAt(idx: bytes, i: nat, ghost es: seq<Slot>) returns (h: bytes)
    requires IndexIs(idx, es) && AllSlots(es) && i < |es|
    ensures h == es[i].hash
  {
    assert EntryAt(idx, i, es[i]);
    EntryFields(es[i]);
    SliceSlice(idx, i * EntryLen, (i + 1) * EntryLen, 0, 32);
    h := idx[i * EntryLen..i * EntryLen + 32];
  }

  /** sort.Search: the first position whose hash is not below acct. */
  method SearchHash(idx: bytes, n: nat, acct: bytes, ghost es: seq<Slot>) returns (i: nat)
    requires IndexIs(idx, es) && AllSlots(es) && n == |es| && Sorted(es)
    ensures i <= n && (forall j {:trigger Less(es[j].hash, acct)} :: 0 <= j < i ==> Less(es[j].hash, acct))
    ensures forall j {:trigger Less(es[j].hash, acct)} :: i <= j < n ==> !Less(es[j].hash, acct)
  {
    var lo, hi := 0, n;
    while lo < hi
      invariant 0 <= lo <= hi <= n
      invariant forall j {:trigger Less(es[j].hash, acct)} :: 0 <= j < lo ==> Less(es[j].hash, acct)
      invariant forall j {:trigger Less(es[j].hash, acct)} :: hi <= j < n ==> !Less(es[j].hash, acct)
    {
      var mid := (lo + hi) / 2;
      var h := HashAt(idx, mid, es);
      if Less(h, acct) {
        BelowAlso(es, mid, acct);
        lo := mid + 1;
      } else {
        AboveAlso(es, mid, acct);
        hi := mid;
      }
    }
    i := lo;
  }

  lemma BelowAlso(es: seq<Slot>, mid: nat, acct: bytes)
    requires Sorted(es) && mid < |es| && Less(es[mid].hash, acct)
    ensures forall j {:trigger Less(es[j].hash, acct)} :: 0 <= j <= mid ==> Less(es[j].hash, acct)
  {
    forall j {:trigger Less(es[j].hash, acct)} | 0 <= j < mid ensures Less(es[j].hash, acct) {
      LessTransitive(es[j].hash, es[mid].hash, acct);
    }
  }

  lemma AboveAlso(es: seq<Slot>, mid: nat, acct: bytes)
    requires Sorted(es) && mid < |es| && !Less(es[mid].hash, acct)
    ensures forall j {:trigger Less(es[j].hash, acct)} :: mid <= j < |es| ==> !Less(es[j].hash, acct)
  {
    forall j {:trigger Less(es[j].hash, acct)} | mid < j < |es| ensures !Less(es[j].hash, acct) {
      LeqNotLess(acct, es[mid].hash);
      LeqLessTransitive(acct, es[mid].hash, es[j].hash);
      LessAsymmetric(acct, es[j].hash);
    }
  }

  /** index: the entry of acct, if it has one. */
  method Find(idx: bytes, n: nat, acct: bytes, ghost es: seq<Slot>)
    returns (found: bool, root: bytes, off: nat, ghost at: nat)
    requires IndexIs(idx, es) && AllSlots(es) && n == |es| && Sorted(es)
    ensures found ==> at < |es| && es[at] == Slot(acct, root, off)
    ensures !found ==> forall j :: 0 <= j < |es| ==> es[j].hash != acct
  {
    var i := SearchHash(idx, n, acct, es);
    found, root, off, at := false, [], 0, i;
    if i < n {
      var h := HashAt(idx, i, es);
      found := h == acct;
    }
    if !found {
      NotThere(es, acct, i);
      return;
    }
    assert EntryAt(idx, i, es[i]);
    EntryFields(es[i]);
    var e := idx[i * EntryLen..(i + 1) * EntryLen];
    root, off := e[32..64], UnLe(e[64..]);
  }

  lemma NotThere(es: seq<Slot>, acct: bytes, i: nat)
    requires Sorted(es) && i <= |es| && (i < |es| ==> es[i].hash != acct && !Less(es[i].hash, acct))
    requires forall j {:trigger Less(es[j].hash, acct)} :: 0 <= j < i ==> Less(es[j].hash, acct)
    ensures forall j :: 0 <= j < |es| ==> es[j].hash != acct
  {
    forall j | 0 <= j < |es| ensures es[j].hash != acct {
      LessIrreflexive(acct);
      if j > i {
        LeqNotLess(acct, es[i].hash);
        LeqLessTransitive(acct, es[i].hash, es[j].hash);
      } else if j < i {
        assert Less(es[j].hash, acct);
      }
    }
  }
}
