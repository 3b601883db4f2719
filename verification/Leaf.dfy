/** commit/dirty.go, leaf: a trie leaf rebuilt from the sorted flat state, found by
    seeking to the packed path. */
module Leaf {
  import opened Bytes
  import opened Nibbles
  import opened LatestRun

  /** The hashed key starts with the trie path. */
  predicate Starts(key: bytes, path: bytes) { path <= Nibs(key) }

  // ------------------------------------------------------- order and prefixes

  lemma LeqHead(a: bytes, b: bytes)
    requires a != [] && b != []
    ensures Leq(a, b) <==> a[0] < b[0] || (a[0] == b[0] && Leq(a[1..], b[1..]))
  {
    if a[0] == b[0] {
      assert a == b <==> a[1..] == b[1..] by { assert a == [a[0]] + a[1..] && b == [b[0]] + b[1..]; }
    }
  }

  lemma LeqEmpty(a: bytes)
    ensures Leq([], a) && (Leq(a, []) ==> a == [])
  {
  }

  /** The same test on the key's bytes, two nibbles at a time. */
  predicate Under(key: bytes, path: bytes)
    requires IsPath(path)
  {
    path == [] || (key != [] &&
                   if |path| == 1 then Hi(key[0]) == path[0]
                   else key[0] == Pair(path[0], path[1]) && Under(key[1..], path[2..]))
  }

  lemma {:induction false} UnderIsStarts(key: bytes, path: bytes)
    requires IsPath(path)
    ensures Under(key, path) <==> Starts(key, path)
    decreases |path|
  {
    if |path| >= 2 && key != [] {
      UnderIsStarts(key[1..], path[2..]);
      StartsTwo(key, path);
    }
  }

  lemma StartsTwo(key: bytes, path: bytes)
    requires IsPath(path) && |path| >= 2 && key != []
    ensures Starts(key, path) <==> key[0] == Pair(path[0], path[1]) && Starts(key[1..], path[2..])
  {
    HalvesPair(key[0]);
    PairHalves(path[0], path[1]);
    PrefixTwo(path, Nibs(key));
  }

  lemma PrefixTwo(p: bytes, n: bytes)
    requires |p| >= 2 && |n| >= 2
    ensures p <= n <==> p[0] == n[0] && p[1] == n[1] && p[2..] <= n[2..]
  {
    assert p == [p[0], p[1]] + p[2..] && n == [n[0], n[1]] + n[2..];
  }

  /** Every key under a path is at or above the packed, zero-padded path. */
  lemma {:induction false} PackedLeq(key: bytes, path: bytes)
    requires IsPath(path) && Under(key, path)
    ensures Leq(Pack(path), key)
    decreases |path|
  {
    if path == [] {
      LeqEmpty(key);
    } else if |path| == 1 {
      OddHead(key[0], path[0]);
      LeqHead(Pack(path), key);
      LeqEmpty(key[1..]);
    } else {
      PackedLeq(key[1..], path[2..]);
      LeqHead(Pack(path), key);
    }
  }

  lemma OddHead(b: byte, h: byte)
    requires h < 16
    ensures Hi(b) == h <==> Pair(h, 0) <= b <= Pair(h, 15)
  {
  }

  /** Whatever lies between the packed path and a key under it is under it too. */
  lemma {:induction false} BetweenUnder(k: bytes, key: bytes, path: bytes)
    requires IsPath(path) && Under(key, path) && Leq(Pack(path), k) && Leq(k, key)
    ensures Under(k, path)
    decreases |path|
  {
    if path != [] {
      if k == [] { LeqEmpty(Pack(path)); }
      LeqHead(Pack(path), k);
      LeqHead(k, key);
      if |path| == 1 {
        OddHead(key[0], path[0]);
        OddHead(k[0], path[0]);
      } else {
        BetweenUnder(k[1..], key[1..], path[2..]);
      }
    }
  }

  /** A common prefix does not matter to the order, and what lies between two keys
      with it has it. */
  lemma {:induction false} SharedPrefix(p: bytes, a: bytes, k: bytes, b: bytes)
    requires Leq(p + a, k) && Leq(k, p + b)
    ensures p <= k && Leq(a, k[|p|..]) && Leq(k[|p|..], b)
    decreases |p|
  {
    if p == [] {
      assert p + a == a && p + b == b && k[0..] == k;
    } else {
      if k == [] { LeqEmpty(p + a); }
      LeqHead(p + a, k);
      LeqHead(k, p + b);
      TailConcat(p, a);
      TailConcat(p, b);
      SharedPrefix(p[1..], a, k[1..], b);
      HeadBack(p, k);
    }
  }

  lemma HeadBack(p: bytes, k: bytes)
    requires p != [] && k != [] && p[0] == k[0] && p[1..] <= k[1..]
    ensures p <= k && k[1..][|p| - 1..] == k[|p|..]
  {
    assert p == [p[0]] + p[1..] && k == [k[0]] + k[1..];
  }

  lemma {:induction false} PrefixLeq(p: bytes, a: bytes, b: bytes)
    requires Leq(a, b)
    ensures Leq(p + a, p + b)
    decreases |p|
  {
    if p == [] {
      assert p + a == a && p + b == b;
    } else {
      PrefixLeq(p[1..], a, b);
      TailConcat(p, a);
      TailConcat(p, b);
      LeqHead(p + a, p + b);
    }
  }

  /** Only the first half of a path's bytes matters. */
  lemma {:induction false} UnderTake(k: bytes, n: nat, path: bytes)
    requires IsPath(path) && |path| <= 2 * n && n <= |k|
    ensures Under(k[..n], path) <==> Under(k, path)
    decreases |path|
  {
    if |path| >= 2 {
      UnderTake(k[1..], n - 1, path[2..]);
      assert k[..n][1..] == k[1..][..n - 1];
    }
  }

  // ------------------------------------------------------------ the flat state

  predicate IsAccount(k: bytes) { |k| == 33 && k[32] == 0 }

  predicate IsSlot(k: bytes) { |k| == 65 && k[32] == 1 }

  ghost predicate HasAccount(rows: seq<Entry>, h: bytes) { exists j :: 0 <= j < |rows| && rows[j].key == h + [0] }

  /** Rows in key order, each an account or a slot of an account that has a row. */
  ghost predicate Flat(rows: seq<Entry>) {
    && Ascending(rows)
    && (forall i {:trigger rows[i]} :: 0 <= i < |rows| ==>
          IsAccount(rows[i].key) || (IsSlot(rows[i].key) && HasAccount(rows, rows[i].key[..32])))
  }

  /** The row of a key whose hash starts with path, in the trie of owner; the zero
      hash names the account trie. */
  predicate Matches(owner: bytes, k: bytes, path: bytes) {
    if owner == Zeros(32) then IsAccount(k) && Starts(k[..32], path)
    else IsSlot(k) && k[..32] == owner && Starts(k[33..], path)
  }

  function HashedKey(owner: bytes, k: bytes): bytes
    requires |k| >= 33
  {
    if owner == Zeros(32) then k[..32] else k[33..]
  }

  /** seek: the first row at or above prefix. */
  method Seek(rows: seq<Entry>, prefix: bytes) returns (i: nat)
    requires Ascending(rows)
    ensures i <= |rows| && (i < |rows| ==> Leq(prefix, rows[i].key))
    ensures forall j {:trigger Leq(prefix, rows[j].key)} :: 0 <= j < i ==> !Leq(prefix, rows[j].key)
  {
    i := 0;
    while i < |rows| && Less(rows[i].key, prefix)
      invariant i <= |rows|
      invariant forall j {:trigger Leq(prefix, rows[j].key)} :: 0 <= j < i ==> !Leq(prefix, rows[j].key)
    {
      LeqNotLess(prefix, rows[i].key);
      i := i + 1;
    }
    if i < |rows| { LeqNotLess(prefix, rows[i].key); }
  }

  function Prefix(owner: bytes, path: bytes): bytes
    requires IsPath(path)
  {
    if owner == Zeros(32) then Pack(path) else owner + [1] + Pack(path)
  }

  /** Every matching row is at or above the prefix. */
  lemma MatchAbove(owner: bytes, k: bytes, path: bytes)
    requires IsPath(path) && Matches(owner, k, path)
    ensures Leq(Prefix(owner, path), k)
  {
    var h := HashedKey(owner, k);
    UnderIsStarts(h, path);
    if owner == Zeros(32) {
      UnderTake(k, 32, path);
      PackedLeq(k, path);
    } else {
      PackedLeq(h, path);
      PrefixLeq(owner + [1], Pack(path), h);
      assert k == owner + [1] + h;
    }
  }

  /** In the storage case, what seek lands on before a match is a match. */
  lemma SlotBetween(owner: bytes, k: bytes, key: bytes, path: bytes)
    requires IsPath(path) && owner != Zeros(32) && Matches(owner, key, path) && (IsAccount(k) || IsSlot(k))
    requires Leq(Prefix(owner, path), k) && Leq(k, key)
    ensures Matches(owner, k, path)
  {
    var p := owner + [1];
    assert key == p + key[33..] && |p| == 33;
    SharedPrefix(p, Pack(path), k, key[33..]);
    assert k[32] == p[32] && k[..32] == p[..32] == owner;
    UnderIsStarts(key[33..], path);
    BetweenUnder(k[33..], key[33..], path);
    UnderIsStarts(k[33..], path);
  }

  /** In the account case it is under the path, whichever kind of row it is. */
  lemma AccountBetween(k: bytes, key: bytes, path: bytes)
    requires IsPath(path) && IsAccount(key) && Starts(key[..32], path) && |k| >= 32
    requires Leq(Pack(path), k) && Leq(k, key)
    ensures Starts(k[..32], path) && |path| <= 64
  {
    UnderIsStarts(key[..32], path);
    UnderTake(key, 32, path);
    BetweenUnder(k, key, path);
    UnderTake(k, 32, path);
    UnderIsStarts(k[..32], path);
  }

  /** A slot row under the path has its account row, also under it, before it. */
  lemma AccountFirst(rows: seq<Entry>, i: nat, path: bytes)
    requires Flat(rows) && i < |rows| && IsSlot(rows[i].key) && IsPath(path) && Starts(rows[i].key[..32], path)
    ensures exists a :: 0 <= a < i && Leq(Pack(path), rows[a].key)
  {
    var h := rows[i].key[..32];
    assert HasAccount(rows, h);
    var a :| 0 <= a < |rows| && rows[a].key == h + [0];
    assert rows[a].key[..32] == h;
    MatchAbove(Zeros(32), rows[a].key, path);
    LessAt(rows[a].key, rows[i].key, 32);
    if a > i {
      assert Less(rows[i].key, rows[a].key);
      LessAsymmetric(rows[i].key, rows[a].key);
    }
  }

  /** If any row matches, the one seek finds does. */
  lemma SeekMatches(rows: seq<Entry>, owner: bytes, path: bytes, i: nat, j: nat)
    requires Flat(rows) && IsPath(path) && i <= |rows| && j < |rows| && Matches(owner, rows[j].key, path)
    requires i < |rows| ==> Leq(Prefix(owner, path), rows[i].key)
    requires forall x {:trigger Leq(Prefix(owner, path), rows[x].key)} :: 0 <= x < i ==>
               !Leq(Prefix(owner, path), rows[x].key)
    ensures i <= j && Matches(owner, rows[i].key, path)
  {
    MatchAbove(owner, rows[j].key, path);
    assert i <= j;
    var k, key := rows[i].key, rows[j].key;
    assert Leq(k, key) by { if i < j { assert Less(rows[i].key, rows[j].key); } }
    if owner != Zeros(32) {
      SlotBetween(owner, k, key, path);
    } else {
      AccountBetween(k, key, path);
      if IsSlot(k) { AccountFirst(rows, i, path); }
    }
  }

  /** leaf: found exactly when some row's hashed key starts with path; the first such
      row; and the rebuilt node's key is what is left of it. */
  method LeafAt(rows: seq<Entry>, owner: bytes, path: bytes) returns (found: bool, at: nat, key: bytes)
    requires Flat(rows) && IsPath(path)
    ensures found <==> exists j :: 0 <= j < |rows| && Matches(owner, rows[j].key, path)
    ensures found ==> at < |rows| && Matches(owner, rows[at].key, path) && forall j :: 0 <= j < at ==>
              !Matches(owner, rows[j].key, path)
    ensures found ==> key != [] && LeafKey(key) && path + Hex(key) == Nibs(HashedKey(owner, rows[at].key))
  {
    found, at, key := false, 0, [];
    var packed := PackNibbles(path);
    var i := Seek(rows, if owner == Zeros(32) then packed else owner + [1] + packed);
    forall j | 0 <= j < |rows| && Matches(owner, rows[j].key, path)
      ensures i <= j && Matches(owner, rows[i].key, path)
    {
      SeekMatches(rows, owner, path, i, j);
    }
    if i == |rows| { return; }
    var k := rows[i].key;
    if !(if owner == Zeros(32) then IsAccount(k) else IsSlot(k) && k[..32] == owner) { return; }
    at := i;
    found, key := Rebuild(HashedKey(owner, k), path);
  }

  /** The remainder of a hashed key below path, hex-prefix coded as a leaf's. */
  method Rebuild(hashed: bytes, path: bytes) returns (found: bool, key: bytes)
    ensures found <==> Starts(hashed, path)
    ensures found ==> key != [] && LeafKey(key) && path + Hex(key) == Nibs(hashed)
  {
    var nib := KeyToNibbles(hashed);
    found, key := path <= nib, [];
    if !found { return; }
    HexCompact(nib[|path|..], true);
    key := HexToCompact(nib[|path|..], true);
  }
}
