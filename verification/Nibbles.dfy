/** commit/commit.go, the nibble codecs: keys as half-bytes, and the hex-prefix
    coding of Appendix C of the Ethereum Yellow Paper. */
module Nibbles {
  import opened Bytes

  predicate IsPath(p: bytes) { forall i :: 0 <= i < |p| ==> p[i] < 16 }

  /** b >> 4 */
  function Hi(b: byte): (h: byte)
    ensures h < 16
  {
    b / 16
  }

  /** b & 15 */
  function Lo(b: byte): (l: byte)
    ensures l < 16
  {
    b % 16
  }

  /** hi << 4 | lo */
  function Pair(hi: byte, lo: byte): byte
    requires hi < 16 && lo < 16
  {
    16 * hi + lo
  }

  lemma PairHalves(hi: byte, lo: byte)
    requires hi < 16 && lo < 16
    ensures Hi(Pair(hi, lo)) == hi && Lo(Pair(hi, lo)) == lo
  {
  }

  lemma HalvesPair(b: byte)
    ensures Pair(Hi(b), Lo(b)) == b
  {
  }

  predicate Even(p: bytes) { p == [] || (|p| > 1 && Even(p[2..])) }

  lemma {:induction false} EvenIs(p: bytes)
    ensures Even(p) <==> |p| % 2 == 0
  {
    if |p| > 1 { EvenIs(p[2..]); }
  }

  /** A path is stored as two half-bytes a byte, high half first. */
  function Nibs(key: bytes): (p: bytes)
    ensures |p| == 2 * |key| && IsPath(p)
  {
    if key == [] then [] else [Hi(key[0]), Lo(key[0])] + Nibs(key[1..])
  }

  /** The inverse; an odd tail is padded with a zero half. */
  function Pack(p: bytes): (key: bytes)
    requires IsPath(p)
  {
    if p == [] then [] else if |p| == 1 then [Pair(p[0], 0)] else [Pair(p[0], p[1])] + Pack(p[2..])
  }

  /** Hex-prefix coding: a flag half-byte holding the parity and the leaf bit. */
  function Compact(p: bytes, leaf: bool): (c: bytes)
    requires IsPath(p)
    ensures c != []
  {
    if Even(p) then [Pair(if leaf then 2 else 0, 0)] + Pack(p)
    else [Pair(if leaf then 3 else 1, p[0])] + Pack(p[1..])
  }

  function Hex(c: bytes): (p: bytes)
    requires c != []
    ensures IsPath(p)
  {
    if Hi(c[0]) % 2 == 1 then Nibs(c)[1..] else Nibs(c)[2..]
  }

  /** key[0] & 0x20 != 0 */
  predicate LeafKey(c: bytes)
    requires c != []
  {
    Hi(c[0]) / 2 % 2 == 1
  }

  lemma {:induction false} NibsPack(p: bytes)
    requires IsPath(p)
    ensures Nibs(Pack(p)) == if Even(p) then p else p + [0]
  {
    if |p| >= 2 {
      NibsPack(p[2..]);
      PairHalves(p[0], p[1]);
      assert Pack(p)[1..] == Pack(p[2..]) && p == [p[0], p[1]] + p[2..];
    } else {
      if |p| == 1 {
        PairHalves(p[0], 0);
        assert Pack(p)[1..] == [] && p + [0] == [p[0], 0];
      }
    }
  }

  lemma {:induction false} NibsConcat(a: bytes, b: bytes)
    ensures Nibs(a + b) == Nibs(a) + Nibs(b)
  {
    if a == [] {
      assert a + b == b;
    } else {
      NibsConcat(a[1..], b);
      TailConcat(a, b);
    }
  }

  lemma {:induction false} EvenTail(p: bytes)
    requires p != []
    ensures Even(p[1..]) <==> !Even(p)
  {
    EvenIs(p);
    EvenIs(p[1..]);
  }

  /** Hex-prefix coding loses neither the path nor the leaf flag. */
  lemma HexCompact(p: bytes, leaf: bool)
    requires IsPath(p)
    ensures Hex(Compact(p, leaf)) == p && LeafKey(Compact(p, leaf)) == leaf
  {
    if Even(p) {
      PairHalves(if leaf then 2 else 0, 0);
      Prefixed(Compact(p, leaf), p);
    } else {
      EvenTail(p);
      PairHalves(if leaf then 3 else 1, p[0]);
      Prefixed(Compact(p, leaf), p[1..]);
    }
  }

  lemma Prefixed(c: bytes, rest: bytes)
    requires IsPath(rest) && Even(rest) && c != [] && c[1..] == Pack(rest)
    ensures Nibs(c) == [Hi(c[0]), Lo(c[0])] + rest
  {
    NibsPack(rest);
  }

  /** Distinct keys have distinct paths. */
  lemma {:induction false} NibsInjective(a: bytes, b: bytes)
    requires Nibs(a) == Nibs(b)
    ensures a == b
  {
    if a != [] {
      HalvesPair(a[0]);
      HalvesPair(b[0]);
      assert Nibs(a)[0] == Nibs(b)[0] && Nibs(a)[1] == Nibs(b)[1] && Nibs(a)[2..] == Nibs(b)[2..];
      NibsInjective(a[1..], b[1..]);
    }
  }

  method KeyToNibbles(key: bytes) returns (nib: bytes)
    ensures nib == Nibs(key)
  {
    nib := [];
    for k := 0 to |key|
      invariant nib == Nibs(key[..k])
    {
      DropDrop(key, k);
      NibsConcat(key[..k], [key[k]]);
      assert Nibs([key[k]]) == [Hi(key[k]), Lo(key[k])];
      nib := nib + [Hi(key[k]), Lo(key[k])];
    }
    assert key[..|key|] == key;
  }

  method CompactToHex(compact: bytes) returns (p: bytes)
    requires compact != [] // the source panics on an empty key
    ensures p == Hex(compact)
  {
    var nib := KeyToNibbles(compact);
    if nib[0] % 2 == 1 { return nib[1..]; }
    return nib[2..];
  }

  method HexToCompact(nibbles: bytes, leaf: bool) returns (out: bytes)
    requires IsPath(nibbles)
    ensures out == Compact(nibbles, leaf)
  {
    EvenIs(nibbles);
    if |nibbles| % 2 == 1 {
      EvenTail(nibbles);
      out := PackOnto([Pair(if leaf then 3 else 1, nibbles[0])], nibbles[1..]);
    } else {
      out := PackOnto([Pair(if leaf then 2 else 0, 0)], nibbles);
    }
  }

  /** The loop of hexToCompact. */
  method PackOnto(head: bytes, nibbles: bytes) returns (out: bytes)
    requires IsPath(nibbles) && Even(nibbles)
    ensures out == head + Pack(nibbles)
  {
    var rest := nibbles;
    out := head;
    while rest != []
      invariant IsPath(rest) && Even(rest)
      invariant out + Pack(rest) == head + Pack(nibbles)
      decreases |rest|
    {
      ConcatAssoc(out, [Pair(rest[0], rest[1])], Pack(rest[2..]));
      out, rest := out + [Pair(rest[0], rest[1])], rest[2..];
    }
  }

  lemma {:induction false} PackLength(p: bytes)
    requires IsPath(p)
    ensures 2 * |Pack(p)| == if Even(p) then |p| else |p| + 1
  {
    if |p| >= 2 { PackLength(p[2..]); }
  }

  /** A further nibble opens a byte or fills the low half of the last one. */
  lemma {:induction false} PackSnoc(p: bytes, x: byte)
    requires IsPath(p) && x < 16
    ensures Even(p) ==> Pack(p + [x]) == Pack(p) + [Pair(x, 0)]
    ensures !Even(p) ==> Pack(p) != [] && Lo(Pack(p)[|Pack(p)| - 1]) == 0
    ensures !Even(p) ==> var n := |Pack(p)| - 1; Pack(p + [x]) == Pack(p)[..n] + [Pair(Hi(Pack(p)[n]), x)]
  {
    if |p| >= 2 {
      PackSnoc(p[2..], x);
      assert (p + [x])[2..] == p[2..] + [x];
    } else if |p| == 1 {
      PairHalves(p[0], 0);
      assert (p + [x])[2..] == [];
    }
  }

  /** packNibbles: each half-byte is or-ed into a zeroed buffer. */
  method PackNibbles(nib: bytes) returns (out: bytes)
    requires IsPath(nib)
    ensures out == Pack(nib)
  {
    out := [];
    for i := 0 to |nib|
      invariant out == Pack(nib[..i])
    {
      DropDrop(nib, i);
      EvenIs(nib[..i]);
      PackSnoc(nib[..i], nib[i]);
      if i % 2 == 0 {
        out := out + [Pair(nib[i], 0)];
      } else {
        var n := |out| - 1;
        out := out[..n] + [Pair(Hi(out[n]), nib[i])];
      }
    }
    assert nib[..|nib|] == nib;
  }
}
