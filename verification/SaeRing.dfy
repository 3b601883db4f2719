/** exec/saering.go: the fixed ring of post-execution roots and gas clocks. */
module SaeRing {
  import opened Bytes
  import opened Rlp

  const Slots: nat := 8192
  const SlotSize: nat := 160
  const MaxClock: nat := 114

  /** What the ring keeps for a height; on file both are bytes. */
  datatype Rec<R, C> = Rec(height: nat, root: R, clock: C)

  type Raw = Rec<bytes, bytes>

  predicate ValidRec(r: Raw) { r.height < Pow256(8) && |r.root| == 32 && |r.clock| <= MaxClock }

  /** height, root, clock length, clock, padding */
  function Body(r: Raw): (b: bytes)
    requires ValidRec(r)
    ensures |b| == SlotSize - 4
  {
    Be(r.height, 8) + r.root + Be(|r.clock|, 2) + r.clock + Zeros(MaxClock - |r.clock|)
  }

  type Sum = n: nat | n < 0x1_0000_0000

  /** A slot: the checksum of the rest, then the rest. */
  function SlotOf(r: Raw, crc: bytes -> Sum): (s: bytes)
    requires ValidRec(r)
    ensures |s| == SlotSize
  {
    Be(crc(Body(r)), 4) + Body(r)
  }

  /** get on a slot's bytes: absent unless the checksum and the height agree. */
  function Parse(s: bytes, height: nat, crc: bytes -> Sum): Option<Raw>
    requires |s| == SlotSize
  {
    if UnBe(s[..4]) != crc(s[4..]) || UnBe(s[4..12]) != height || UnBe(s[44..46]) > MaxClock then None
    else Some(Rec(height, s[12..44], s[46..46 + UnBe(s[44..46])]))
  }

  lemma BodyCut(h: bytes, root: bytes, n: bytes, clock: bytes, pad: bytes)
    requires |h| == 8 && |root| == 32 && |n| == 2
    ensures var b := h + root + n + clock + pad;
            b[..8] == h && b[8..40] == root && b[40..42] == n && b[42..42 + |clock|] == clock
  {
  }

  lemma SlotCut(sum: bytes, body: bytes, n: nat)
    requires |sum| == 4 && |body| == SlotSize - 4 && n <= MaxClock
    ensures var s := sum + body;
            && s[..4] == sum && s[4..] == body && s[4..12] == body[..8] && s[12..44] == body[8..40]
            && s[44..46] == body[40..42]
            && s[46..46 + n] == body[42..42 + n]
  {
  }

  /** What was put is read back for its own height and for no other. */
  lemma ParseSlot(r: Raw, height: nat, crc: bytes -> Sum)
    requires ValidRec(r)
    ensures Parse(SlotOf(r, crc), height, crc) == if height == r.height then Some(r) else None
  {
    Pow256Four();
    UnBeBe(crc(Body(r)), 4);
    UnBeBe(r.height, 8);
    UnBeBe(|r.clock|, 2);
    SlotCut(Be(crc(Body(r)), 4), Body(r), |r.clock|);
    BodyParts(r);
  }

  lemma BodyParts(r: Raw)
    requires ValidRec(r)
    ensures Body(r)[..8] == Be(r.height, 8) && Body(r)[8..40] == r.root && Body(r)[40..42] == Be(|r.clock|, 2)
    ensures Body(r)[42..42 + |r.clock|] == r.clock
  {
    BodyCut(Be(r.height, 8), r.root, Be(|r.clock|, 2), r.clock, Zeros(MaxClock - |r.clock|));
  }

  /** An unwritten slot is all zeros, and its checksum is not. */
  ghost predicate ZeroIsTorn(crc: bytes -> Sum) { crc(Zeros(SlotSize - 4)) != 0 }

  lemma {:induction false} UnBeZeros(n: nat)
    ensures UnBe(Zeros(n)) == 0
  {
    if n > 0 {
      assert Zeros(n)[..n - 1] == Zeros(n - 1);
      UnBeZeros(n - 1);
    }
  }

  lemma ParseZero(height: nat, crc: bytes -> Sum)
    requires ZeroIsTorn(crc)
    ensures Parse(Zeros(SlotSize), height, crc) == None
  {
    UnBeZeros(4);
    assert Zeros(SlotSize)[..4] == Zeros(4) && Zeros(SlotSize)[4..] == Zeros(SlotSize - 4);
  }

  class Ring {
    const buf: array<bytes> // one element per slot
    const crc: bytes -> Sum
    ghost var last: map<nat, Raw> // the last record put into each slot

    ghost predicate Valid()
      reads this, buf
    {
      && buf.Length == Slots && ZeroIsTorn(crc)
      && (forall i {:trigger buf[i]} :: 0 <= i < Slots ==>
            buf[i] == if i in last then SlotBytes(last[i]) else Zeros(SlotSize))
      && (forall i {:trigger i in last} :: i in last ==> ValidRec(last[i]))
    }

    ghost function SlotBytes(r: Raw): bytes { if ValidRec(r) then SlotOf(r, crc) else [] }

    constructor (crc: bytes -> Sum)
      requires ZeroIsTorn(crc)
      ensures Valid() && last == map[] && fresh(buf)
    {
      this.crc, last := crc, map[];
      buf := new bytes[Slots](_ => Zeros(SlotSize));
    }

    /** put: the slot of the height holds this record and nothing else changes. A clock
        that does not fit is refused. */
    method Put(r: Raw) returns (ok: bool)
      requires Valid() && r.height < Pow256(8) && |r.root| == 32
      modifies this`last, buf
      ensures Valid() && ok == (|r.clock| <= MaxClock)
      ensures last == if ok then old(last)[r.height % Slots := r] else old(last)
    {
      if |r.clock| > MaxClock { return false; }
      var i := r.height % Slots;
      buf[i] := SlotOf(r, crc);
      last := last[i := r];
      return true;
    }

    /** get: found exactly when the last put into the height's slot was for it. */
    method Get(height: nat) returns (r: Option<Raw>)
      requires Valid()
      ensures r == Held(last, height)
    {
      var i := height % Slots;
      if i in last { ParseSlot(last[i], height, crc); } else { ParseZero(height, crc); }
      r := Parse(buf[i], height, crc);
    }
  }

  function Held<R, C>(last: map<nat, Rec<R, C>>, height: nat): Option<Rec<R, C>> {
    var i := height % Slots;
    if i in last && last[i].height == height then Some(last[i]) else None
  }

  /** The slots after these records were put in turn. */
  ghost function After<R, C>(last: map<nat, Rec<R, C>>, rs: seq<Rec<R, C>>): map<nat, Rec<R, C>> {
    if rs == [] then last else After(last, rs[..|rs| - 1])[rs[|rs| - 1].height % Slots := rs[|rs| - 1]]
  }

  lemma SameSlot(a: nat, b: nat)
    requires a % Slots == b % Slots && a < b
    ensures b >= a + Slots
  {
  }

  /** After contiguous ascending puts exactly the latest 8192 heights are there. */
  lemma {:induction false} LatestHeld<R, C>(rs: seq<Rec<R, C>>, from: nat, h: nat)
    requires forall i {:trigger rs[i]} :: 0 <= i < |rs| ==> rs[i].height == from + i
    ensures Held(After(map[], rs), h) ==
            if from <= h < from + |rs| && h + Slots >= from + |rs| then Some(rs[h - from]) else None
    decreases |rs|
  {
    if rs != [] {
      var n := |rs| - 1;
      LatestHeld(rs[..n], from, h);
      HeldPut(After(map[], rs[..n]), rs[n], h);
      Turn(h, from + n);
    }
  }

  lemma HeldPut<R, C>(last: map<nat, Rec<R, C>>, x: Rec<R, C>, h: nat)
    ensures Held(last[x.height % Slots := x], h) ==
            if x.height % Slots != h % Slots then Held(last, h) else if x.height == h then Some(x) else None
  {
  }

  /** Heights share a slot only a whole turn apart. */
  lemma Turn(h: nat, x: nat)
    ensures h % Slots == x % Slots && h < x ==> h + Slots <= x
    ensures h + Slots == x ==> h % Slots == x % Slots
  {
    if h % Slots == x % Slots && h < x { SameSlot(h, x); }
  }
}
