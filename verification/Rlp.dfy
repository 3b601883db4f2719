/** Recursive length prefix decoding, Appendix B of the Ethereum Yellow Paper, as
    the rlp package's Split, SplitList, SplitString and CountValues do it: only
    canonical headers are accepted and an item never runs past the buffer. */
module Rlp {
  import opened Bytes

  datatype Item = Item(list: bool, content: bytes, rest: bytes)

  function UnBe(b: bytes): nat {
    if b == [] then 0 else 256 * UnBe(b[..|b| - 1]) + b[|b| - 1] as nat
  }

  /** n bytes of x, most significant first; higher bytes are dropped. */
  function Be(x: nat, n: nat): (b: bytes)
    ensures |b| == n
    decreases n
  {
    if n == 0 then [] else Be(x / 256, n - 1) + [(x % 256) as byte]
  }

  lemma {:induction false} UnBeBe(x: nat, n: nat)
    requires x < Pow256(n)
    ensures UnBe(Be(x, n)) == x
    decreases n
  {
    if n > 0 {
      UnBeBe(x / 256, n - 1);
      assert Be(x, n)[..n - 1] == Be(x / 256, n - 1);
    }
  }

  /** The size field of a long item, n bytes of big-endian. */
  function ReadSize(b: bytes, n: nat): (s: Option<nat>)
    requires n > 0
    ensures s.Some? ==> s.value >= 56 && n <= |b|
  {
    if n > |b| || b[0] == 0 || UnBe(b[..n]) < 56 then None else Some(UnBe(b[..n]))
  }

  /** The lengths of an item's header and content. */
  function Header(b: bytes): (r: Option<(bool, nat, nat)>)
    ensures r.Some? ==> r.value.1 <= |b|
    ensures r.Some? ==> r.value.1 + r.value.2 > 0
  {
    if b == [] then None
    else if b[0] < 0x80 then Some((false, 0, 1))
    else if b[0] < 0xB8 then
      var n := b[0] as nat - 0x80;
      if n == 1 && |b| > 1 && b[1] < 128 then None else Some((false, 1, n))
    else if b[0] < 0xC0 then
      var n := b[0] as nat - 0xB7;
      match ReadSize(b[1..], n) case None => None case Some(s) => Some((false, n + 1, s))
    else if b[0] < 0xF8 then Some((true, 1, b[0] as nat - 0xC0))
    else
      var n := b[0] as nat - 0xF7;
      match ReadSize(b[1..], n) case None => None case Some(s) => Some((true, n + 1, s))
  }

  /** The first item of b: its content and what follows it. */
  function Split(b: bytes): (r: Option<Item>)
    ensures r.Some? ==> |r.value.rest| < |b| && |r.value.content| + |r.value.rest| <= |b|
    ensures r.Some? ==> b[|b| - |r.value.rest|..] == r.value.rest
    ensures r.Some? ==> b[|b| - |r.value.rest| - |r.value.content|..|b| - |r.value.rest|] == r.value.content
  {
    match Header(b)
    case None => None
    case Some((list, tag, size)) =>
      if tag + size > |b| then None else Some(Item(list, b[tag..tag + size], b[tag + size..]))
  }

  function SplitList(b: bytes): (r: Option<Item>)
    ensures r.Some? ==> Split(b) == r
  {
    var r := Split(b);
    if r.Some? && r.value.list then r else None
  }

  function SplitString(b: bytes): (r: Option<Item>)
    ensures r.Some? ==> Split(b) == r
  {
    var r := Split(b);
    if r.Some? && !r.value.list then r else None
  }

  /** The number of items laid end to end in b; 0 on a malformed one, as the
      callers that drop the error see it. */
  function CountValues(b: bytes): nat
  {
    match Count(b) case None => 0 case Some(n) => n
  }

  function Count(b: bytes): Option<nat>
    decreases |b|
  {
    if b == [] then Some(0) else
    match Split(b)
    case None => None
    case Some(item) => match Count(item.rest) case None => None case Some(n) => Some(n + 1)
  }
}
