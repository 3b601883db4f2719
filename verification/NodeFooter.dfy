/** commit/commit.go finish and parseFooter, commit/file.go Open: the trailer of a node
    file, and opening what was written. */
module NodeFooter {
  import opened Bytes
  import opened NodeFile
  import opened NodeIndex

  const Magic: bytes := [0x45, 0x50, 0x43, 0x48, 0x43, 0x4D, 0x54, 0x31] // EPCHCMT1
  const Version: nat := 1
  const FooterLen: nat := 120

  type Crc = x: nat | x < 0x1_0000_0000

  /** What the trailer records besides where things are. */
  datatype Stamp = Stamp(root: bytes, nodes: nat, keys: nat, user: bytes)

  predicate ValidStamp(s: Stamp) { |s.root| == |s.user| == 32 && s.nodes < Pow256(8) && s.keys < Pow256(8) }

  datatype Footer = Footer(rootOff: nat, idxOff: nat, idxN: nat, stamp: Stamp)

  predicate ValidFooter(f: Footer) {
    ValidStamp(f.stamp) && f.rootOff < Pow256(8) && f.idxOff < Pow256(8) && f.idxN < Pow256(8)
  }

  /** The footer up to its checksum. */
  function FooterHead(f: Footer): (h: bytes)
    requires ValidStamp(f.stamp)
    ensures |h| == FooterLen - 4
  {
    Magic + Le(Version, 4) + Le(f.rootOff, 8) + f.stamp.root + FooterRest(f)
  }

  function FooterRest(f: Footer): (t: bytes)
    requires ValidStamp(f.stamp)
    ensures |t| == 64
  {
    Le(f.stamp.nodes, 8) + Le(f.stamp.keys, 8) + Le(f.idxOff, 8) + Le(f.idxN, 8) + f.stamp.user
  }

  function FooterBytes(f: Footer, crc: bytes -> Crc): (b: bytes)
    requires ValidStamp(f.stamp)
    ensures |b| == FooterLen
  {
    FooterHead(f) + Le(crc(FooterHead(f)), 4)
  }

  function ParseFooter(b: bytes, crc: bytes -> Crc): Option<Footer> {
    if |b| != FooterLen || b[..8] != Magic || UnLe(b[8..12]) != Version || crc(b[..116]) != UnLe(b[116..]) then None
    else Some(Footer(UnLe(b[12..20]), UnLe(b[68..76]), UnLe(b[76..84]),
                     Stamp(b[20..52], UnLe(b[52..60]), UnLe(b[60..68]), b[84..116])))
  }

  /** The opened file: its bytes and the footer. */
  datatype Archive = Archive(m: bytes, rootOff: nat, idxOff: nat, idxN: nat, stamp: Stamp)

  /** Open: the checks of the source. */
  function Open(m: bytes, crc: bytes -> Crc): Option<Archive> {
    if |m| < MagicLen + FooterLen then None else
    match ParseFooter(m[|m| - FooterLen..], crc)
    case None => None
    case Some(f) =>
      if m[..8] != Magic || f.rootOff >= |m| || f.idxOff < MagicLen || f.idxOff + f.idxN * EntryLen != |m| - FooterLen
      then None
      else Some(Archive(m, f.rootOff, f.idxOff, f.idxN, f.stamp))
  }

  lemma HeadCut(a: bytes, b: bytes, c: bytes, d: bytes, tail: bytes)
    requires |a| == 8 && |b| == 4 && |c| == 8 && |d| == 32
    ensures var h := a + b + c + d + tail;
            h[..8] == a && h[8..12] == b && h[12..20] == c && h[20..52] == d && h[52..] == tail
  {
  }

  lemma TailCut(e: bytes, f: bytes, g: bytes, h: bytes, i: bytes)
    requires |e| == |f| == |g| == |h| == 8 && |i| == 32
    ensures var t := e + f + g + h + i;
            |t| == 64 && t[..8] == e && t[8..16] == f && t[16..24] == g && t[24..32] == h && t[32..] == i
  {
  }

  /** The pieces of a footer where parseFooter looks for them. */
  lemma FooterCut(f: Footer, sum: bytes)
    requires ValidStamp(f.stamp) && |sum| == 4
    ensures var b := FooterHead(f) + sum;
            && b[..8] == Magic && b[8..12] == Le(Version, 4) && b[12..20] == Le(f.rootOff, 8)
            && b[20..52] == f.stamp.root
            && b[52..60] == Le(f.stamp.nodes, 8) && b[60..68] == Le(f.stamp.keys, 8) && b[68..76] == Le(f.idxOff, 8)
            && b[76..84] == Le(f.idxN, 8) && b[84..116] == f.stamp.user && b[..116] == FooterHead(f) && b[116..] == sum
  {
    TailCut(Le(f.stamp.nodes, 8), Le(f.stamp.keys, 8), Le(f.idxOff, 8), Le(f.idxN, 8), f.stamp.user);
    HeadCut(Magic, Le(Version, 4), Le(f.rootOff, 8), f.stamp.root, FooterRest(f));
    HeadSlices(FooterHead(f), FooterRest(f), sum);
  }

  lemma HeadSlices(h: bytes, tail: bytes, sum: bytes)
    requires |h| == 116 && |tail| == 64 && h[52..] == tail && |sum| == 4
    ensures var b := h + sum;
            && b[..8] == h[..8] && b[8..12] == h[8..12] && b[12..20] == h[12..20] && b[20..52] == h[20..52]
            && b[52..60] == tail[..8] && b[60..68] == tail[8..16] && b[68..76] == tail[16..24]
            && b[76..84] == tail[24..32]
            && b[84..116] == tail[32..] && b[..116] == h && b[116..] == sum
  {
  }

  /** A written footer parses to the fields it was written from. */
  lemma FooterFields(f: Footer, crc: bytes -> Crc)
    requires ValidFooter(f)
    ensures ParseFooter(FooterBytes(f, crc), crc) == Some(f)
  {
    FooterCut(f, Le(crc(FooterHead(f)), 4));
    Pow256Four();
    UnLeLe(Version, 4);
    UnLeLe(f.rootOff, 8);
    UnLeLe(f.stamp.nodes, 8);
    UnLeLe(f.stamp.keys, 8);
    UnLeLe(f.idxOff, 8);
    UnLeLe(f.idxN, 8);
    UnLeLe(crc(FooterHead(f)), 4);
  }

  /** Opening the nodes, the index and their footer gives the file back with its
      fields. */
  lemma OpenWritten(m: bytes, idx: bytes, f: Footer, crc: bytes -> Crc)
    requires ValidFooter(f) && Magic <= m && f.rootOff <= |m| && f.idxOff == |m| && |idx| == f.idxN * EntryLen
    ensures var file := m + idx + FooterBytes(f, crc);
            Open(file, crc) == Some(Archive(file, f.rootOff, f.idxOff, f.idxN, f.stamp))
  {
    var file := m + idx + FooterBytes(f, crc);
    FooterFields(f, crc);
    assert file[|file| - FooterLen..] == FooterBytes(f, crc);
    assert file[..8] == Magic;
  }
}
