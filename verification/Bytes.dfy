/** Byte strings, the lexicographic order Go's bytes.Compare implements, and the
    fixed-width integer encodings the file formats use. */
module Bytes {
  newtype byte = b: int | 0 <= b < 256
  type bytes = seq<byte>

  datatype Option<+T> = None | Some(value: T)

  /** The length of the longest common prefix. */
  function Lcp(a: bytes, b: bytes): (n: nat)
    ensures n <= |a| && n <= |b|
    ensures a[..n] == b[..n]
    ensures n < |a| && n < |b| ==> a[n] != b[n]
  {
    if a == [] || b == [] || a[0] != b[0] then 0 else
    var n := 1 + Lcp(a[1..], b[1..]);
    assert a[..n] == [a[0]] + a[1..][..n - 1];
    assert b[..n] == [b[0]] + b[1..][..n - 1];
    n
  }

  /** bytes.Compare(a, b) < 0 */
  predicate Less(a: bytes, b: bytes) {
    var n := Lcp(a, b);
    n < |b| && (n == |a| || a[n] < b[n])
  }

  /** bytes.Compare(a, b) <= 0 */
  predicate Leq(a: bytes, b: bytes) {
    a == b || Less(a, b)
  }

  lemma LcpIs(a: bytes, b: bytes, n: nat)
    requires n <= |a| && n <= |b| && a[..n] == b[..n]
    requires n < |a| && n < |b| ==> a[n] != b[n]
    ensures Lcp(a, b) == n
  {
    var m := Lcp(a, b);
    assert forall i :: 0 <= i < m ==> a[..m][i] == b[..m][i];
    assert forall i :: 0 <= i < n ==> a[..n][i] == b[..n][i];
  }

  /** a and b agree on n bytes and then a ends or has the smaller byte. */
  lemma LessAt(a: bytes, b: bytes, n: nat)
    requires n <= |a| && n < |b| && a[..n] == b[..n]
    requires n == |a| || a[n] < b[n]
    ensures Less(a, b)
  {
    LcpIs(a, b, n);
  }

  lemma LessIrreflexive(a: bytes)
    ensures !Less(a, a)
  {
    LcpIs(a, a, |a|);
  }

  lemma LessTotal(a: bytes, b: bytes)
    ensures Less(a, b) || a == b || Less(b, a)
  {
    var n := Lcp(a, b);
    if n == |a| && n == |b| {
      assert a == a[..n] == b[..n] == b;
    } else {
      LcpIs(b, a, n);
    }
  }

  lemma LessAsymmetric(a: bytes, b: bytes)
    requires Less(a, b)
    ensures !Less(b, a) && a != b
  {
    LcpIs(b, a, Lcp(a, b));
    LessIrreflexive(a);
  }

  lemma LessTransitive(a: bytes, b: bytes, c: bytes)
    requires Less(a, b) && Less(b, c)
    ensures Less(a, c)
  {
    var n, m := Lcp(a, b), Lcp(b, c);
    var k := if n < m then n else m;
    assert a[..k] == a[..n][..k] == b[..n][..k] == b[..k];
    assert b[..k] == b[..m][..k] == c[..m][..k] == c[..k];
    if n < m {
      assert b[n] == b[..m][n] == c[..m][n] == c[n];
    } else if m < n {
      assert a[m] == a[..n][m] == b[..n][m] == b[m];
    }
    LessAt(a, c, k);
  }

  lemma LeqLessTransitive(a: bytes, b: bytes, c: bytes)
    requires (Leq(a, b) && Less(b, c)) || (Less(a, b) && Leq(b, c))
    ensures Less(a, c)
  {
    if a != b && b != c { LessTransitive(a, b, c); }
  }

  lemma LeqTransitive(a: bytes, b: bytes, c: bytes)
    requires Leq(a, b) && Leq(b, c)
    ensures Leq(a, c)
  {
    if a != b && b != c { LessTransitive(a, b, c); }
  }

  /** Leq is the negation of the reversed Less. */
  lemma LeqNotLess(a: bytes, b: bytes)
    ensures Leq(a, b) <==> !Less(b, a)
  {
    LessTotal(a, b);
    if Less(a, b) { LessAsymmetric(a, b); }
    if a == b { LessIrreflexive(a); }
  }

  /** Cutting a concatenation at its seams. */
  lemma Cut<T>(a: seq<T>, b: seq<T>, c: seq<T>, d: seq<T>)
    ensures var s := a + b + c + d;
            && s[..|a|] == a && s[|a|..|a| + |b|] == b
            && s[|a| + |b|..|a| + |b| + |c|] == c && s[|a| + |b| + |c|..] == d
  {
  }

  lemma SliceSlice<T>(s: seq<T>, a: nat, b: nat, c: nat, d: nat)
    requires a <= b <= |s| && c <= d <= b - a
    ensures s[a..b][c..d] == s[a + c..a + d]
  {
    var x, y := s[a..b][c..d], s[a + c..a + d];
    assert |x| == |y| && forall k :: 0 <= k < |x| ==> x[k] == y[k];
  }

  lemma DropDrop<T>(s: seq<T>, j: nat)
    requires j < |s|
    ensures s[j..] != [] && s[j..][0] == s[j] && s[j..][1..] == s[j + 1..] && s[..j + 1] == s[..j] + [s[j]]
  {
  }

  lemma ConcatAssoc<T>(a: seq<T>, b: seq<T>, c: seq<T>)
    ensures (a + b) + c == a + (b + c)
  {
  }

  lemma TailConcat<T>(a: seq<T>, b: seq<T>)
    requires a != []
    ensures (a + b)[0] == a[0] && (a + b)[1..] == a[1..] + b
  {
  }

  lemma DropConcat<T>(a: seq<T>, b: seq<T>, n: nat)
    requires n <= |a|
    ensures (a + b)[n..] == a[n..] + b
  {
  }

  function Zeros(n: nat): (z: bytes)
    ensures |z| == n && forall i :: 0 <= i < n ==> z[i] == 0
  {
    seq(n, _ => 0)
  }

  /** n bytes of x, least significant first; higher bytes are dropped, as Go's
      integer conversions drop them. */
  function Le(x: nat, n: nat): (b: bytes)
    ensures |b| == n
    decreases n
  {
    if n == 0 then [] else [(x % 256) as byte] + Le(x / 256, n - 1)
  }

  function UnLe(b: bytes): (x: nat) {
    if b == [] then 0 else b[0] as nat + 256 * UnLe(b[1..])
  }

  function Pow256(n: nat): (p: nat)
    ensures p > 0
  {
    if n == 0 then 1 else 256 * Pow256(n - 1)
  }

  lemma Pow256Four()
    ensures Pow256(2) == 0x1_0000 && Pow256(4) == 0x1_0000_0000
  {
    assert Pow256(3) == 0x100_0000;
  }

  lemma {:induction false} UnLeLe(x: nat, n: nat)
    requires x < Pow256(n)
    ensures UnLe(Le(x, n)) == x
    decreases n
  {
    if n > 0 {
      UnLeLe(x / 256, n - 1);
      assert Le(x, n)[1..] == Le(x / 256, n - 1);
    }
  }
}
