/** rpc/tokens.go, pagedLogs: keyset paging over the posting walk, and what following
    NextCursor until More is false visits. */
module Paging {
  import opened Bytes

  /** a comes before b in a walk of this direction. */
  predicate Before(a: nat, b: nat, desc: bool) { if desc then a > b else a < b }

  ghost predicate Strict(s: seq<nat>, desc: bool) {
    forall i, j {:trigger s[i], s[j]} :: 0 <= i < j < |s| ==> Before(s[i], s[j], desc)
  }

  /** Posting entries in walk order; a transaction may have several. */
  ghost predicate Ordered(s: seq<nat>, desc: bool) {
    forall i, j {:trigger s[i], s[j]} :: 0 <= i < j < |s| ==> s[i] == s[j] || Before(s[i], s[j], desc)
  }

  /** The transactions of a walk whose logs the filter keeps, each once. */
  function Hits(ents: seq<nat>, ok: nat -> bool): seq<nat> {
    if ents == [] then [] else
    var rest, x := ents[..|ents| - 1], ents[|ents| - 1];
    if ok(x) && x !in rest then Hits(rest, ok) + [x] else Hits(rest, ok)
  }

  lemma {:induction false} HitsAre(ents: seq<nat>, ok: nat -> bool, desc: bool)
    requires Ordered(ents, desc)
    ensures Strict(Hits(ents, ok), desc)
    ensures forall x :: x in Hits(ents, ok) <==> x in ents && ok(x)
  {
    if ents != [] {
      var n := |ents| - 1;
      var rest, x := ents[..n], ents[n];
      HitsAre(rest, ok, desc);
      assert ents == rest + [x];
      var h := Hits(rest, ok);
      forall i | 0 <= i < |h| && x !in rest ensures Before(h[i], x, desc) {
        assert h[i] in rest;
        var k :| 0 <= k < n && rest[k] == h[i];
        assert ents[k] == h[i] && ents[n] == x;
      }
    }
  }

  /** A strictly ordered list is its set. */
  lemma {:induction false} SameList(a: seq<nat>, b: seq<nat>, desc: bool)
    requires Strict(a, desc) && Strict(b, desc) && forall x :: x in a <==> x in b
    ensures a == b
    decreases |a|
  {
    assert a != [] ==> a[0] in b;
    assert b != [] ==> b[0] in a;
    if a != [] {
      FirstSame(a, b, desc);
      assert a == [a[0]] + a[1..] && b == [b[0]] + b[1..];
      assert a[0] !in a[1..] && b[0] !in b[1..];
      assert forall x :: x in a[1..] <==> x in a && x != a[0];
      assert forall x :: x in b[1..] <==> x in b && x != b[0];
      SameList(a[1..], b[1..], desc);
    }
  }

  lemma FirstSame(a: seq<nat>, b: seq<nat>, desc: bool)
    requires Strict(a, desc) && Strict(b, desc) && a != [] && b != [] && forall x :: x in a <==> x in b
    ensures a[0] == b[0]
  {
    assert a[0] in a && b[0] in b;
    var i :| 0 <= i < |b| && b[i] == a[0];
    var j :| 0 <= j < |a| && a[j] == b[0];
  }

  // ---------------------------------------------------------------- one page

  datatype Page = Page(txs: seq<nat>, more: bool, next: nat)

  /** The visitor: the first limit hits, and whether there is another. */
  method Visit(ents: seq<nat>, ok: nat -> bool, limit: nat, ghost desc: bool) returns (txs: seq<nat>, more: bool)
    requires Ordered(ents, desc) && limit > 0
    ensures var h := Hits(ents, ok); more == (|h| > limit) && txs == if more then h[..limit] else h
  {
    txs, more := [], false;
    var seen, last := false, 0;
    for i := 0 to |ents|
      invariant !more && txs == Hits(ents[..i], ok) && |txs| <= limit
      invariant seen == (i > 0) && (seen ==> last == ents[i - 1])
    {
      var x := ents[i];
      DropDrop(ents, i);
      assert ents[..i + 1][..i] == ents[..i];
      SeenBefore(ents, i, desc);
      if !(seen && x == last) {
        seen, last := true, x;
        if ok(x) {
          if |txs| == limit {
            HitsGrow(ents, i + 1, ok);
            return txs, true;
          }
          txs := txs + [x];
        }
      }
    }
    assert ents[..|ents|] == ents;
  }

  lemma Squeezed(ents: seq<nat>, k: nat, i: nat, desc: bool)
    requires Ordered(ents, desc) && k < i - 1 && i < |ents| && ents[k] == ents[i]
    ensures ents[i - 1] == ents[i]
  {
  }

  /** Entries of one transaction are adjacent. */
  lemma SeenBefore(ents: seq<nat>, i: nat, desc: bool)
    requires Ordered(ents, desc) && i < |ents|
    ensures ents[i] in ents[..i] <==> i > 0 && ents[i - 1] == ents[i]
  {
    if ents[i] in ents[..i] {
      var k :| 0 <= k < i && ents[..i][k] == ents[i];
      assert ents[k] == ents[i];
      if k < i - 1 { Squeezed(ents, k, i, desc); }
    }
    if i > 0 && ents[i - 1] == ents[i] { assert ents[..i][i - 1] == ents[i]; }
  }

  lemma {:induction false} HitsGrow(ents: seq<nat>, i: nat, ok: nat -> bool)
    requires i <= |ents|
    ensures Hits(ents[..i], ok) <= Hits(ents, ok)
    decreases |ents|
  {
    if i < |ents| {
      HitsGrow(ents[..|ents| - 1], i, ok);
      assert ents[..|ents| - 1][..i] == ents[..i];
    } else {
      assert ents[..i] == ents;
    }
  }

  /** The entries the walk yields: those of [lo, hi]. */
  function Within(ents: seq<nat>, lo: nat, hi: nat): seq<nat> {
    if ents == [] then [] else
    var rest, x := Within(ents[..|ents| - 1], lo, hi), ents[|ents| - 1];
    if lo <= x <= hi then rest + [x] else rest
  }

  lemma {:induction false} WithinIs(ents: seq<nat>, lo: nat, hi: nat, desc: bool)
    requires Ordered(ents, desc)
    ensures Ordered(Within(ents, lo, hi), desc)
    ensures forall x :: x in Within(ents, lo, hi) <==> x in ents && lo <= x <= hi
  {
    if ents != [] {
      var n := |ents| - 1;
      WithinIs(ents[..n], lo, hi, desc);
      assert ents == ents[..n] + [ents[n]];
      var w := Within(ents[..n], lo, hi);
      forall i | 0 <= i < |w| ensures w[i] == ents[n] || Before(w[i], ents[n], desc) {
        assert w[i] in ents[..n];
        var k :| 0 <= k < n && ents[..n][k] == w[i];
        assert ents[k] == w[i];
      }
    }
  }

  /** The hits of a range are the hits that lie in it. */
  lemma HitsWithin(ents: seq<nat>, ok: nat -> bool, lo: nat, hi: nat, desc: bool, i: nat)
    requires Ordered(ents, desc) && i <= |Hits(ents, ok)|
    requires forall k {:trigger Hits(ents, ok)[k]} :: 0 <= k < |Hits(ents, ok)| ==>
               (lo <= Hits(ents, ok)[k] <= hi <==> i <= k)
    ensures Hits(Within(ents, lo, hi), ok) == Hits(ents, ok)[i..]
  {
    var h := Hits(ents, ok);
    WithinIs(ents, lo, hi, desc);
    HitsAre(ents, ok, desc);
    HitsAre(Within(ents, lo, hi), ok, desc);
    forall x ensures x in Hits(Within(ents, lo, hi), ok) <==> x in h[i..] {
      if x in h && lo <= x <= hi {
        var k :| 0 <= k < |h| && h[k] == x;
        assert h[i..][k - i] == x;
      }
      if x in h[i..] {
        var k :| 0 <= k < |h[i..]| && h[i..][k] == x;
        assert h[i + k] == x;
      }
    }
    SameList(Hits(Within(ents, lo, hi), ok), h[i..], desc);
  }

  /** pagedLogs over the entries in walk order, at a fixed head. */
  method PagedLogs(ents: seq<nat>, ok: nat -> bool, head: nat, cursor: nat, limit: nat, desc: bool) returns (p: Page)
    requires Ordered(ents, desc) && limit > 0
    ensures var (lo, hi) := Bounds(head, cursor, desc);
            var h := Hits(Within(ents, lo, hi), ok);
            && p.more == (|h| > limit) && p.txs == (if p.more then h[..limit] else h)
            && (p.more ==> p.next == Next(p.txs[limit - 1], desc))
  {
    var (lo, hi) := Bounds(head, cursor, desc);
    WithinIs(ents, lo, hi, desc);
    HitsAre(Within(ents, lo, hi), ok, desc);
    var txs, more := Visit(Within(ents, lo, hi), ok, limit, desc);
    var next := 0;
    if more { next := Next(txs[|txs| - 1], desc); }
    p := Page(txs, more, next);
  }

  /** A zero cursor is the start in both directions. */
  function Bounds(head: nat, cursor: nat, desc: bool): (nat, nat) {
    if desc then (0, if 0 < cursor < head then cursor else head) else (cursor, head)
  }

  /** cut - 1 or cut + 1 in the source; the page is not cut at transaction 0 when
      descending, because nothing could follow it. */
  function Next(cut: nat, desc: bool): nat {
    if desc then (if cut > 0 then cut - 1 else 0) else cut + 1
  }

  // ------------------------------------------------------------ following it

  /** The walk from this cursor starts at hit i. */
  ghost predicate StartsAt(h: seq<nat>, head: nat, cursor: nat, desc: bool, i: nat) {
    var (lo, hi) := Bounds(head, cursor, desc);
    i <= |h| && forall k {:trigger h[k]} :: 0 <= k < |h| ==> h[k] <= head && (lo <= h[k] <= hi <==> i <= k)
  }

  /** A page from there: the next hits, and exactly whether there are more. */
  method PageAt(ents: seq<nat>, ok: nat -> bool, head: nat, cursor: nat, limit: nat, desc: bool, ghost i: nat)
    returns (p: Page)
    requires Ordered(ents, desc) && limit > 0 && StartsAt(Hits(ents, ok), head, cursor, desc, i)
    ensures var h := Hits(ents, ok);
            && |p.txs| <= limit && i + |p.txs| <= |h| && p.txs == h[i..i + |p.txs|] && (!p.more ==> i + |p.txs| == |h|)
            && (p.more ==> |p.txs| == limit && i + limit < |h| && p.next == Next(h[i + limit - 1], desc))
  {
    var (lo, hi) := Bounds(head, cursor, desc);
    HitsWithin(ents, ok, lo, hi, desc, i);
    p := PagedLogs(ents, ok, head, cursor, limit, desc);
    ghost var h := Hits(ents, ok);
    assert h[i..][..|p.txs|] == h[i..i + |p.txs|];
  }

  /** Going on after the cut starts at the hit after it, except at transaction 1
      descending. */
  lemma NextStarts(h: seq<nat>, head: nat, desc: bool, j: nat)
    requires Strict(h, desc) && 0 < j < |h| && (forall k {:trigger h[k]} :: 0 <= k < |h| ==> h[k] <= head)
    requires desc ==> h[j - 1] > 1
    ensures StartsAt(h, head, Next(h[j - 1], desc), desc, j)
  {
    forall k {:trigger h[k]} | 0 <= k < |h|
      ensures h[k] <= head
      ensures (Bounds(head, Next(h[j - 1], desc), desc).0 <= h[k] <= Bounds(head, Next(h[j - 1], desc), desc).1 <==>
                j <= k)
    {
      if k < j - 1 { assert Before(h[k], h[j - 1], desc); }
      if k > j - 1 { assert Before(h[j - 1], h[k], desc); }
    }
  }

  lemma StartIsZero(ents: seq<nat>, ok: nat -> bool, head: nat, desc: bool)
    requires Ordered(ents, desc) && forall i :: 0 <= i < |ents| ==> ents[i] <= head
    ensures Strict(Hits(ents, ok), desc) && StartsAt(Hits(ents, ok), head, 0, desc, 0)
  {
    HitsAre(ents, ok, desc);
    var h := Hits(ents, ok);
    forall k {:trigger h[k]} | 0 <= k < |h| ensures h[k] <= head { assert h[k] in ents; }
  }

  /** Ascending, page after page visits every hit once, in order, and ends. */
  method FollowUp(ents: seq<nat>, ok: nat -> bool, head: nat, limit: nat) returns (all: seq<nat>)
    requires Ordered(ents, false) && limit > 0 && forall i :: 0 <= i < |ents| ==> ents[i] <= head
    ensures all == Hits(ents, ok)
  {
    ghost var h := Hits(ents, ok);
    StartIsZero(ents, ok, head, false);
    all := [];
    var cursor := 0;
    while true
      invariant |all| <= |h| && all == h[..|all|] && StartsAt(h, head, cursor, false, |all|)
      decreases |h| - |all|
    {
      var p := PageAt(ents, ok, head, cursor, limit, false, |all|);
      all := all + p.txs;
      if !p.more { return; }
      NextStarts(h, head, false, |all|);
      cursor := p.next;
    }
  }

  predicate Divides(limit: nat, n: nat)
    requires limit > 0
  {
    n == 0 || (n >= limit && Divides(limit, n - limit))
  }

  /** The one page descending cannot get past: it is cut at transaction 1 while
      transaction 0 still follows, and the next cursor is the start again. */
  predicate Stuck(h: seq<nat>, limit: nat)
    requires limit > 0
  {
    |h| >= 2 && h[|h| - 1] == 0 && h[|h| - 2] == 1 && Divides(limit, |h| - 1)
  }

  /** Descending, the same, unless the walk gets stuck. */
  method FollowDown(ents: seq<nat>, ok: nat -> bool, head: nat, limit: nat) returns (all: seq<nat>)
    requires Ordered(ents, true) && limit > 0 && forall i :: 0 <= i < |ents| ==> ents[i] <= head
    requires !Stuck(Hits(ents, ok), limit)
    ensures all == Hits(ents, ok)
  {
    ghost var h := Hits(ents, ok);
    StartIsZero(ents, ok, head, true);
    all := [];
    var cursor := 0;
    while true
      invariant |all| <= |h| && all == h[..|all|] && StartsAt(h, head, cursor, true, |all|) && Divides(limit, |all|)
      decreases |h| - |all|
    {
      var p := PageAt(ents, ok, head, cursor, limit, true, |all|);
      all := all + p.txs;
      if !p.more { return; }
      NotStuck(h, limit, |all|);
      NextStarts(h, head, true, |all|);
      cursor := p.next;
    }
  }

  lemma NotStuck(h: seq<nat>, limit: nat, n: nat)
    requires Strict(h, true) && limit > 0 && 0 < n < |h| && Divides(limit, n) && !Stuck(h, limit)
    ensures h[n - 1] > 1
  {
    assert h[n - 1] > h[n];
    assert n + 1 < |h| ==> h[n] > h[n + 1];
  }

  lemma {:induction false} NextMultiple(limit: nat, a: nat, b: nat)
    requires limit > 0 && Divides(limit, a) && Divides(limit, b) && a < b
    ensures a + limit <= b && Divides(limit, a + limit)
    decreases a
  {
    if a > 0 { NextMultiple(limit, a - limit, b - limit); }
  }

  /** One page of a stuck walk: there is always more, transaction 0 is not on it, and
      the page cut at transaction 1 hands back the cursor 0, which is the start. */
  method StuckStartsOver(ents: seq<nat>, ok: nat -> bool, head: nat, limit: nat, cursor: nat, ghost i: nat)
    returns (p: Page)
    requires Ordered(ents, true) && limit > 0 && Stuck(Hits(ents, ok), limit) && Divides(limit, i)
    requires i < |Hits(ents, ok)| - 1 && StartsAt(Hits(ents, ok), head, 0, true, 0)
    requires StartsAt(Hits(ents, ok), head, cursor, true, i)
    ensures p.more && 0 !in p.txs && i + limit < |Hits(ents, ok)| && Divides(limit, i + limit)
    ensures var n := |Hits(ents, ok)| - 1;
            if i + limit == n then p.next == 0
            else i + limit < n && StartsAt(Hits(ents, ok), head, p.next, true, i + limit)
  {
    ghost var h := Hits(ents, ok);
    HitsAre(ents, ok, true);
    NextMultiple(limit, i, |h| - 1);
    p := PageAt(ents, ok, head, cursor, limit, true, i);
    forall k | 0 <= k < |p.txs| ensures p.txs[k] != 0 { assert p.txs[k] == h[i + k] && h[i + k] > h[|h| - 1]; }
    if i + limit < |h| - 1 {
      assert h[i + limit - 1] > h[|h| - 2];
      NextStarts(h, head, true, i + limit);
    }
  }

  /** Descending when it is stuck: however many pages are followed, there is more to
      come, and transaction 0, which matches, was not visited. */
  method FollowStuck(ents: seq<nat>, ok: nat -> bool, head: nat, limit: nat, pages: nat)
    returns (seen: seq<nat>, more: bool)
    requires Ordered(ents, true) && limit > 0 && forall i :: 0 <= i < |ents| ==> ents[i] <= head
    requires Stuck(Hits(ents, ok), limit)
    ensures more && 0 in Hits(ents, ok) && 0 !in seen
  {
    ghost var h := Hits(ents, ok);
    StartIsZero(ents, ok, head, true);
    seen, more := [], true;
    var cursor := 0;
    ghost var i := 0;
    for page := 0 to pages
      invariant more && 0 !in seen && i < |h| - 1 && Divides(limit, i) && StartsAt(h, head, cursor, true, i)
    {
      var p := StuckStartsOver(ents, ok, head, limit, cursor, i);
      seen, more, cursor := seen + p.txs, p.more, p.next;
      i := if i + limit == |h| - 1 then 0 else i + limit;
    }
  }
}
