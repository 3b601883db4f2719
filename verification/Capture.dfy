/** exec/capture.go: the read cache and the batch tombstones in front of a trie whose
    pending overlay forgets a destruct once the account is written again. */
module Capture {
  import opened Bytes
  import opened Totals

  type Addr(==, !new)
  type Slot(==, !new)
  type Acct(==, !new)

  // --------------------------------------------------------------- the states

  /** Accounts and their slots; an absent slot reads empty. */
  datatype Ledger = Ledger(accts: map<Addr, Acct>, slots: map<Addr, map<Slot, bytes>>)
  {
    function Account(a: Addr): Option<Acct> { if a in accts then Some(accts[a]) else None }

    function Read(a: Addr, s: Slot): bytes { ReadIn(slots, a, s) }

    function PutAccount(a: Addr, x: Acct): Ledger { Ledger(accts[a := x], slots) }

    /** Deleting an account clears all its slots. */
    function Drop(a: Addr): Ledger { Ledger(accts - {a}, slots - {a}) }

    function PutSlot(a: Addr, s: Slot, v: bytes): Ledger { Ledger(accts, Written(slots, a, s, v)) }
  }

  function ReadIn(slots: map<Addr, map<Slot, bytes>>, a: Addr, s: Slot): bytes {
    if a in slots && s in slots[a] then slots[a][s] else []
  }

  function Written(slots: map<Addr, map<Slot, bytes>>, a: Addr, s: Slot, v: bytes): map<Addr, map<Slot, bytes>> {
    slots[a := (if a in slots then slots[a] else map[])[s := v]]
  }

  /** What the inner trie queues for its next proposal. */
  datatype Op = DropAll(a: Addr) | SetAccount(a: Addr, x: Acct) | SetStorage(a: Addr, s: Slot, v: bytes)
  {
    function On(l: Ledger): Ledger {
      match this
      case DropAll(a) => l.Drop(a)
      case SetAccount(a, x) => l.PutAccount(a, x)
      case SetStorage(a, s, v) => l.PutSlot(a, s, v)
    }
  }

  function Replay(l: Ledger, ops: seq<Op>): Ledger {
    if ops == [] then l else ops[|ops| - 1].On(Replay(l, ops[..|ops| - 1]))
  }

  lemma ReplayNext(l: Ledger, ops: seq<Op>, op: Op)
    ensures Replay(l, ops + [op]) == op.On(Replay(l, ops))
  {
    assert (ops + [op])[..|ops|] == ops;
  }

  /** The inner trie: a committed revision, the queued operations, and the keys
      written since as reads see them. Storage reads see an account's tombstone only
      until the account is written again. */
  datatype Inner = Inner(base: Ledger, ops: seq<Op>, accts: map<Addr, Option<Acct>>, slots: map<Addr, map<Slot, bytes>>)
  {
    function Account(a: Addr): Option<Acct> { if a in accts then accts[a] else base.Account(a) }

    function Read(a: Addr, s: Slot): bytes {
      if a in accts && accts[a].None? then [] else Overlaid(a, s)
    }

    function Overlaid(a: Addr, s: Slot): bytes {
      if a in slots && s in slots[a] then slots[a][s] else base.Read(a, s)
    }

    function PutAccount(a: Addr, x: Acct): Inner {
      this.(ops := ops + [SetAccount(a, x)], accts := accts[a := Some(x)])
    }

    function Drop(a: Addr): Inner { this.(ops := ops + [DropAll(a)], accts := accts[a := None]) }

    function PutSlot(a: Addr, s: Slot, v: bytes): Inner {
      this.(ops := ops + [SetStorage(a, s, v)], slots := Written(slots, a, s, v))
    }

    /** The proposal: every queued operation in order, as the next revision. */
    function Commit(): Inner { Open(Replay(base, ops)) }
  }

  function Open(base: Ledger): Inner { Inner(base, [], map[], map[]) }

  /** The inner trie agrees with the reference on every account and, for accounts not
      destructed since the revision, on every slot. */
  ghost predicate Follows(t: Inner, l: Ledger, dead: set<Addr>) {
    && Replay(t.base, t.ops) == l
    && (forall a {:trigger l.Account(a)} :: t.Account(a) == l.Account(a))
    && (forall a {:trigger a in t.accts} :: a in t.accts && a !in dead ==> t.accts[a].Some?)
    && (forall a, s {:trigger l.Read(a, s)} :: a !in dead ==> t.Overlaid(a, s) == l.Read(a, s))
  }

  /** What batchDeleted holds in a batch: for each account destructed since the
      revision, exactly the slots written since. */
  ghost predicate Repairs(deleted: map<Addr, map<Slot, bytes>>, l: Ledger, dead: set<Addr>) {
    && deleted.Keys == dead
    && (forall a, s {:trigger l.Read(a, s)} :: a in dead ==> ReadIn(deleted, a, s) == l.Read(a, s))
  }

  /** The trie's overlay has every slot written since a destruct, and for a destructed
      account either the tombstone or what was written over it. */
  ghost predicate Shadows(t: Inner, since: map<Addr, map<Slot, bytes>>) {
    && (forall a {:trigger a in since} :: a in since ==> a in t.accts)
    && (forall a, s {:trigger Shadowed(t, since, a, s)} :: a in since && s in since[a] ==> Shadowed(t, since, a, s))
  }

  predicate Shadowed(t: Inner, since: map<Addr, map<Slot, bytes>>, a: Addr, s: Slot)
    requires a in since && s in since[a]
  {
    a in t.slots && s in t.slots[a] && t.slots[a][s] == since[a][s]
  }

  /** When the trie itself reads a slot of a destructed account right: while the
      tombstone stands, when nothing was written since; once the account is back, when
      the slot was written since, or had no value before. */
  predicate Legible(t: Inner, since: map<Addr, map<Slot, bytes>>, a: Addr, s: Slot) {
    && a in t.accts && a in since
    && if t.accts[a].None? then ReadIn(since, a, s) == [] else s in since[a] || t.Overlaid(a, s) == []
  }

  /** Outside a batch the trie answers for a destructed account exactly when the slot
      is legible. */
  lemma DestructedRead(t: Inner, since: map<Addr, map<Slot, bytes>>, l: Ledger, dead: set<Addr>, a: Addr, s: Slot)
    requires Repairs(since, l, dead) && Shadows(t, since) && a in dead
    ensures t.Read(a, s) == l.Read(a, s) <==> Legible(t, since, a, s)
  {
    assert ReadIn(since, a, s) == l.Read(a, s);
    if s in since[a] { assert Shadowed(t, since, a, s); }
  }

  lemma ShadowsDrop(t: Inner, since: map<Addr, map<Slot, bytes>>, a: Addr)
    requires Shadows(t, since)
    ensures Shadows(t.Drop(a), since[a := map[]])
  {
    var t', since' := t.Drop(a), since[a := map[]];
    forall b, z {:trigger Shadowed(t', since', b, z)} | b in since' && z in since'[b]
      ensures Shadowed(t', since', b, z)
    {
      assert Shadowed(t, since, b, z);
    }
  }

  lemma ShadowsAccount(t: Inner, since: map<Addr, map<Slot, bytes>>, a: Addr, x: Acct)
    requires Shadows(t, since)
    ensures Shadows(t.PutAccount(a, x), since)
  {
    var t' := t.PutAccount(a, x);
    forall b, z {:trigger Shadowed(t', since, b, z)} | b in since && z in since[b] ensures Shadowed(t', since, b, z) {
      assert Shadowed(t, since, b, z);
    }
  }

  lemma ShadowsSlot(t: Inner, since: map<Addr, map<Slot, bytes>>, a: Addr, s: Slot, v: bytes)
    requires Shadows(t, since)
    ensures Shadows(t.PutSlot(a, s, v), Since(since, a, s, v))
  {
    var t', since' := t.PutSlot(a, s, v), Since(since, a, s, v);
    forall b, z {:trigger Shadowed(t', since', b, z)} | b in since' && z in since'[b]
      ensures Shadowed(t', since', b, z)
    {
      if b != a || z != s { assert Shadowed(t, since, b, z); }
    }
  }

  /** A slot write to an account destructed since the revision is remembered. */
  function Since(since: map<Addr, map<Slot, bytes>>, a: Addr, s: Slot, v: bytes): map<Addr, map<Slot, bytes>> {
    if a in since then since[a := since[a][s := v]] else since
  }

  lemma FollowsDrop(t: Inner, l: Ledger, dead: set<Addr>, a: Addr)
    requires Follows(t, l, dead)
    ensures Follows(t.Drop(a), l.Drop(a), dead + {a})
  {
    ReplayNext(t.base, t.ops, DropAll(a));
    forall b, s {:trigger l.Drop(a).Read(b, s)} | b !in dead + {a}
      ensures t.Drop(a).Overlaid(b, s) == l.Drop(a).Read(b, s)
    {
      assert t.Overlaid(b, s) == l.Read(b, s);
    }
    forall b {:trigger l.Drop(a).Account(b)} ensures t.Drop(a).Account(b) == l.Drop(a).Account(b) {
      assert t.Account(b) == l.Account(b);
    }
  }

  lemma FollowsAccount(t: Inner, l: Ledger, dead: set<Addr>, a: Addr, x: Acct)
    requires Follows(t, l, dead)
    ensures Follows(t.PutAccount(a, x), l.PutAccount(a, x), dead)
  {
    ReplayNext(t.base, t.ops, SetAccount(a, x));
    forall b, s {:trigger l.PutAccount(a, x).Read(b, s)} | b !in dead
      ensures t.PutAccount(a, x).Overlaid(b, s) == l.PutAccount(a, x).Read(b, s)
    {
      assert t.Overlaid(b, s) == l.Read(b, s);
    }
    forall b {:trigger l.PutAccount(a, x).Account(b)}
      ensures t.PutAccount(a, x).Account(b) == l.PutAccount(a, x).Account(b)
    {
      assert t.Account(b) == l.Account(b);
    }
  }

  lemma FollowsSlot(t: Inner, l: Ledger, dead: set<Addr>, a: Addr, s: Slot, v: bytes)
    requires Follows(t, l, dead)
    ensures Follows(t.PutSlot(a, s, v), l.PutSlot(a, s, v), dead)
  {
    ReplayNext(t.base, t.ops, SetStorage(a, s, v));
    forall b, z {:trigger l.PutSlot(a, s, v).Read(b, z)} | b !in dead
      ensures t.PutSlot(a, s, v).Overlaid(b, z) == l.PutSlot(a, s, v).Read(b, z)
    {
      assert t.Overlaid(b, z) == l.Read(b, z);
    }
    forall b {:trigger l.PutSlot(a, s, v).Account(b)}
      ensures t.PutSlot(a, s, v).Account(b) == l.PutSlot(a, s, v).Account(b)
    {
      assert t.Account(b) == l.Account(b);
    }
  }

  /** A freshly opened revision with nothing pending. */
  lemma FollowsOpen(l: Ledger)
    ensures Follows(Open(l), l, {})
  {
  }

  lemma RepairsDrop(d: map<Addr, map<Slot, bytes>>, l: Ledger, dead: set<Addr>, a: Addr)
    requires Repairs(d, l, dead)
    ensures Repairs(d[a := map[]], l.Drop(a), dead + {a})
  {
    forall b, s {:trigger l.Drop(a).Read(b, s)} | b in dead + {a}
      ensures ReadIn(d[a := map[]], b, s) == l.Drop(a).Read(b, s)
    {
      assert b != a ==> ReadIn(d, b, s) == l.Read(b, s);
    }
  }

  lemma RepairsAccount(d: map<Addr, map<Slot, bytes>>, l: Ledger, dead: set<Addr>, a: Addr, x: Acct)
    requires Repairs(d, l, dead)
    ensures Repairs(d, l.PutAccount(a, x), dead)
  {
    forall b, s {:trigger l.PutAccount(a, x).Read(b, s)} | b in dead
      ensures ReadIn(d, b, s) == l.PutAccount(a, x).Read(b, s)
    {
      assert ReadIn(d, b, s) == l.Read(b, s);
    }
  }

  lemma RepairsSlot(d: map<Addr, map<Slot, bytes>>, l: Ledger, dead: set<Addr>, a: Addr, s: Slot, v: bytes)
    requires Repairs(d, l, dead)
    ensures Repairs(Since(d, a, s, v), l.PutSlot(a, s, v), dead)
  {
    var d' := Since(d, a, s, v);
    forall b, z {:trigger l.PutSlot(a, s, v).Read(b, z)} | b in dead
      ensures ReadIn(d', b, z) == l.PutSlot(a, s, v).Read(b, z)
    {
      assert ReadIn(d, b, z) == l.Read(b, z);
    }
  }

  // ---------------------------------------------------------------- the cache

  const EntryCost: nat := 256
  const SlotCost: nat := 104

  /** One account's cached state; known with no account is known-nonexistent. */
  datatype Entry = Entry(acct: Option<Acct>, known: bool, storage: map<Slot, bytes>, cost: nat)

  ghost function SlotCosts(storage: map<Slot, bytes>): map<Slot, nat> {
    map s | s in storage :: SlotCost + |storage[s]|
  }

  ghost function Costs(cache: map<Addr, Entry>): map<Addr, nat> { map a | a in cache :: cache[a].cost }

  ghost predicate Costed(e: Entry) { e.cost == EntryCost + Total(SlotCosts(e.storage)) }

  ghost predicate Agrees(e: Entry, a: Addr, l: Ledger) {
    && (e.known ==> e.acct == l.Account(a))
    && (forall s {:trigger s in e.storage} :: s in e.storage ==> e.storage[s] == l.Read(a, s))
  }

  /** Every entry agrees with the reference and the size is the sum of the costs. */
  ghost predicate Cached(cache: map<Addr, Entry>, size: nat, l: Ledger) {
    && (forall a {:trigger a in cache} :: a in cache ==> Agrees(cache[a], a, l) && Costed(cache[a]))
    && size == Total(Costs(cache))
  }

  lemma CostsWithout(cache: map<Addr, Entry>, a: Addr)
    requires a in cache
    ensures Total(Costs(cache)) == cache[a].cost + Total(Costs(cache - {a}))
  {
    TotalWithout(Costs(cache), a);
    assert Costs(cache) - {a} == Costs(cache - {a});
  }

  lemma CostsPut(cache: map<Addr, Entry>, a: Addr, e: Entry)
    ensures Total(Costs(cache[a := e])) ==
            e.cost + (if a in cache then Total(Costs(cache)) - cache[a].cost else Total(Costs(cache)))
  {
    TotalPut(Costs(cache), a, e.cost);
    assert Costs(cache)[a := e.cost] == Costs(cache[a := e]);
  }

  lemma Uncache(cache: map<Addr, Entry>, size: nat, l: Ledger, a: Addr)
    requires Cached(cache, size, l) && a in cache
    ensures cache[a].cost <= size && Cached(cache - {a}, size - cache[a].cost, l)
  {
    CostsWithout(cache, a);
  }

  lemma Recache(cache: map<Addr, Entry>, size: nat, l: Ledger, a: Addr, e: Entry)
    requires Cached(cache, size, l) && Agrees(e, a, l) && Costed(e)
    ensures a in cache ==> cache[a].cost <= size
    ensures Cached(cache[a := e], e.cost + (if a in cache then size - cache[a].cost else size), l)
  {
    CostsPut(cache, a, e);
    if a in cache { CostsWithout(cache, a); }
  }

  /** Evicting whole accounts, any of them, until the size is down to the target. */
  method Evict(cache: map<Addr, Entry>, size: nat, target: nat, ghost l: Ledger)
    returns (cache': map<Addr, Entry>, size': nat)
    requires Cached(cache, size, l)
    ensures Cached(cache', size', l) && cache'.Keys <= cache.Keys && size' <= target
  {
    cache', size' := cache, size;
    while cache' != map[]
      invariant Cached(cache', size', l) && cache'.Keys <= cache.Keys
      decreases cache'.Keys
    {
      var a :| a in cache';
      Uncache(cache', size', l, a);
      cache', size' := cache' - {a}, size' - cache'[a].cost;
      if size' <= target { return; }
    }
    assert Costs(map[]) == map[];
  }

  /** entry: the account's entry, a fresh one after any evictions if it has none. */
  method EntryFor(cache: map<Addr, Entry>, size: nat, cap: nat, a: Addr, ghost l: Ledger)
    returns (cache': map<Addr, Entry>, size': nat)
    requires Cached(cache, size, l)
    ensures Cached(cache', size', l) && a in cache'
    ensures a in cache ==> cache' == cache && size' == size
    ensures a !in cache ==> size' <= cap + EntryCost && (size <= cap ==> cache' == cache[a := cache'[a]])
  {
    cache', size' := cache, size;
    if a in cache { return; }
    if size > cap { cache', size' := Evict(cache, size, cap - cap / 8, l); }
    FreshEntry(a, l);
    Recache(cache', size', l, a, Entry(None, false, map[], EntryCost));
    cache', size' := cache'[a := Entry(None, false, map[], EntryCost)], size' + EntryCost;
  }

  lemma FreshEntry(a: Addr, l: Ledger)
    ensures Agrees(Entry(None, false, map[], EntryCost), a, l) && Costed(Entry(None, false, map[], EntryCost))
  {
    assert SlotCosts(map[]) == map[];
  }

  /** l' may differ from l only in account a. */
  ghost predicate ElsewhereSame(l: Ledger, l': Ledger, a: Addr) {
    && (forall b {:trigger l'.Account(b)} :: b != a ==> l'.Account(b) == l.Account(b))
    && (forall b, s {:trigger l'.Read(b, s)} :: b != a ==> l'.Read(b, s) == l.Read(b, s))
  }

  /** Replacing the entry of the one account that changed. */
  lemma Replace(cache: map<Addr, Entry>, size: nat, l: Ledger, l': Ledger, a: Addr, e: Entry)
    requires Cached(cache, size, l) && a in cache && ElsewhereSame(l, l', a) && Agrees(e, a, l') && Costed(e)
    ensures cache[a].cost <= size && Cached(cache[a := e], size - cache[a].cost + e.cost, l')
  {
    CostsPut(cache, a, e);
    CostsWithout(cache, a);
    var cache' := cache[a := e];
    forall b {:trigger b in cache'} | b in cache' ensures Agrees(cache'[b], b, l') && Costed(cache'[b]) {
      if b != a { AgreesStill(cache[b], b, l, l'); }
    }
  }

  lemma AgreesStill(e: Entry, b: Addr, l: Ledger, l': Ledger)
    requires Agrees(e, b, l) && l'.Account(b) == l.Account(b)
    requires forall s {:trigger l'.Read(b, s)} :: l'.Read(b, s) == l.Read(b, s)
    ensures Agrees(e, b, l')
  {
  }

  lemma Remove(cache: map<Addr, Entry>, size: nat, l: Ledger, l': Ledger, a: Addr)
    requires Cached(cache, size, l) && ElsewhereSame(l, l', a)
    ensures a in cache ==> cache[a].cost <= size
    ensures Cached(cache - {a}, if a in cache then size - cache[a].cost else size, l')
  {
    var cache' := cache - {a};
    if a in cache { CostsWithout(cache, a); } else { assert cache' == cache; }
    forall b {:trigger b in cache'} | b in cache' ensures Agrees(cache'[b], b, l') && Costed(cache'[b]) {
      AgreesStill(cache[b], b, l, l');
    }
  }

  /** setSlot: the old value's cost goes, the new one's comes. */
  method SetSlot(cache: map<Addr, Entry>, size: nat, a: Addr, s: Slot, v: bytes, ghost l: Ledger, ghost l': Ledger)
    returns (cache': map<Addr, Entry>, size': nat)
    requires Cached(cache, size, l) && a in cache && ElsewhereSame(l, l', a) && v == l'.Read(a, s)
    requires l'.Account(a) == l.Account(a)
    requires forall z {:trigger l'.Read(a, z)} :: z != s ==> l'.Read(a, z) == l.Read(a, z)
    ensures Cached(cache', size', l') && a in cache' && cache' == cache[a := cache'[a]]
    ensures cache'[a].storage == cache[a].storage[s := v] && cache'[a].acct == cache[a].acct
    ensures cache'[a].known == cache[a].known
  {
    var e := cache[a];
    SlotCostsPut(e.storage, s, v);
    var cost := e.cost + SlotCost + |v| - (if s in e.storage then SlotCost + |e.storage[s]| else 0);
    var e' := e.(storage := e.storage[s := v], cost := cost);
    Replace(cache, size, l, l', a, e');
    cache', size' := cache[a := e'], size - e.cost + cost;
  }

  lemma SlotCostsPut(storage: map<Slot, bytes>, s: Slot, v: bytes)
    ensures Total(SlotCosts(storage[s := v])) == SlotCost + |v| +
            (if s in storage then Total(SlotCosts(storage)) - (SlotCost + |storage[s]|) else Total(SlotCosts(storage)))
  {
    TotalPut(SlotCosts(storage), s, SlotCost + |v|);
    assert SlotCosts(storage)[s := SlotCost + |v|] == SlotCosts(storage[s := v]);
  }

  lemma PutSlotElsewhere(l: Ledger, a: Addr, s: Slot, v: bytes)
    ensures var l' := l.PutSlot(a, s, v);
            && ElsewhereSame(l, l', a) && l'.Read(a, s) == v && l'.Account(a) == l.Account(a)
            && forall z {:trigger l'.Read(a, z)} :: z != s ==> l'.Read(a, z) == l.Read(a, z)
  {
  }

  /** The cache half of UpdateAccount. */
  method CacheAccount(caching: bool, cache: map<Addr, Entry>, size: nat, cap: nat, a: Addr, x: Acct, ghost l: Ledger)
    returns (cache': map<Addr, Entry>, size': nat)
    requires Cached(cache, size, l) && (!caching ==> cache == map[])
    ensures Cached(cache', size', l.PutAccount(a, x)) && (!caching ==> cache' == map[])
  {
    ghost var l' := l.PutAccount(a, x);
    assert ElsewhereSame(l, l', a);
    cache', size' := cache, size;
    if caching {
      cache', size' := EntryFor(cache, size, cap, a, l);
      var e := cache'[a].(known := true, acct := Some(x));
      assert forall s {:trigger l'.Read(a, s)} :: l'.Read(a, s) == l.Read(a, s);
      Replace(cache', size', l, l', a, e);
      cache' := cache'[a := e];
    }
  }

  /** The cache half of DeleteAccount: the account and all its slots go at once. */
  method CacheDrop(cache: map<Addr, Entry>, size: nat, a: Addr, ghost l: Ledger)
    returns (cache': map<Addr, Entry>, size': nat)
    requires Cached(cache, size, l)
    ensures Cached(cache', size', l.Drop(a)) && (cache == map[] ==> cache' == map[])
  {
    assert ElsewhereSame(l, l.Drop(a), a);
    Remove(cache, size, l, l.Drop(a), a);
    cache', size' := cache - {a}, if a in cache then size - cache[a].cost else size;
  }

  /** The cache half of UpdateStorage. */
  method CacheSlot(caching: bool, cache: map<Addr, Entry>, size: nat, cap: nat, a: Addr, s: Slot, v: bytes,
                   ghost l: Ledger)
    returns (cache': map<Addr, Entry>, size': nat)
    requires Cached(cache, size, l) && (!caching ==> cache == map[])
    ensures Cached(cache', size', l.PutSlot(a, s, v)) && (!caching ==> cache' == map[])
  {
    PutSlotElsewhere(l, a, s, v);
    cache', size' := cache, size;
    if caching {
      cache', size' := EntryFor(cache, size, cap, a, l);
      cache', size' := SetSlot(cache', size', a, s, v, l, l.PutSlot(a, s, v));
    }
  }

  /** What the cache takes for the state after a read that answered v. */
  ghost function Learned(l: Ledger, a: Addr, s: Slot, v: bytes): Ledger {
    if v == l.Read(a, s) then l else l.PutSlot(a, s, v)
  }

  /** The cache half of a storage miss. */
  method CacheRead(caching: bool, cache: map<Addr, Entry>, size: nat, cap: nat, a: Addr, s: Slot, v: bytes,
                   ghost l: Ledger)
    returns (cache': map<Addr, Entry>, size': nat)
    requires Cached(cache, size, l) && (!caching ==> cache == map[])
    ensures Cached(cache', size', Learned(l, a, s, v)) && (!caching ==> cache' == map[])
  {
    PutSlotElsewhere(l, a, s, v);
    cache', size' := cache, size;
    if caching {
      cache', size' := EntryFor(cache, size, cap, a, l);
      cache', size' := SetSlot(cache', size', a, s, v, l, Learned(l, a, s, v));
    }
  }

  /** The trie and the tombstones beside it answer as the reference. since is what
      batchDeleted is in a batch; outside one nothing keeps it. */
  ghost predicate Answers(t: Inner, batch: bool, deleted: map<Addr, map<Slot, bytes>>,
                          since: map<Addr, map<Slot, bytes>>,
                          l: Ledger, dead: set<Addr>) {
    Follows(t, l, dead) && Repairs(since, l, dead) && Shadows(t, since) && deleted == if batch then since else map[]
  }

  lemma AnswersAccount(t: Inner, batch: bool, deleted: map<Addr, map<Slot, bytes>>, since: map<Addr, map<Slot, bytes>>,
                       l: Ledger, dead: set<Addr>, a: Addr, x: Acct)
    requires Answers(t, batch, deleted, since, l, dead)
    ensures Answers(t.PutAccount(a, x), batch, deleted, since, l.PutAccount(a, x), dead)
  {
    FollowsAccount(t, l, dead, a, x);
    RepairsAccount(since, l, dead, a, x);
    ShadowsAccount(t, since, a, x);
  }

  lemma AnswersDrop(t: Inner, batch: bool, deleted: map<Addr, map<Slot, bytes>>, since: map<Addr, map<Slot, bytes>>,
                    l: Ledger, dead: set<Addr>, a: Addr)
    requires Answers(t, batch, deleted, since, l, dead)
    ensures var deleted' := if batch then deleted[a := map[]] else deleted;
            Answers(t.Drop(a), batch, deleted', since[a := map[]], l.Drop(a), dead + {a})
  {
    FollowsDrop(t, l, dead, a);
    RepairsDrop(since, l, dead, a);
    ShadowsDrop(t, since, a);
  }

  lemma AnswersSlot(t: Inner, batch: bool, deleted: map<Addr, map<Slot, bytes>>, since: map<Addr, map<Slot, bytes>>,
                    l: Ledger, dead: set<Addr>, a: Addr, s: Slot, v: bytes)
    requires Answers(t, batch, deleted, since, l, dead)
    ensures Answers(t.PutSlot(a, s, v), batch, Since(deleted, a, s, v), Since(since, a, s, v), l.PutSlot(a, s, v), dead)
  {
    FollowsSlot(t, l, dead, a, s, v);
    RepairsSlot(since, l, dead, a, s, v);
    ShadowsSlot(t, since, a, s, v);
  }

  lemma AnswersOpen(base: Ledger)
    ensures Answers(Open(base), false, map[], map[], base, {})
  {
    FollowsOpen(base);
  }

  class Wrapped {
    const caching: bool
    const cap: nat
    var cache: map<Addr, Entry>
    var cacheSize: nat
    var batch: bool
    var batchDeleted: map<Addr, map<Slot, bytes>>
    var inner: Inner
    ghost var ref: Ledger // what an uncached state holds
    ghost var dead: set<Addr> // destructed since the inner trie's revision
    ghost var since: map<Addr, map<Slot, bytes>> // their slots written since

    ghost predicate Valid()
      reads this
    {
      && Answers(inner, batch, batchDeleted, since, ref, dead)
      && Cached(cache, cacheSize, ref) && (!caching ==> cache == map[])
    }

    constructor (caching: bool, cap: nat, base: Ledger)
      ensures Valid() && !batch && ref == base && dead == {}
    {
      this.caching, this.cap := caching, cap;
      cache, cacheSize, batch, batchDeleted := map[], 0, false, map[];
      inner, ref, dead, since := Open(base), base, {}, map[];
      AnswersOpen(base);
      assert Costs(map[]) == map[];
    }

    /** GetAccount: the reference's account, cached or not. */
    method GetAccount(a: Addr) returns (x: Option<Acct>)
      requires Valid()
      modifies this`cache, this`cacheSize
      ensures Valid() && x == ref.Account(a)
    {
      if caching && a in cache && cache[a].known { return cache[a].acct; }
      x := inner.Account(a);
      assert x == ref.Account(a);
      if !caching { return; }
      cache, cacheSize := EntryFor(cache, cacheSize, cap, a, ref);
      var e := cache[a].(known := true, acct := x);
      Replace(cache, cacheSize, ref, ref, a, e);
      cache := cache[a := e];
    }

    /** The slot is one the trie and the tombstones answer for. */
    ghost predicate Right(a: Addr, s: Slot)
      reads this
    {
      batch || a !in dead || Legible(inner, since, a, s)
    }

    predicate Hit(a: Addr, s: Slot)
      reads this
    {
      caching && a in cache && s in cache[a].storage
    }

    /** GetStorage: the reference's slot, also after a destruct and a recreation in
        one batch. Outside a batch a miss on an account destructed since the last
        commit is right exactly when its slot is legible; a wrong answer is cached. */
    method GetStorage(a: Addr, s: Slot) returns (v: bytes)
      requires Valid()
      modifies this`cache, this`cacheSize
      ensures v == ref.Read(a, s) <==> old(Hit(a, s)) || Right(a, s)
      ensures v == ref.Read(a, s) ==> Valid()
      ensures Cached(cache, cacheSize, Learned(ref, a, s, v)) && (!caching ==> cache == map[])
    {
      if caching && a in cache && s in cache[a].storage {
        v := cache[a].storage[s];
        assert v == ref.Read(a, s);
        return;
      }
      v := Fallthrough(a, s);
      cache, cacheSize := CacheRead(caching, cache, cacheSize, cap, a, s, v, ref);
    }

    /** storageFallthrough: in a batch a destructed account is never asked of the inner
        trie. */
    method Fallthrough(a: Addr, s: Slot) returns (v: bytes)
      requires Valid()
      ensures v == ref.Read(a, s) <==> Right(a, s)
    {
      if a in batchDeleted {
        v := if s in batchDeleted[a] then batchDeleted[a][s] else [];
        assert ReadIn(since, a, s) == ref.Read(a, s);
        return;
      }
      v := inner.Read(a, s);
      if a in dead {
        DestructedRead(inner, since, ref, dead, a, s);
      } else {
        assert ref.Read(a, s) == inner.Overlaid(a, s);
      }
    }

    method UpdateAccount(a: Addr, x: Acct)
      requires Valid()
      modifies this`cache, this`cacheSize, this`inner, this`ref
      ensures Valid() && ref == old(ref).PutAccount(a, x) && inner == old(inner).PutAccount(a, x)
    {
      cache, cacheSize := CacheAccount(caching, cache, cacheSize, cap, a, x, ref);
      Enter(a, x);
    }

    /** The trie half of UpdateAccount. */
    method Enter(a: Addr, x: Acct)
      requires Answers(inner, batch, batchDeleted, since, ref, dead)
      modifies this`inner, this`ref
      ensures Answers(inner, batch, batchDeleted, since, ref, dead)
      ensures ref == old(ref).PutAccount(a, x) && inner == old(inner).PutAccount(a, x)
    {
      AnswersAccount(inner, batch, batchDeleted, since, ref, dead, a, x);
      inner, ref := inner.PutAccount(a, x), ref.PutAccount(a, x);
    }

    method DeleteAccount(a: Addr)
      requires Valid()
      modifies this`cache, this`cacheSize, this`batchDeleted, this`inner, this`ref, this`dead, this`since
      ensures Valid() && ref == old(ref).Drop(a) && inner == old(inner).Drop(a)
      ensures dead == old(dead) + {a} && since == old(since)[a := map[]]
    {
      cache, cacheSize := CacheDrop(cache, cacheSize, a, ref);
      Bury(a);
    }

    /** The trie half of DeleteAccount: only slots written from here on may be read
        in this batch. */
    method Bury(a: Addr)
      requires Answers(inner, batch, batchDeleted, since, ref, dead)
      modifies this`batchDeleted, this`inner, this`ref, this`dead, this`since
      ensures Answers(inner, batch, batchDeleted, since, ref, dead) && ref == old(ref).Drop(a)
      ensures inner == old(inner).Drop(a) && dead == old(dead) + {a} && since == old(since)[a := map[]]
    {
      AnswersDrop(inner, batch, batchDeleted, since, ref, dead, a);
      batchDeleted := if batch then batchDeleted[a := map[]] else batchDeleted;
      inner, ref, dead, since := inner.Drop(a), ref.Drop(a), dead + {a}, since[a := map[]];
    }

    /** UpdateStorage, and DeleteStorage with an empty value. */
    method WriteStorage(a: Addr, s: Slot, v: bytes)
      requires Valid()
      modifies this`cache, this`cacheSize, this`batchDeleted, this`inner, this`ref, this`since
      ensures Valid() && ref == old(ref).PutSlot(a, s, v)
      ensures inner == old(inner).PutSlot(a, s, v) && since == Since(old(since), a, s, v)
    {
      cache, cacheSize := CacheSlot(caching, cache, cacheSize, cap, a, s, v, ref);
      Store(a, s, v);
    }

    /** The trie half of UpdateStorage. */
    method Store(a: Addr, s: Slot, v: bytes)
      requires Answers(inner, batch, batchDeleted, since, ref, dead)
      modifies this`batchDeleted, this`inner, this`ref, this`since
      ensures Answers(inner, batch, batchDeleted, since, ref, dead)
      ensures ref == old(ref).PutSlot(a, s, v)
      ensures inner == old(inner).PutSlot(a, s, v) && since == Since(old(since), a, s, v)
    {
      AnswersSlot(inner, batch, batchDeleted, since, ref, dead, a, s, v);
      batchDeleted, since := Since(batchDeleted, a, s, v), Since(since, a, s, v);
      inner, ref := inner.PutSlot(a, s, v), ref.PutSlot(a, s, v);
    }

    /** A block outside a batch is committed: Firewood's revision is the reference. */
    method CommitBlock()
      requires Valid() && !batch
      modifies this`inner, this`dead, this`since
      ensures Valid() && dead == {} && since == map[] && inner == old(inner).Commit() && inner.base == ref
    {
      AnswersOpen(ref);
      inner, dead, since := inner.Commit(), {}, map[];
    }

    method BeginBatch()
      requires Valid() && !batch && dead == {}
      modifies this`batch, this`batchDeleted
      ensures Valid() && batch
    {
      batch, batchDeleted := true, map[];
      assert since == map[];
    }

    /** endBatch after the boundary proposal was committed. */
    method EndBatch()
      requires Valid() && batch
      modifies this`batch, this`batchDeleted, this`inner, this`dead, this`since
      ensures Valid() && !batch && dead == {} && since == map[] && inner == old(inner).Commit()
    {
      AnswersOpen(ref);
      batch, batchDeleted, inner, dead, since := false, map[], inner.Commit(), {}, map[];
    }

    /** endBatch and resetCache in bisect: the batch never happened. */
    method Abandon()
      requires Valid() && batch
      modifies this
      ensures Valid() && !batch && ref == old(inner.base) && dead == {} && since == map[] && inner == Open(ref)
    {
      AnswersOpen(inner.base);
      assert Costs(map[]) == map[];
      ref, dead, since := inner.base, {}, map[];
      batch, batchDeleted, inner := false, map[], Open(inner.base);
      cache, cacheSize := map[], 0;
    }

    method ResetCache()
      requires Valid()
      modifies this`cache, this`cacheSize
      ensures Valid() && cacheSize == 0
    {
      assert Costs(map[]) == map[];
      cache, cacheSize := map[], 0;
    }
  }

  // ---------------------------------------------------------------------- runs

  datatype Act =
    | ReadAccount(a: Addr)
    | ReadSlot(a: Addr, s: Slot)
    | PutAccount(a: Addr, x: Acct)
    | DropAccount(a: Addr)
    | PutSlot(a: Addr, s: Slot, v: bytes)
    | Commit
    | Begin
    | End
    | Undo
    | Reset

  datatype Answer = Account(x: Option<Acct>) | Value(v: bytes) | Nothing

  /** The reference: an uncached state, and the one a batch began at. */
  datatype Plain = Plain(now: Ledger, start: Ledger, batch: bool)
  {
    function Ask(act: Act): Answer {
      match act
      case ReadAccount(a) => Account(now.Account(a))
      case ReadSlot(a, s) => Value(now.Read(a, s))
      case _ => Nothing
    }

    function Do(act: Act): Plain {
      match act
      case PutAccount(a, x) => this.(now := now.PutAccount(a, x))
      case DropAccount(a) => this.(now := now.Drop(a))
      case PutSlot(a, s, v) => this.(now := now.PutSlot(a, s, v))
      case Begin => if batch then this else Plain(now, now, true)
      case End => this.(batch := false)
      case Undo => if batch then Plain(start, start, false) else this
      case _ => this
    }
  }

  /** What the reference answers along a run. */
  function Truth(p: Plain, acts: seq<Act>): seq<Answer>
    decreases |acts|
  {
    if acts == [] then [] else [p.Ask(acts[0])] + Truth(p.Do(acts[0]), acts[1..])
  }

  /** What the trie under the cache has been told, and what was destructed and written
      since its revision: the operations alone decide it, not the cache. */
  datatype Told = Told(t: Inner, since: map<Addr, map<Slot, bytes>>, dead: set<Addr>, batch: bool)
  {
    function Do(act: Act): Told {
      match act
      case PutAccount(a, x) => this.(t := t.PutAccount(a, x))
      case DropAccount(a) => this.(t := t.Drop(a), since := since[a := map[]], dead := dead + {a})
      case PutSlot(a, s, v) => this.(t := t.PutSlot(a, s, v), since := Since(since, a, s, v))
      case Commit => if batch then this else Told(t.Commit(), map[], {}, false)
      case Begin => if batch then this else Told(t.Commit(), map[], {}, true)
      case End => if batch then Told(t.Commit(), map[], {}, false) else this
      case Undo => if batch then Told(Open(t.base), map[], {}, false) else this
      case _ => this
    }

    ghost predicate Tells(act: Act) {
      act.ReadSlot? ==> batch || act.a !in dead || Legible(t, since, act.a, act.s)
    }
  }

  /** Every storage read of the run is one the trie and the tombstones answer for. */
  ghost predicate Faithful(h: Told, acts: seq<Act>)
    decreases |acts|
  {
    acts == [] || (h.Tells(acts[0]) && Faithful(h.Do(acts[0]), acts[1..]))
  }

  /** The accounts destructed since the last commit. */
  function Gone(dead: set<Addr>, batch: bool, act: Act): set<Addr> {
    match act
    case DropAccount(a) => dead + {a}
    case Commit => if batch then dead else {}
    case Begin => if batch then dead else {}
    case End => if batch then {} else dead
    case Undo => if batch then {} else dead
    case _ => dead
  }

  function Batched(batch: bool, act: Act): bool {
    act.Begin? || (batch && !act.End? && !act.Undo?)
  }

  /** Outside a batch the run reads no slot of an account destructed since the last
      commit. */
  predicate Careful(dead: set<Addr>, batch: bool, acts: seq<Act>)
    decreases |acts|
  {
    || acts == []
    || ((acts[0].ReadSlot? ==> batch || acts[0].a !in dead)
        && Careful(Gone(dead, batch, acts[0]), Batched(batch, acts[0]), acts[1..]))
  }

  lemma {:induction false} CarefulIsFaithful(h: Told, acts: seq<Act>)
    requires Careful(h.dead, h.batch, acts)
    ensures Faithful(h, acts)
    decreases |acts|
  {
    if acts != [] { CarefulIsFaithful(h.Do(acts[0]), acts[1..]); }
  }

  /** The wrapper stands where the reference does, on what its trie was told. */
  ghost predicate Beside(w: Wrapped, p: Plain, h: Told)
    reads w
  {
    && w.Valid() && w.ref == p.now && w.batch == p.batch && (p.batch ==> w.inner.base == p.start)
    && h == Told(w.inner, w.since, w.dead, w.batch)
  }

  /** One operation; a batch begins at a committed revision. The answer is the
      reference's unless it is a storage read that neither hits nor is right. */
  method Perform(w: Wrapped, act: Act, ghost p: Plain, ghost h: Told) returns (ans: Answer)
    requires Beside(w, p, h)
    modifies w
    ensures ans == p.Ask(act) <==> h.Tells(act) || (act.ReadSlot? && old(w.Hit(act.a, act.s)))
    ensures ans == p.Ask(act) ==> Beside(w, p.Do(act), h.Do(act))
  {
    ans := Nothing;
    match act
    case ReadAccount(a) =>
      var x := w.GetAccount(a);
      ans := Account(x);
    case ReadSlot(a, s) =>
      var v := w.GetStorage(a, s);
      ans := Value(v);
    case PutAccount(a, x) => w.UpdateAccount(a, x);
    case DropAccount(a) => w.DeleteAccount(a);
    case PutSlot(a, s, v) => w.WriteStorage(a, s, v);
    case Commit => if !w.batch { w.CommitBlock(); }
    case Begin =>
      if !w.batch {
        w.CommitBlock();
        w.BeginBatch();
      }
    case End => if w.batch { w.EndBatch(); }
    case Undo => if w.batch { w.Abandon(); }
    case Reset => w.ResetCache();
  }

  /** Any run of operations beside the reference, which ends early only at an answer that
      is not the reference's. All answers are the reference's when every storage read is
      faithful, and without a cache only then; a careful run is faithful. */
  method Run(w: Wrapped, acts: seq<Act>, p: Plain, ghost h: Told) returns (answers: seq<Answer>)
    requires Beside(w, p, h)
    modifies w
    ensures |answers| <= |acts| == |Truth(p, acts)|
    ensures |answers| < |acts| ==> answers != [] && answers[|answers| - 1] != Truth(p, acts)[|answers| - 1]
    ensures Faithful(h, acts) ==> answers == Truth(p, acts)
    ensures !w.caching && answers == Truth(p, acts) ==> Faithful(h, acts)
    ensures Careful(h.dead, h.batch, acts) ==> answers == Truth(p, acts)
  {
    answers := [];
    var q := p;
    ghost var g := h;
    assert acts[0..] == acts;
    if Careful(h.dead, h.batch, acts) { CarefulIsFaithful(h, acts); }
    TruthLength(p, acts);
    for i := 0 to |acts|
      invariant |answers| == i && Beside(w, q, g) && Truth(p, acts) == answers + Truth(q, acts[i..])
      invariant Faithful(h, acts) ==> Faithful(g, acts[i..])
      invariant !w.caching && Faithful(g, acts[i..]) ==> Faithful(h, acts)
    {
      Unroll(q, g, acts, i);
      ghost var told := answers;
      var ans := Perform(w, acts[i], q, g);
      answers := answers + [ans];
      if ans != q.Ask(acts[i]) {
        assert Truth(p, acts)[i] == q.Ask(acts[i]);
        return;
      }
      ConcatAssoc(told, [ans], Truth(q.Do(acts[i]), acts[i + 1..]));
      q, g := q.Do(acts[i]), g.Do(acts[i]);
    }
  }

  lemma TruthLength(p: Plain, acts: seq<Act>)
    ensures |Truth(p, acts)| == |acts|
    decreases |acts|
  {
    if acts != [] { TruthLength(p.Do(acts[0]), acts[1..]); }
  }

  lemma Unroll(p: Plain, h: Told, acts: seq<Act>, i: nat)
    requires i < |acts|
    ensures Truth(p, acts[i..]) == [p.Ask(acts[i])] + Truth(p.Do(acts[i]), acts[i + 1..])
    ensures Faithful(h, acts[i..]) <==> h.Tells(acts[i]) && Faithful(h.Do(acts[i]), acts[i + 1..])
  {
    DropDrop(acts, i);
  }

  /** A slot that is not legible: outside a batch nothing remembers a destruct once the
      account is back, and its old slots are read from the revision. */
  lemma LostDestruct(base: Ledger, a: Addr, s: Slot, x: Acct)
    requires base.Read(a, s) != []
    ensures var t := Open(base).Drop(a).PutAccount(a, x);
            && t.Read(a, s) == base.Read(a, s) != base.Drop(a).PutAccount(a, x).Read(a, s)
            && !Legible(t, map[a := map[]], a, s)
  {
  }
}
