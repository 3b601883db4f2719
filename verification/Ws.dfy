/** rpc/ws.go: subscription cursors. What each subscriber was sent is the events of the
    blocks between its start and its cursor, and once more the head of the next block
    for every poller that stopped inside that block. */
module Ws {
  import opened Bytes

  type Id(==, !new)
  type Event(!new)

  const MaxCatchup: nat := 128

  /** A subscription: the events it draws from each block and which of them can be
      delivered at all, whether it asks for a whole range at once, as a logs
      subscription does, and whether it is for pending transactions, which never come. */
  datatype Sub = Sub(events: nat -> seq<Event>, good: Event -> bool, whole: bool, pending: bool, start: nat, last: nat)
  {
    /** Every event of block n can be delivered. */
    predicate Clean(n: nat) { Undeliverable(events(n), good) == |events(n)| }

    /** The events of block n before the first that cannot be delivered. */
    function Head(n: nat): seq<Event> { events(n)[..Undeliverable(events(n), good)] }
  }

  /** The place of the first event that cannot be delivered, or the length. */
  function Undeliverable(evs: seq<Event>, good: Event -> bool): (k: nat)
    ensures k <= |evs| && (forall i :: 0 <= i < k ==> good(evs[i])) && (k < |evs| ==> !good(evs[k]))
  {
    if evs == [] || !good(evs[0]) then 0 else 1 + Undeliverable(evs[1..], good)
  }

  /** The events of blocks (a, b]. */
  function Events(events: nat -> seq<Event>, a: nat, b: nat): seq<Event>
    decreases b
  {
    if b <= a then [] else Events(events, a, b - 1) + events(b)
  }

  lemma {:induction false} EventsJoin(events: nat -> seq<Event>, a: nat, b: nat, c: nat)
    requires a <= b <= c
    ensures Events(events, a, b) + Events(events, b, c) == Events(events, a, c)
    decreases c
  {
    if b < c {
      EventsJoin(events, a, b, c - 1);
      ConcatAssoc(Events(events, a, b), Events(events, b, c - 1), events(c));
    }
  }

  /** s, k times over. */
  function Repeat(s: seq<Event>, k: nat): (r: seq<Event>)
    ensures |r| == 0 <==> s == [] || k == 0
  {
    if k == 0 then [] else Repeat(s, k - 1) + s
  }

  // ------------------------------------------------------------------ deliver

  /** How a delivery ends: well, at a write the connection did not take, or at an event
      that cannot be delivered. */
  datatype End = Fine | Broken | Stopped

  /** notify, event after event; the connection takes room more of them. */
  method Send(evs: seq<Event>, good: Event -> bool, room: nat) returns (sent: nat, end: End)
    ensures sent <= Undeliverable(evs, good) && sent <= room
    ensures end.Fine? ==> sent == |evs|
    ensures end.Broken? ==> sent == room < |evs|
    ensures end.Stopped? ==> sent == Undeliverable(evs, good) < |evs|
  {
    sent := 0;
    while sent < |evs|
      invariant sent <= Undeliverable(evs, good) && sent <= room
    {
      if !good(evs[sent]) { return sent, Stopped; }
      if sent == room { return sent, Broken; }
      sent := sent + 1;
    }
    return sent, Fine;
  }

  /** Which stretches (a, b] of blocks can be read at the moment. */
  type Reads = (nat, nat) -> bool

  /** A cursor that came to got on the way from `from` to last with nothing but reads
      failing: it is there, or what comes next cannot be read. */
  predicate Halted(whole: bool, can: Reads, from: nat, last: nat, got: nat) {
    got == last || (if whole then got == from && !can(from, last) else from <= got < last && !can(got, got + 1))
  }

  /** What was sent for blocks (from, last]: exactly the events up to the block
      reported, and the head of the next one if an event of it cannot be delivered. */
  ghost predicate Delivered(sub: Sub, from: nat, last: nat, can: Reads, room: nat, got: nat, end: End,
                            out: seq<Event>) {
    && from <= got <= last
    && (!end.Broken? && !sub.whole ==> forall n {:trigger sub.Clean(n)} :: from < n <= got ==> sub.Clean(n))
    && match end
       case Fine => out == Events(sub.events, from, got) && Halted(sub.whole, can, from, last, got)
       case Broken => |out| == room && out < Events(sub.events, from, last)
       case Stopped =>
         && !sub.whole && got < last && !sub.Clean(got + 1)
         && out == Events(sub.events, from, got) + sub.Head(got + 1)
  }

  method Deliver(sub: Sub, from: nat, last: nat, can: Reads, room: nat)
    returns (got: nat, end: End, ghost out: seq<Event>)
    requires from <= last
    ensures Delivered(sub, from, last, can, room, got, end, out)
  {
    if sub.whole {
      got, end, out := DeliverRange(sub, from, last, can, room);
    } else {
      got, end, out := DeliverBlocks(sub, from, last, can, room);
    }
  }

  /** The whole range or nothing; a log can always be delivered. */
  method DeliverRange(sub: Sub, from: nat, last: nat, can: Reads, room: nat)
    returns (got: nat, end: End, ghost out: seq<Event>)
    requires from <= last && sub.whole
    ensures Delivered(sub, from, last, can, room, got, end, out)
  {
    if !can(from, last) { return from, Fine, []; }
    var evs := Events(sub.events, from, last);
    var sent;
    sent, end := Send(evs, _ => true, room);
    if !end.Fine? { return from, end, evs[..sent]; }
    return last, Fine, evs;
  }

  method DeliverBlocks(sub: Sub, from: nat, last: nat, can: Reads, room: nat)
    returns (got: nat, end: End, ghost out: seq<Event>)
    requires from <= last && !sub.whole
    ensures Delivered(sub, from, last, can, room, got, end, out)
  {
    got, end, out := from, Fine, [];
    var left: nat := room;
    while got < last
      invariant from <= got <= last && end.Fine? && out == Events(sub.events, from, got) && left + |out| == room
      invariant forall n {:trigger sub.Clean(n)} :: from < n <= got ==> sub.Clean(n)
    {
      if !can(got, got + 1) { return; }
      var evs := sub.events(got + 1);
      var sent;
      sent, end := Send(evs, sub.good, left);
      if !end.Fine? {
        if end.Broken? { Short(sub.events, from, got, last, sent); }
        out := out + evs[..sent];
        return;
      }
      got, out, left := got + 1, out + evs, left - sent;
    }
  }

  /** What goes out of a block that is not finished is short of the range. */
  lemma Short(events: nat -> seq<Event>, from: nat, got: nat, last: nat, sent: nat)
    requires from <= got < last && sent < |events(got + 1)|
    ensures Events(events, from, got) + events(got + 1)[..sent] < Events(events, from, last)
  {
    EventsJoin(events, from, got + 1, last);
    var evs := events(got + 1);
    assert evs == evs[..sent] + evs[sent..];
    ConcatAssoc(Events(events, from, got), evs[..sent], evs[sent..]);
    ConcatAssoc(Events(events, from, got) + evs[..sent], evs[sent..], Events(events, got + 1, last));
  }

  // ------------------------------------------------------------------- streams

  /** A subscription, everything it was sent, and how often a poller stopped at one of
      its events. */
  datatype Line = Line(sub: Sub, stream: seq<Event>, stops: nat)

  /** The subscriber was sent the events of (start, last], and then the head of the next
      block once for each poller that stopped in it. */
  ghost predicate Streamed(l: Line) {
    && l.sub.start <= l.sub.last
    && l.stream == Events(l.sub.events, l.sub.start, l.sub.last) + Repeat(l.sub.Head(l.sub.last + 1), l.stops)
    && (l.stops > 0 ==> !l.sub.whole && !l.sub.Clean(l.sub.last + 1))
  }

  type Fed = l: Line | Streamed(l)
    ghost witness Line(Sub(_ => [], _ => true, false, false, 0, 0), [], 0)

  /** Everything between start and cursor was sent, and nothing twice. */
  ghost predicate Once(l: Line) { l.stream == Events(l.sub.events, l.sub.start, l.sub.last) }

  /** The block's first event cannot be delivered. */
  predicate FirstBad(sub: Sub, n: nat) { sub.events(n) != [] && !sub.good(sub.events(n)[0]) }

  /** Exactly when: no poller stopped in the next block, or it stopped at the block's
      very first event. */
  lemma StreamExact(l: Fed)
    ensures Once(l) <==> l.stops == 0 || FirstBad(l.sub, l.sub.last + 1)
  {
    var again := Repeat(l.sub.Head(l.sub.last + 1), l.stops);
    assert |l.stream| == |Events(l.sub.events, l.sub.start, l.sub.last)| + |again|;
  }

  lemma FreshLine(sub: Sub) returns (l: Fed)
    requires sub.start == sub.last
    ensures l == Line(sub, [], 0)
  {
    assert Repeat(sub.Head(sub.last + 1), 0) == [];
    l := Line(sub, [], 0);
  }

  /** A poller came on to got and went no further. */
  lemma CameOn(l: Fed, got: nat) returns (l': Fed)
    requires l.sub.last <= got && (got > l.sub.last && l.stops > 0 ==> l.sub.Clean(l.sub.last + 1))
    ensures l' == Line(l.sub.(last := got), l.stream + Events(l.sub.events, l.sub.last, got), l.stops)
  {
    EventsJoin(l.sub.events, l.sub.start, l.sub.last, got);
    l' := Line(l.sub.(last := got), l.stream + Events(l.sub.events, l.sub.last, got), l.stops);
  }

  /** A poller stopped in the block after the cursor. */
  lemma StoppedIn(l: Fed) returns (l': Fed)
    requires !l.sub.whole && !l.sub.Clean(l.sub.last + 1)
    ensures l' == Line(l.sub, l.stream + l.sub.Head(l.sub.last + 1), l.stops + 1)
  {
    var head := l.sub.Head(l.sub.last + 1);
    ConcatAssoc(Events(l.sub.events, l.sub.start, l.sub.last), Repeat(head, l.stops), head);
    l' := Line(l.sub, l.stream + head, l.stops + 1);
  }

  /** Delivering on from the cursor keeps what the stream is. */
  lemma StreamMore(l: Fed, last: nat, can: Reads, room: nat, got: nat, end: End, out: seq<Event>) returns (l': Fed)
    requires Delivered(l.sub, l.sub.last, last, can, room, got, end, out) && !end.Broken?
    ensures l' == Line(l.sub.(last := got), l.stream + out, l.stops + if end.Stopped? then 1 else 0)
    ensures Grew(l, l', end.Stopped?)
  {
    l' := CameOn(l, got);
    if end.Stopped? {
      ConcatAssoc(l.stream, Events(l.sub.events, l.sub.last, got), l.sub.Head(got + 1));
      l' := StoppedIn(l');
    }
  }

  /** Where a tick takes a subscription's cursor if nothing fails. */
  function Target(sub: Sub, head: nat): nat { if head < sub.last + MaxCatchup then head else sub.last + MaxCatchup }

  ghost predicate Caught(was: Sub, now: Sub, head: nat, can: Reads) {
    && now == was.(last := now.last) && was.last <= now.last
    && if was.pending || was.last >= head then now == was
       else Halted(was.whole, can, was.last, Target(was, head), now.last)
  }

  /** The line after a delivery that broke off at no write: the events of the blocks
      finished, and the head of the next if an event of it stopped the poller. */
  ghost predicate Grew(l: Line, l': Line, stopped: bool) {
    && l'.sub == l.sub.(last := l'.sub.last) && l.sub.last <= l'.sub.last
    && l'.stops == l.stops + (if stopped then 1 else 0)
    && l'.stream == l.stream + Events(l.sub.events, l.sub.last, l'.sub.last)
                    + (if stopped then l.sub.Head(l'.sub.last + 1) else [])
  }

  /** What one job of a tick does to a subscription's line; out is what it sent. */
  ghost predicate Jobbed(l: Line, l': Line, head: nat, can: Reads, room: nat, got: nat, end: End, out: seq<Event>) {
    && Delivered(l.sub, l.sub.last, Target(l.sub, head), can, room, got, end, out)
    && (!end.Broken? ==> Grew(l, l', end.Stopped?) && l'.sub.last == got && l'.stream == l.stream + out)
    && (room >= |Events(l.sub.events, l.sub.last, head)| ==> !end.Broken?)
  }

  /** One job of a tick on values. A write that fails ends the connection, and the line
      is not kept past it. */
  method DeliverNext(sub: Sub, head: nat, can: Reads, room: nat, ghost l: Fed)
    returns (got: nat, end: End, ghost out: seq<Event>, ghost l': Fed)
    requires l.sub == sub && sub.last < head
    ensures Jobbed(l, l', head, can, room, got, end, out)
  {
    got, end, out := Deliver(sub, sub.last, Target(sub, head), can, room);
    EventsJoin(sub.events, sub.last, Target(sub, head), head);
    l' := l;
    if !end.Broken? { l' := StreamMore(l, Target(sub, head), can, room, got, end, out); }
  }

  /** Every subscription has its line. */
  ghost predicate Lined(subs: map<Id, Sub>, lines: map<Id, Fed>) {
    forall id {:trigger id in subs} :: id in subs ==> id in lines && lines[id].sub == subs[id]
  }

  /** Every subscription left of was is where a tick without a stop leaves it. */
  ghost predicate AllCaught(was: map<Id, Sub>, now: map<Id, Sub>, todo: set<Id>, head: nat, can: Reads) {
    forall id {:trigger id in now} :: id in now ==>
      id in was && if id in todo then now[id] == was[id] else Caught(was[id], now[id], head, can)
  }

  /** The map of subscriptions after a job. */
  function Moved(subs: map<Id, Sub>, id: Id, got: nat, dropped: bool): map<Id, Sub>
    requires id in subs
  {
    if dropped then subs - {id} else subs[id := subs[id].(last := got)]
  }

  lemma MovedLined(subs: map<Id, Sub>, lines: map<Id, Fed>, id: Id, got: nat, dropped: bool, l: Fed)
    requires Lined(subs, lines) && id in subs && l.sub == subs[id].(last := got)
    ensures Lined(Moved(subs, id, got, dropped), lines[id := l])
  {
  }

  lemma MovedCaught(was: map<Id, Sub>, now: map<Id, Sub>, todo: set<Id>, head: nat, can: Reads, id: Id, got: nat,
                    dropped: bool)
    requires AllCaught(was, now, todo, head, can) && id in todo && id in now && !now[id].pending && now[id].last <= got
    requires now[id].last < head && Halted(now[id].whole, can, now[id].last, Target(now[id], head), got)
    ensures AllCaught(was, Moved(now, id, got, dropped), todo - {id}, head, can)
  {
  }

  lemma LeftCaught(was: map<Id, Sub>, now: map<Id, Sub>, todo: set<Id>, head: nat, can: Reads, id: Id)
    requires AllCaught(was, now, todo, head, can) && (id in now ==> now[id].pending || now[id].last >= head)
    ensures AllCaught(was, now, todo - {id}, head, can)
  {
  }

  /** One job, and the subscription perhaps dropped meanwhile. */
  method JobOn(subs: map<Id, Sub>, id: Id, head: nat, can: Reads, room: nat, dropped: bool, ghost lines: map<Id, Fed>)
    returns (subs': map<Id, Sub>, got: nat, end: End, ghost out: seq<Event>, ghost lines': map<Id, Fed>, ghost now: Fed)
    requires Lined(subs, lines) && id in subs && subs[id].last < head
    ensures subs' == Moved(subs, id, got, dropped) && lines' == lines[id := now]
    ensures Jobbed(lines[id], now, head, can, room, got, end, out) && (!end.Broken? ==> Lined(subs', lines'))
  {
    got, end, out, now := DeliverNext(subs[id], head, can, room, lines[id]);
    if !end.Broken? { MovedLined(subs, lines, id, got, dropped, now); }
    subs', lines' := Moved(subs, id, got, dropped), lines[id := now];
  }

  /** A line that had its turn grew by its delivery. */
  ghost predicate GrewAt(was: map<Id, Line>, now: map<Id, Line>, id: Id, waits: bool, stopped: bool) {
    id in was && id in now && if waits then now[id] == was[id] else Grew(was[id], now[id], stopped)
  }

  /** So did every line left; who is the one whose delivery stopped. */
  ghost predicate AllGrew(was: map<Id, Line>, now: map<Id, Line>, subs: set<Id>, todo: set<Id>, who: Option<Id>) {
    forall id {:trigger id in subs} :: id in subs ==> GrewAt(was, now, id, id in todo, who == Some(id))
  }

  lemma GrewOne(was: map<Id, Line>, now: map<Id, Line>, subs: set<Id>, subs': set<Id>, todo: set<Id>,
                id: Id, l: Line, stopped: bool)
    requires AllGrew(was, now, subs, todo, None) && id in todo && id in subs && subs' <= subs
    requires id in now && Grew(now[id], l, stopped)
    ensures AllGrew(was, now[id := l], subs', todo - {id}, if stopped then Some(id) else None)
  {
    var now', who := now[id := l], if stopped then Some(id) else None;
    assert GrewAt(was, now, id, true, false);
    forall k {:trigger k in subs'} | k in subs' ensures GrewAt(was, now', k, k in todo - {id}, who == Some(k)) {
      assert k != id ==> GrewAt(was, now, k, k in todo, false);
    }
  }

  lemma GrewNothing(l: Line)
    ensures Grew(l, l, false)
  {
    assert l.stream + [] + [] == l.stream;
  }

  lemma GrewNone(was: map<Id, Line>, now: map<Id, Line>, subs: set<Id>, todo: set<Id>, id: Id)
    requires AllGrew(was, now, subs, todo, None)
    ensures AllGrew(was, now, subs, todo - {id}, None)
  {
    forall k {:trigger k in subs} | k in subs ensures GrewAt(was, now, k, k in todo - {id}, false) {
      assert GrewAt(was, now, k, k in todo, false);
      if k == id { GrewNothing(now[k]); }
    }
  }

  /** tick on values: every subscription behind the head, once, until a job stops; who is
      the one that stopped it. */
  method TickOn(subs: map<Id, Sub>, head: nat, can: Reads, ghost lines: map<Id, Fed>)
    returns (subs': map<Id, Sub>, end: End, ghost lines': map<Id, Fed>, ghost who: Option<Id>, ghost left: set<Id>)
    requires Lined(subs, lines)
    ensures !end.Broken? ==> Lined(subs', lines') && AllGrew(lines, lines', subs'.Keys, left, who)
    ensures end.Fine? ==> AllCaught(subs, subs', {}, head, can) && left == {}
    ensures end.Fine? ==> who == None
  {
    subs', lines', end, who := subs, lines, Fine, None;
    var todo := subs.Keys;
    while todo != {} && end.Fine?
      invariant !end.Broken? ==> Lined(subs', lines') && AllGrew(lines, lines', subs'.Keys, todo, who)
      invariant end.Fine? ==> AllCaught(subs, subs', todo, head, can) && who == None
      decreases todo
    {
      var id :| id in todo;
      if id in subs' && !subs'[id].pending && subs'[id].last < head {
        var room: nat, dropped: bool := *, *;
        var got;
        ghost var before, earlier, now, out := subs', lines', lines'[id], [];
        subs', got, end, out, lines', now := JobOn(subs', id, head, can, room, dropped, lines');
        if end.Fine? { MovedCaught(subs, before, todo, head, can, id, got, dropped); }
        if !end.Broken? {
          GrewOne(lines, earlier, before.Keys, subs'.Keys, todo, id, now, end.Stopped?);
          who := if end.Stopped? then Some(id) else None;
        }
      } else {
        LeftCaught(subs, subs', todo, head, can, id);
        GrewNone(lines, lines', subs'.Keys, todo, id);
      }
      todo := todo - {id};
    }
    left := todo;
  }

  // ------------------------------------------------------------------ session

  class Session {
    var subs: map<Id, Sub>
    var up: bool // no write has failed; once one has, the connection is over
    var polling: bool
    ghost var lines: map<Id, Fed>

    ghost predicate Tracked()
      reads this
    {
      Lined(subs, lines)
    }

    constructor ()
      ensures Tracked() && up && !polling && subs == map[]
    {
      subs, up, polling, lines := map[], true, false, map[];
    }

    /** A subscription starts at the head it was made at. It starts a poller if none is
        running, also in place of one that stopped. */
    method Subscribe(id: Id, events: nat -> seq<Event>, good: Event -> bool, whole: bool, pending: bool, head: nat)
      requires Tracked() && id !in subs
      modifies this
      ensures Tracked() && up == old(up) && polling == (old(polling) || !pending)
      ensures subs == old(subs)[id := Sub(events, good, whole, pending, head, head)]
      ensures lines == old(lines)[id := Line(subs[id], [], 0)]
    {
      var sub := Sub(events, good, whole, pending, head, head);
      ghost var l := FreshLine(sub);
      subs, lines := subs[id := sub], lines[id := l];
      polling := polling || !pending;
    }

    method Unsubscribe(id: Id) returns (ok: bool)
      requires Tracked()
      modifies this`subs
      ensures Tracked() && ok == (id in old(subs)) && subs == old(subs) - {id}
    {
      ok := id in subs;
      subs := subs - {id};
    }

    /** One job of a tick: deliver, then move the cursor over what went out. The
        subscription may have been dropped meanwhile. A failed write ends the connection;
        an event that cannot be delivered only ends the poller. */
    method Job(id: Id, head: nat, can: Reads, room: nat, dropped: bool)
      returns (got: nat, end: End, ghost out: seq<Event>, ghost was: Fed, ghost now: Fed)
      requires Tracked() && up && polling && id in subs && !subs[id].pending && subs[id].last < head
      modifies this
      ensures up == !end.Broken? && polling == end.Fine? && subs == Moved(old(subs), id, got, dropped)
      ensures was == old(lines)[id] && lines == old(lines)[id := now]
      ensures Jobbed(was, now, head, can, room, got, end, out) && (up ==> Tracked())
    {
      was := lines[id];
      subs, got, end, out, lines, now := JobOn(subs, id, head, can, room, dropped, lines);
      up, polling := !end.Broken?, end.Fine?;
    }

    /** tick. What each subscription left was sent is the events of the blocks its cursor
        moved over, and the head of the next for the one that stopped the poller. If
        none did, each is at its target for this tick or before a block that cannot be
        read. */
    method Tick(head: nat, can: Reads) returns (ghost was: map<Id, Fed>, ghost who: Option<Id>, ghost left: set<Id>)
      requires Tracked() && up && polling
      modifies this
      ensures was == old(lines) && (up ==> Tracked() && AllGrew(was, lines, subs.Keys, left, who))
      ensures polling ==> up && AllCaught(old(subs), subs, {}, head, can) && left == {} && who == None
    {
      var end;
      was := lines;
      subs, end, lines, who, left := TickOn(subs, head, can, lines);
      up, polling := !end.Broken?, end.Fine?;
    }
  }

  /** What may happen to a session. */
  datatype Op =
    | Ticks(head: nat, can: Reads)
    | Joins(id: Id, events: nat -> seq<Event>, good: Event -> bool, whole: bool, pending: bool, head: nat)
    | Leaves(id: Id)

  method Act(s: Session, op: Op)
    requires s.Tracked() && s.up
    modifies s
    ensures s.up ==> s.Tracked()
  {
    match op
    case Ticks(head, can) =>
      if s.polling {
        ghost var was, who, left := s.Tick(head, can);
      }
    case Joins(id, events, good, whole, pending, head) =>
      if id !in s.subs { s.Subscribe(id, events, good, whole, pending, head); }
    case Leaves(id) => var _ := s.Unsubscribe(id);
  }

  /** Sent exactly once, if and only if no poller stopped in the next block, or only at
      its first event. */
  ghost predicate AllOnceIff(subs: map<Id, Sub>, lines: map<Id, Fed>)
    requires Lined(subs, lines)
  {
    forall id {:trigger id in subs} :: id in subs ==>
      (Once(lines[id]) <==> lines[id].stops == 0 || FirstBad(subs[id], subs[id].last + 1))
  }

  /** Any run of ticks, subscriptions and their ends: as long as the connection is up,
      each subscriber was sent exactly the events of (start, last] if and only if no
      poller stopped in the block after them past its first event. */
  method Run(s: Session, ops: seq<Op>)
    requires s.Tracked() && s.up
    modifies s
    ensures s.up ==> s.Tracked()
    ensures s.up ==> AllOnceIff(s.subs, s.lines)
  {
    var i := 0;
    while i < |ops| && s.up
      invariant s.up ==> s.Tracked()
      decreases |ops| - i
    {
      Act(s, ops[i]);
      i := i + 1;
    }
    if s.up { OnceIff(s.subs, s.lines); }
  }

  lemma OnceIff(subs: map<Id, Sub>, lines: map<Id, Fed>)
    requires Lined(subs, lines)
    ensures AllOnceIff(subs, lines)
  {
    forall id {:trigger id in subs} | id in subs
      ensures Once(lines[id]) <==> lines[id].stops == 0 || FirstBad(subs[id], subs[id].last + 1)
    {
      StreamExact(lines[id]);
    }
  }

  lemma MustStop(l: Line, l': Line, head: nat, can: Reads, room: nat, got: nat, end: End, out: seq<Event>)
    requires Jobbed(l, l', head + 1, can, room, got, end, out) && room >= |Events(l.sub.events, head, head + 1)|
    requires l.sub.last == head && !l.sub.whole && !l.sub.Clean(head + 1) && can(head, head + 1)
    ensures end.Stopped? && got == head && l'.stops == l.stops + 1
  {
  }

  lemma NotMoved(subs: map<Id, Sub>, id: Id)
    requires id in subs
    ensures Moved(subs, id, subs[id].last, false) == subs
  {
  }

  /** A tick's job on a subscription whose next block is not clean stops the poller
      there, with the connection up. */
  method StopsAt(s: Session, id: Id, head: nat, can: Reads) returns (ghost was: Fed, ghost now: Fed)
    requires s.Tracked() && s.up && s.polling && id in s.subs && Blocked(s.subs[id], head) && can(head, head + 1)
    modifies s
    ensures s.Tracked() && s.up && !s.polling && s.subs == old(s.subs)
    ensures was == old(s.lines)[id] && s.lines == old(s.lines)[id := now] && now.stops == was.stops + 1
  {
    var sub := s.subs[id];
    NotMoved(s.subs, id);
    var room, got, end := |Events(sub.events, head, head + 1)|, 0, Fine;
    ghost var out;
    got, end, out, was, now := s.Job(id, head + 1, can, room, false);
    MustStop(was, now, head, can, room, got, end, out);
  }

  /** The subscription stands before a block it cannot get past. */
  predicate Blocked(sub: Sub, head: nat) { !sub.pending && !sub.whole && sub.last == head && !sub.Clean(head + 1) }

  /** It can happen: the next block's first event can be delivered and its second
      cannot. The poller stops, the connection stays up, another subscription starts a
      new one, and the first event goes out again. */
  method SentTwice(id: Id, other: Id, events: nat -> seq<Event>, good: Event -> bool, head: nat) returns (s: Session)
    requires id != other && |events(head + 1)| == 2 && good(events(head + 1)[0]) && !good(events(head + 1)[1])
    ensures fresh(s) && s.up && id in s.subs && s.subs[id].last == head && s.Tracked()
    ensures s.lines[id].stream == [events(head + 1)[0], events(head + 1)[0]] && !Once(s.lines[id])
  {
    s := new Session();
    var can: Reads := (a, b) => true;
    s.Subscribe(id, events, good, false, false, head);
    assert Blocked(s.subs[id], head);
    ghost var was, now := StopsAt(s, id, head, can);
    s.Subscribe(other, events, good, false, false, head + 1);
    ghost var was', now' := StopsAt(s, id, head, can);
    TwiceOver(now', head);
  }

  lemma TwiceOver(l: Fed, head: nat)
    requires l.sub.start == l.sub.last == head && l.stops == 2
    requires |l.sub.events(head + 1)| == 2 && l.sub.good(l.sub.events(head + 1)[0])
    requires !l.sub.good(l.sub.events(head + 1)[1])
    ensures l.stream == [l.sub.events(head + 1)[0], l.sub.events(head + 1)[0]] && !Once(l)
  {
    var first := [l.sub.events(head + 1)[0]];
    assert Undeliverable(l.sub.events(head + 1), l.sub.good) == 1;
    assert l.sub.Head(head + 1) == first;
    assert Repeat(first, 2) == Repeat(first, 1) + first && Repeat(first, 1) == Repeat(first, 0) + first;
  }
}
