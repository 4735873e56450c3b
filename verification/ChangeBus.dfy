/** The in-process change feed of cluster/changestream.go: a ring of recent events, bounded
    per-subscriber queues, and a Publish that never waits for a slow reader. */
module ChangeBuses {

  const SUBSCRIBER_BUFFER: nat := 256
  const REPLAY_BUFFER: nat := 200

  datatype ChangeEvent = ChangeEvent(op: string, db: string, block: string, id: string, shardID: string, timestamp: int)

  /** The last n elements, or all of them when there are fewer. */
  function Last<T>(s: seq<T>, n: nat): seq<T> {
    if |s| <= n then s else s[|s| - n..]
  }

  /** Empty names are wildcards. */
  predicate Wants(db: string, block: string, ev: ChangeEvent) {
    (db == "" || db == ev.db) && (block == "" || block == ev.block)
  }

  function Matching(events: seq<ChangeEvent>, db: string, block: string): seq<ChangeEvent> {
    if events == [] then []
    else
      var init, ev := events[..|events| - 1], events[|events| - 1];
      Matching(init, db, block) + if Wants(db, block, ev) then [ev] else []
  }

  lemma MatchingSnoc(events: seq<ChangeEvent>, ev: ChangeEvent, db: string, block: string)
    ensures Matching(events + [ev], db, block) == Matching(events, db, block) + if Wants(db, block, ev) then [ev] else []
  {
    assert (events + [ev])[..|events|] == events;
  }

  /** Part of s in the order of s. */
  predicate Sublist<T(==)>(part: seq<T>, s: seq<T>) {
    if part == [] then true
    else if s == [] then false
    else
      || Sublist(part, s[..|s| - 1])
      || (part[|part| - 1] == s[|s| - 1] && Sublist(part[..|part| - 1], s[..|s| - 1]))
  }

  lemma SublistSnoc<T>(part: seq<T>, s: seq<T>, x: T)
    requires Sublist(part, s)
    ensures Sublist(part, s + [x]) && Sublist(part + [x], s + [x])
  {
    assert (s + [x])[..|s|] == s;
    assert (part + [x])[..|part|] == part;
  }

  lemma {:induction false} SublistSize<T>(part: seq<T>, s: seq<T>)
    requires Sublist(part, s)
    ensures |part| <= |s| && (|part| == |s| ==> part == s)
    decreases |s|
  {
    if part != [] {
      var init := s[..|s| - 1];
      if Sublist(part, init) {
        SublistSize(part, init);
      } else {
        SublistSize(part[..|part| - 1], init);
        assert part == part[..|part| - 1] + [part[|part| - 1]] && s == init + [s[|s| - 1]];
      }
    }
  }

  /** The slot of the i-th oldest element of a ring that starts at head. */
  function Slot(head: nat, i: nat, n: nat): (slot: nat)
    requires head < n && i < n
    ensures slot < n
  {
    if head + i < n then head + i else head + i - n
  }

  function Wrapped(k: nat, n: nat): nat
    requires n > 0
  {
    k % n
  }

  /** The source reaches that slot, and the next head, by a remainder. */
  lemma SlotIsRemainder(head: nat, i: nat, n: nat)
    requires head < n && i < n
    ensures Wrapped(head + i, n) == Slot(head, i, n)
    ensures Wrapped(head + 1, n) == Next(head, n)
  {
    hide Wrapped;
    WrappedOnce(head + i, n);
    WrappedOnce(head + 1, n);
  }

  lemma WrappedOnce(k: nat, n: nat)
    requires k < n + n
    ensures k < n ==> Wrapped(k, n) == k
    ensures n <= k < n + n ==> Wrapped(k, n) == k - n
  {
    var q, r := k / n, k % n;
    assert k == n * q + r && 0 <= r < n;
    assert q >= 2 ==> n * q >= n * 2;
  }

  /** The ring read from its head is window. */
  ghost predicate Holds<T>(ring: seq<T>, head: nat, window: seq<T>) {
    && head < |ring|
    && |window| <= |ring|
    && (|window| < |ring| ==> head == 0)
    && forall i :: 0 <= i < |window| ==> ring[Slot(head, i, |ring|)] == window[i]
  }

  lemma FillsFreeSlot<T>(ring: seq<T>, head: nat, window: seq<T>, x: T)
    requires Holds(ring, head, window) && |window| < |ring|
    ensures Holds(ring[Slot(head, |window|, |ring|) := x], head, window + [x])
  {
  }

  function Next(head: nat, n: nat): nat
    requires head < n
  {
    if head + 1 == n then 0 else head + 1
  }

  /** Overwriting the head and moving on drops the oldest element. */
  lemma DropsOldest<T>(ring: seq<T>, head: nat, window: seq<T>, x: T)
    requires Holds(ring, head, window) && |window| == |ring|
    ensures Holds(ring[head := x], Next(head, |ring|), window[1..] + [x])
  {
    var n := |ring|;
    var next := Next(head, n);
    forall i | 0 <= i < n
      ensures ring[head := x][Slot(next, i, n)] == (window[1..] + [x])[i]
    {
      if i < n - 1 {
        assert Slot(next, i, n) == Slot(head, i + 1, n) != head;
      }
    }
  }

  /** Appending to a window and cutting it again is cutting the whole history. */
  lemma LastSnoc<T>(s: seq<T>, x: T, n: nat)
    requires n > 0
    ensures |Last(s, n)| == if |s| < n then |s| else n
    ensures Last(s + [x], n) == if |s| < n then Last(s, n) + [x] else Last(s, n)[1..] + [x]
  {
  }

  /** A ring with room takes the event at the end of its window. */
  lemma RingFills(ring: seq<ChangeEvent>, head: nat, recorded: seq<ChangeEvent>, ev: ChangeEvent)
    requires Holds(ring, head, Last(recorded, |ring|)) && |Last(recorded, |ring|)| < |ring|
    ensures head < |ring|
    ensures
      var (n, k) := (|ring|, |Last(recorded, |ring|)|);
      && Wrapped(head + k, n) == Slot(head, k, n) && |Last(recorded + [ev], n)| == k + 1
      && Holds(ring[Slot(head, k, n) := ev], head, Last(recorded + [ev], n))
  {
    LastSnoc(recorded, ev, |ring|);
    SlotIsRemainder(head, |Last(recorded, |ring|)|, |ring|);
    FillsFreeSlot(ring, head, Last(recorded, |ring|), ev);
    hide Holds, Slot;
  }

  /** A full one drops its oldest. */
  lemma RingTurns(ring: seq<ChangeEvent>, head: nat, recorded: seq<ChangeEvent>, ev: ChangeEvent)
    requires Holds(ring, head, Last(recorded, |ring|)) && |Last(recorded, |ring|)| >= |ring| > 0
    ensures |Last(recorded, |ring|)| == |Last(recorded + [ev], |ring|)| == |ring| && head < |ring|
    ensures Holds(ring[head := ev], Wrapped(head + 1, |ring|), Last(recorded + [ev], |ring|))
  {
    LastSnoc(recorded, ev, |ring|);
    SlotIsRemainder(head, 0, |ring|);
    DropsOldest(ring, head, Last(recorded, |ring|), ev);
    hide Slot, Next, Wrapped;
  }

  class EventRing {
    const buf: array<ChangeEvent>
    var head: nat
    var count: nat
    ghost var recorded: seq<ChangeEvent>          // every event ever added

    /** The ring holds the end of everything recorded. */
    ghost predicate Valid()
      reads this, buf
    {
      && buf.Length > 0
      && count == |Last(recorded, buf.Length)|
      && Holds(buf[..], head, Last(recorded, buf.Length))
    }

    constructor (capacity: nat)
      requires capacity > 0
      ensures Valid() && buf.Length == capacity && recorded == [] && fresh(buf)
    {
      buf := new ChangeEvent[capacity](_ => ChangeEvent("", "", "", "", "", 0));
      head, count, recorded := 0, 0, [];
    }

    method Add(ev: ChangeEvent)
      requires Valid()
      modifies this, buf
      ensures Valid() && recorded == old(recorded) + [ev]
    {
      if count < buf.Length {
        Fill(ev);
      } else {
        Overwrite(ev);
      }
    }

    method Fill(ev: ChangeEvent)
      requires Valid() && count < buf.Length
      modifies this`count, this`recorded, buf
      ensures Valid() && recorded == old(recorded) + [ev]
    {
      hide Holds, Last, Wrapped, Slot, Next;
      ghost var ring := buf[..];
      RingFills(ring, head, recorded, ev);
      ghost var slot := Slot(head, count, buf.Length);
      buf[Wrapped(head + count, buf.Length)] := ev;
      assert buf[..] == ring[slot := ev];
      count := count + 1;
      recorded := recorded + [ev];
    }

    method Overwrite(ev: ChangeEvent)
      requires Valid() && count >= buf.Length
      modifies this`head, this`recorded, buf
      ensures Valid() && recorded == old(recorded) + [ev]
    {
      hide Holds, Last, Wrapped, Slot, Next;
      ghost var ring := buf[..];
      RingTurns(ring, head, recorded, ev);
      buf[head] := ev;
      assert buf[..] == ring[head := ev];
      head := Wrapped(head + 1, buf.Length);
      recorded := recorded + [ev];
    }

    method Length() returns (n: nat)
      requires Valid()
      ensures n == |Last(recorded, buf.Length)|
    {
      n := count;
    }

    method Get(i: nat) returns (ev: ChangeEvent)
      requires Valid() && i < count
      ensures ev == Last(recorded, buf.Length)[i]
    {
      ghost var slot := Slot(head, i, buf.Length);
      SlotIsRemainder(head, i, buf.Length);
      ev := buf[Wrapped(head + i, buf.Length)];
      assert ev == buf[..][slot];
    }
  }

  datatype Subscriber = Subscriber(queue: seq<ChangeEvent>, db: string, block: string)

  /** Where in the published events a subscription began, and what it has read. */
  datatype Reading = Reading(since: nat, received: seq<ChangeEvent>)

  /** The events a subscription has been owed. */
  ghost function Owed(s: Subscriber, r: Reading, published: seq<ChangeEvent>): seq<ChangeEvent>
    requires r.since <= |published|
  {
    Matching(published[r.since..], s.db, s.block)
  }

  /** Owed = received + queued + dropped, and what was not dropped kept its order. */
  ghost predicate Conserved(s: Subscriber, dropped: nat, r: Reading, published: seq<ChangeEvent>) {
    && r.since <= |published|
    && |s.queue| <= SUBSCRIBER_BUFFER
    && |Owed(s, r, published)| == |r.received| + |s.queue| + dropped
    && Sublist(r.received + s.queue, Owed(s, r, published))
  }

  /** What one offered event does to a subscriber: ignored, queued, or dropped and counted. */
  function Offered(s: Subscriber, ev: ChangeEvent): Subscriber {
    if Wants(s.db, s.block, ev) && |s.queue| < SUBSCRIBER_BUFFER then s.(queue := s.queue + [ev]) else s
  }

  function DroppedAfter(s: Subscriber, dropped: nat, ev: ChangeEvent): nat {
    if Wants(s.db, s.block, ev) && |s.queue| >= SUBSCRIBER_BUFFER then dropped + 1 else dropped
  }

  lemma OfferConserves(s: Subscriber, dropped: nat, r: Reading, published: seq<ChangeEvent>, ev: ChangeEvent)
    requires Conserved(s, dropped, r, published)
    ensures Conserved(Offered(s, ev), DroppedAfter(s, dropped, ev), r, published + [ev])
  {
    var owed := Owed(s, r, published);
    assert (published + [ev])[r.since..] == published[r.since..] + [ev];
    MatchingSnoc(published[r.since..], ev, s.db, s.block);
    SublistSnoc(r.received + s.queue, owed, ev);
    assert owed + [] == owed;
    assert r.received + (s.queue + [ev]) == r.received + s.queue + [ev];
  }

  lemma ReceiveConserves(s: Subscriber, dropped: nat, r: Reading, published: seq<ChangeEvent>)
    requires Conserved(s, dropped, r, published) && s.queue != []
    ensures Conserved(s.(queue := s.queue[1..]), dropped, r.(received := r.received + [s.queue[0]]), published)
  {
    assert r.received + [s.queue[0]] + s.queue[1..] == r.received + s.queue;
  }

  ghost predicate SubsOk(subs: map<nat, Subscriber>, dropped: map<nat, nat>, readings: map<nat, Reading>, nextID: nat,
                         published: seq<ChangeEvent>)
  {
    && subs.Keys == dropped.Keys == readings.Keys
    && (forall id :: id in subs ==> id <= nextID)
    && forall id :: id in subs ==> Conserved(subs[id], dropped[id], readings[id], published)
  }

  lemma SubscribeOk(subs: map<nat, Subscriber>, dropped: map<nat, nat>, readings: map<nat, Reading>, nextID: nat,
                    published: seq<ChangeEvent>, db: string, block: string)
    requires SubsOk(subs, dropped, readings, nextID, published)
    ensures
      var id := nextID + 1;
      id !in subs && SubsOk(subs[id := Subscriber([], db, block)], dropped[id := 0], readings[id := Reading(|published|, [])], id, published)
  {
    assert Conserved(Subscriber([], db, block), 0, Reading(|published|, []), published) by {
      assert published[|published|..] == [];
    }
    hide Conserved;
  }

  lemma UnsubscribeOk(subs: map<nat, Subscriber>, dropped: map<nat, nat>, readings: map<nat, Reading>, nextID: nat,
                      published: seq<ChangeEvent>, id: nat)
    requires SubsOk(subs, dropped, readings, nextID, published)
    ensures SubsOk(subs - {id}, dropped - {id}, readings - {id}, nextID, published)
    ensures id !in subs ==> subs - {id} == subs && dropped - {id} == dropped && readings - {id} == readings
  {
    hide Conserved;
  }

  /** Every subscriber after an offer, and every drop counter. */
  ghost predicate AllOffered(subs: map<nat, Subscriber>, dropped: map<nat, nat>, ev: ChangeEvent,
                             subs': map<nat, Subscriber>, dropped': map<nat, nat>)
    requires subs.Keys == dropped.Keys
  {
    && subs'.Keys == dropped'.Keys == subs.Keys
    && forall id :: id in subs ==> subs'[id] == Offered(subs[id], ev) && dropped'[id] == DroppedAfter(subs[id], dropped[id], ev)
  }

  /** Offering an event to all: who asked for it, where an empty name asks for every one, has it queued behind
      fewer than 256 others or counts it as dropped; the others see nothing of it. */
  lemma EachOffered(subs: map<nat, Subscriber>, dropped: map<nat, nat>, ev: ChangeEvent,
                    subs': map<nat, Subscriber>, dropped': map<nat, nat>)
    requires subs.Keys == dropped.Keys && AllOffered(subs, dropped, ev, subs', dropped')
    ensures subs'.Keys == subs.Keys && dropped'.Keys == dropped.Keys
    ensures forall id :: id in subs' ==>
      var (s, n) := (subs[id], dropped[id]);
      if (s.db == "" || s.db == ev.db) && (s.block == "" || s.block == ev.block) then
        if |s.queue| < 256 then subs'[id] == s.(queue := s.queue + [ev]) && dropped'[id] == n
        else subs'[id] == s && dropped'[id] == n + 1
      else subs'[id] == s && dropped'[id] == n
  {
  }

  lemma FanOutOk(subs: map<nat, Subscriber>, dropped: map<nat, nat>, readings: map<nat, Reading>, nextID: nat,
                 published: seq<ChangeEvent>, ev: ChangeEvent, subs': map<nat, Subscriber>, dropped': map<nat, nat>)
    requires SubsOk(subs, dropped, readings, nextID, published) && AllOffered(subs, dropped, ev, subs', dropped')
    ensures SubsOk(subs', dropped', readings, nextID, published + [ev])
  {
    hide Conserved, Offered, DroppedAfter;
    forall id | id in subs' ensures Conserved(subs'[id], dropped'[id], readings[id], published + [ev]) {
      OfferConserves(subs[id], dropped[id], readings[id], published, ev);
    }
  }

  /** Nothing was dropped exactly when the subscriber has, read or queued, all it was owed. */
  lemma NothingDroppedIffComplete(s: Subscriber, dropped: nat, r: Reading, published: seq<ChangeEvent>)
    requires Conserved(s, dropped, r, published)
    ensures dropped == 0 <==> r.received + s.queue == Owed(s, r, published)
  {
    SublistSize(r.received + s.queue, Owed(s, r, published));
  }

  class ChangeBus {
    var subs: map<nat, Subscriber>
    var nextID: nat
    var dropped: map<nat, nat>
    var bulkHint: bool
    const replay: EventRing
    ghost var readings: map<nat, Reading>
    ghost var published: seq<ChangeEvent>         // every event fanned out

    ghost predicate Valid()
      reads this, replay, replay.buf
    {
      && replay.Valid() && replay.buf.Length == REPLAY_BUFFER
      && SubsOk(subs, dropped, readings, nextID, published)
    }

    constructor ()
      ensures Valid() && subs == map[] && published == [] && replay.recorded == [] && !bulkHint
      ensures fresh(replay) && fresh(replay.buf)
    {
      subs, nextID, dropped, bulkHint := map[], 0, map[], false;
      replay := new EventRing(REPLAY_BUFFER);
      readings, published := map[], [];
    }

    /** A new id, owed the events published from here on. */
    method Subscribe(db: string, block: string) returns (id: nat)
      requires Valid()
      modifies this`subs, this`nextID, this`dropped, this`readings
      ensures Valid() && id !in old(subs) && published == old(published) && bulkHint == old(bulkHint)
      ensures subs == old(subs)[id := Subscriber([], db, block)] && dropped == old(dropped)[id := 0]
      ensures readings == old(readings)[id := Reading(|published|, [])]
    {
      hide EventRing.Valid, SubsOk;
      SubscribeOk(subs, dropped, readings, nextID, published, db, block);
      nextID := nextID + 1;
      id := nextID;
      subs := subs[id := Subscriber([], db, block)];
      dropped := dropped[id := 0];
      readings := readings[id := Reading(|published|, [])];
    }

    method Unsubscribe(id: nat)
      requires Valid()
      modifies this
      ensures Valid() && subs == old(subs) - {id} && dropped == old(dropped) - {id} && readings == old(readings) - {id}
      ensures published == old(published) && bulkHint == old(bulkHint)
    {
      hide EventRing.Valid, SubsOk;
      UnsubscribeOk(subs, dropped, readings, nextID, published, id);
      if id in subs {
        subs := subs - {id};
        dropped := dropped - {id};
        readings := readings - {id};
      }
    }

    method SetBulkModeHint(on: bool)
      requires Valid()
      modifies this`bulkHint
      ensures Valid() && bulkHint == on
    {
      bulkHint := on;
    }

    /** The oldest queued event, if there is one. */
    method Receive(id: nat) returns (events: seq<ChangeEvent>)
      requires Valid() && id in subs
      modifies this
      ensures Valid() && published == old(published) && dropped == old(dropped) && bulkHint == old(bulkHint)
      ensures |events| <= 1 && (events == [] <==> old(subs)[id].queue == [])
      ensures old(subs)[id].queue == events + subs[id].queue
      ensures subs == old(subs)[id := old(subs)[id].(queue := subs[id].queue)]
      ensures readings == old(readings)[id := Reading(old(readings)[id].since, old(readings)[id].received + events)]
    {
      hide Conserved;
      var s := subs[id];
      if s.queue == [] {
        assert readings[id].received + [] == readings[id].received;
        return [];
      }
      ReceiveConserves(s, dropped[id], readings[id], published);
      events := [s.queue[0]];
      subs := subs[id := s.(queue := s.queue[1..])];
      readings := readings[id := readings[id].(received := readings[id].received + events)];
    }

    /** Publish's first lock section: in bulk mode with no subscriber the event is forgotten. */
    method Skipped() returns (skip: bool)
      ensures skip <==> bulkHint && subs == map[]
    {
      skip := bulkHint && |subs| == 0;
    }

    /** Publish's second lock section. */
    method Record(ev: ChangeEvent)
      requires Valid()
      modifies replay, replay.buf
      ensures Valid() && replay.recorded == old(replay.recorded) + [ev]
    {
      replay.Add(ev);
    }

    /** Publish's third lock section: every subscriber is offered the event once, in any order. */
    method FanOut(ev: ChangeEvent)
      requires Valid()
      modifies this
      ensures Valid() && published == old(published) + [ev] && readings == old(readings)
      ensures bulkHint == old(bulkHint) && nextID == old(nextID)
      ensures old(subs.Keys == dropped.Keys) && AllOffered(old(subs), old(dropped), ev, subs, dropped)
    {
      assert subs.Keys == dropped.Keys;
      hide EventRing.Valid, SubsOk, AllOffered;
      OfferAll(ev);
      FanOutOk(old(subs), old(dropped), readings, nextID, published, ev, subs, dropped);
      published := published + [ev];
    }

    method OfferAll(ev: ChangeEvent)
      requires subs.Keys == dropped.Keys
      modifies this`subs, this`dropped
      ensures AllOffered(old(subs), old(dropped), ev, subs, dropped)
    {
      hide Offered, DroppedAfter;
      ghost var subs0, dropped0 := subs, dropped;
      var todo := subs.Keys;
      while todo != {}
        invariant todo <= subs0.Keys && subs.Keys == dropped.Keys == subs0.Keys
        invariant forall id :: id in todo ==> subs[id] == subs0[id] && dropped[id] == dropped0[id]
        invariant forall id :: id in subs && id !in todo ==>
                    subs[id] == Offered(subs0[id], ev) && dropped[id] == DroppedAfter(subs0[id], dropped0[id], ev)
      {
        var id :| id in todo;
        Offer(id, ev);
        todo := todo - {id};
      }
    }

    /** One iteration of the fan-out: the filters, then a send that does not wait. */
    method Offer(id: nat, ev: ChangeEvent)
      requires id in subs && id in dropped
      modifies this`subs, this`dropped
      ensures subs == old(subs)[id := Offered(old(subs)[id], ev)]
      ensures dropped == old(dropped)[id := DroppedAfter(old(subs)[id], old(dropped)[id], ev)]
    {
      var sub := subs[id];
      if sub.db != "" && sub.db != ev.db {
        return;
      }
      if sub.block != "" && sub.block != ev.block {
        return;
      }
      if |sub.queue| < SUBSCRIBER_BUFFER {
        subs := subs[id := sub.(queue := sub.queue + [ev])];
      } else {
        dropped := dropped[id := dropped[id] + 1];
      }
    }

    /** Publish without another publisher in between. */
    method Publish(ev: ChangeEvent)
      requires Valid()
      modifies this, replay, replay.buf
      ensures Valid() && readings == old(readings) && bulkHint == old(bulkHint)
      ensures
        if old(bulkHint) && old(subs) == map[] then
          published == old(published) && replay.recorded == old(replay.recorded) && subs == old(subs)
        else
          && published == old(published) + [ev] && replay.recorded == old(replay.recorded) + [ev]
          && old(subs.Keys == dropped.Keys) && AllOffered(old(subs), old(dropped), ev, subs, dropped)
    {
      var skip := Skipped();
      if skip {
        return;
      }
      Record(ev);
      FanOut(ev);
    }

    /** The matching ones of the last 200 recorded events, oldest first. */
    method RecentEvents(db: string, block: string) returns (out: seq<ChangeEvent>)
      requires Valid()
      ensures out == Matching(Last(replay.recorded, REPLAY_BUFFER), db, block)
    {
      var n := replay.Length();
      ghost var recent := Last(replay.recorded, REPLAY_BUFFER);
      out := [];
      for i := 0 to n
        invariant out == Matching(recent[..i], db, block)
      {
        var ev := replay.Get(i);
        assert recent[..i + 1] == recent[..i] + [ev];
        MatchingSnoc(recent[..i], ev, db, block);
        if db != "" && ev.db != db {
          continue;
        }
        if block != "" && ev.block != block {
          continue;
        }
        out := out + [ev];
      }
      assert recent[..n] == recent;
    }
  }

  lemma {:induction false} MatchingCounts(events: seq<ChangeEvent>, db: string, block: string)
    ensures forall ev :: multiset(Matching(events, db, block))[ev] ==
                         if (db == "" || db == ev.db) && (block == "" || block == ev.block) then multiset(events)[ev] else 0
  {
    if events != [] {
      var init, last := events[..|events| - 1], events[|events| - 1];
      MatchingCounts(init, db, block);
      assert events == init + [last];
    }
  }

  /** A reader of the recent events gets, as often and in the order in which they were recorded, those of the last
      200 that it asked for. */
  lemma RecentMeaning(recorded: seq<ChangeEvent>, db: string, block: string)
    ensures
      var n := |recorded|;
      var (last, out) := (if n <= 200 then recorded else recorded[n - 200..], Matching(Last(recorded, REPLAY_BUFFER), db, block));
      && Sublist(out, last)
      && forall ev: ChangeEvent :: multiset(out)[ev] == if (db == "" || db == ev.db) && (block == "" || block == ev.block) then multiset(last)[ev] else 0
  {
    MatchingCounts(Last(recorded, REPLAY_BUFFER), db, block);
    MatchingIsSublist(Last(recorded, REPLAY_BUFFER), db, block);
    hide Matching, Sublist;
  }

  // ---- several publishers ----

  lemma {:induction false} MatchingIsSublist(events: seq<ChangeEvent>, db: string, block: string)
    ensures Sublist(Matching(events, db, block), events)
  {
    if events != [] {
      var init, ev := events[..|events| - 1], events[|events| - 1];
      MatchingIsSublist(init, db, block);
      SublistSnoc(Matching(init, db, block), init, ev);
      assert init + [ev] == events && Matching(init, db, block) + [] == Matching(init, db, block);
    }
  }

  lemma {:induction false} SublistTrans<T>(a: seq<T>, b: seq<T>, c: seq<T>)
    requires Sublist(a, b) && Sublist(b, c)
    ensures Sublist(a, c)
    decreases |c|, |b|
  {
    if a != [] && b != [] {
      var init := c[..|c| - 1];
      if Sublist(b, init) {
        SublistTrans(a, b, init);
      } else if Sublist(a, b[..|b| - 1]) {
        SublistTrans(a, b[..|b| - 1], init);
      } else {
        SublistTrans(a[..|a| - 1], b[..|b| - 1], init);
      }
    }
  }

  /** A stretch of a sequence is a sublist of it. */
  lemma {:induction false} StretchIsSublist<T>(s: seq<T>, i: nat, j: nat)
    requires i <= j <= |s|
    ensures Sublist(s[i..j], s)
    decreases |s|
  {
    if i < j {
      var init := s[..|s| - 1];
      if j < |s| {
        SameStretch(s, |s| - 1, i, j);
        StretchIsSublist(init, i, j);
      } else {
        SameStretch(s, |s| - 1, i, j - 1);
        ShorterStretch(s, i, j);
        StretchIsSublist(init, i, j - 1);
      }
    }
  }

  lemma SameStretch<T>(s: seq<T>, n: nat, i: nat, j: nat)
    requires i <= j <= n <= |s|
    ensures s[..n][i..j] == s[i..j]
  {
  }

  lemma ShorterStretch<T>(s: seq<T>, i: nat, j: nat)
    requires i < j <= |s|
    ensures s[i..j][..j - i - 1] == s[i..j - 1] && s[i..j][j - i - 1] == s[j - 1]
  {
  }

  /** A publisher between recording its event and fanning it out. */
  datatype Flight = Flight(publisher: nat, ev: ChangeEvent)

  function EventsOf(flights: seq<Flight>): seq<ChangeEvent> {
    seq(|flights|, i requires 0 <= i < |flights| => flights[i].ev)
  }

  /** Publishers at work on one bus, each with its two lock sections. */
  class Publishers {
    const bus: ChangeBus
    var flights: seq<Flight>                      // recorded and not yet fanned out, in recording order
    ghost var start: nat                          // how many events the ring had recorded, and the bus fanned out,
    ghost var before: nat                         // when these publishers began
    ghost var inOrder: bool                       // so far every fan-out was that of the oldest flight

    /** The events recorded since. */
    ghost function Recorded(): seq<ChangeEvent>
      requires start <= |bus.replay.recorded|
      reads this, bus, bus.replay
    {
      bus.replay.recorded[start..]
    }

    ghost function FannedOut(): seq<ChangeEvent>
      requires before <= |bus.published|
      reads this, bus
    {
      bus.published[before..]
    }

    ghost predicate Valid()
      reads this, bus, bus.replay, bus.replay.buf
    {
      && bus.Valid() && start <= |bus.replay.recorded| && before <= |bus.published|
      && (inOrder ==> FannedOut() + EventsOf(flights) == Recorded())
    }

    constructor (bus: ChangeBus)
      requires bus.Valid()
      ensures Valid() && this.bus == bus && flights == [] && inOrder
      ensures start == |bus.replay.recorded| && before == |bus.published|
    {
      this.bus, flights, inOrder := bus, [], true;
      start, before := |bus.replay.recorded|, |bus.published|;
    }

    /** A publisher's first sections: the event is recorded, unless bulk mode without subscribers drops it. */
    method Begin(publisher: nat, ev: ChangeEvent) returns (skipped: bool)
      requires Valid()
      modifies this`flights, bus.replay, bus.replay.buf
      ensures Valid() && (skipped <==> bus.bulkHint && bus.subs == map[])
      ensures flights == if skipped then old(flights) else old(flights) + [Flight(publisher, ev)]
      ensures bus.replay.recorded == if skipped then old(bus.replay.recorded) else old(bus.replay.recorded) + [ev]
    {
      hide EventRing.Valid, SubsOk;
      skipped := bus.Skipped();
      if skipped { return; }
      ghost var recorded0 := Recorded();
      bus.Record(ev);
      flights := flights + [Flight(publisher, ev)];
      assert Recorded() == recorded0 + [ev];
      assert EventsOf(flights) == EventsOf(old(flights)) + [ev];
    }

    /** A publisher's last section, flight i. In order so far, the events fanned out stay the recorded ones in
        recording order exactly when this event is that of the oldest flight. */
    method Finish(i: nat)
      requires Valid() && i < |flights|
      modifies this`flights, this`inOrder, bus
      ensures Valid() && flights == old(flights)[..i] + old(flights)[i + 1..] && inOrder == (old(inOrder) && i == 0)
      ensures bus.published == old(bus.published) + [old(flights)[i].ev] && bus.replay.recorded == old(bus.replay.recorded)
      ensures start == old(start) && before == old(before)
      ensures old(inOrder) ==> (FannedOut() <= Recorded() <==> old(flights)[i].ev == old(flights)[0].ev)
      ensures old(bus.subs.Keys == bus.dropped.Keys) && AllOffered(old(bus.subs), old(bus.dropped), old(flights)[i].ev, bus.subs, bus.dropped)
      ensures bus.readings == old(bus.readings) && bus.bulkHint == old(bus.bulkHint)
    {
      hide EventRing.Valid, SubsOk, AllOffered;
      ghost var out0, flying, recorded := FannedOut(), EventsOf(flights), Recorded();
      var ev := flights[i].ev;
      bus.FanOut(ev);
      assert FannedOut() == out0 + [ev];
      flights := flights[..i] + flights[i + 1..];
      if inOrder {
        assert recorded == out0 + flying && flying[0] == old(flights)[0].ev;
        if i == 0 {
          assert flying == [ev] + EventsOf(flights);
          assert out0 + [ev] + EventsOf(flights) == recorded;
        }
        NextIsOldest(out0, flying, ev);
      }
      inOrder := inOrder && i == 0;
    }

    /** As long as fan-outs follow the order of recording, what a subscriber of these publishers has read and
        queued is part of the recorded events, in their order. */
    lemma QueuesFollowTheRing(id: nat)
      requires Valid() && inOrder && id in bus.subs && id in bus.readings && bus.readings[id].since >= before
      ensures Sublist(bus.readings[id].received + bus.subs[id].queue, Recorded())
    {
      var s, r := bus.subs[id], bus.readings[id];
      assert Conserved(s, bus.dropped[id], r, bus.published);
      QueueFollows(s, bus.dropped[id], r, bus.published, before, EventsOf(flights));
    }
  }

  lemma NextIsOldest(out0: seq<ChangeEvent>, flying: seq<ChangeEvent>, ev: ChangeEvent)
    requires flying != []
    ensures out0 + [ev] <= out0 + flying <==> ev == flying[0]
  {
    assert (out0 + flying)[|out0|] == flying[0] && (out0 + [ev])[|out0|] == ev;
    assert (out0 + flying)[..|out0|] == out0;
    if ev == flying[0] {
      assert (out0 + flying)[..|out0| + 1] == out0 + [ev];
    }
  }

  lemma QueueFollows(s: Subscriber, dropped: nat, r: Reading, published: seq<ChangeEvent>, before: nat, flying: seq<ChangeEvent>)
    requires Conserved(s, dropped, r, published) && before <= r.since
    ensures Sublist(r.received + s.queue, published[before..] + flying)
  {
    var out, owed := published[before..], Owed(s, r, published);
    var recorded := out + flying;
    MatchingIsSublist(published[r.since..], s.db, s.block);
    StretchIsSublist(recorded, r.since - before, |out|);
    assert recorded[r.since - before..|out|] == published[r.since..];
    SublistTrans(owed, published[r.since..], recorded);
    SublistTrans(r.received + s.queue, owed, recorded);
  }

  /** Two publishers that both record before either fans out: a subscriber that wants both events and has room
      gets them in recording order exactly when the fan-outs are not swapped, or the events are the same. */
  method TwoPublishers(bus: ChangeBus, id: nat, a: ChangeEvent, b: ChangeEvent, swapped: bool)
    requires bus.Valid() && id in bus.subs && |bus.subs[id].queue| + 2 <= SUBSCRIBER_BUFFER
    requires Wants(bus.subs[id].db, bus.subs[id].block, a) && Wants(bus.subs[id].db, bus.subs[id].block, b)
    modifies bus, bus.replay, bus.replay.buf
    ensures bus.Valid() && id in bus.subs
    ensures bus.replay.recorded == old(bus.replay.recorded) + [a, b]
    ensures bus.subs[id].queue == old(bus.subs[id].queue) + if swapped then [b, a] else [a, b]
    ensures bus.subs[id].queue == old(bus.subs[id].queue) + [a, b] <==> !swapped || a == b
  {
    hide EventRing.Valid, SubsOk, AllOffered, Offered, DroppedAfter;
    SubsOkKeys(bus.subs, bus.dropped, bus.readings, bus.nextID, bus.published);
    ghost var q0 := bus.subs[id].queue;
    var (x, y) := if swapped then (b, a) else (a, b);
    bus.Record(a);
    bus.Record(b);
    assert bus.replay.recorded == old(bus.replay.recorded) + [a, b];
    ghost var before, counts := bus.subs, bus.dropped;
    bus.FanOut(x);
    QueuedAfter(before, counts, x, bus.subs, bus.dropped, id);
    ghost var between, counts' := bus.subs, bus.dropped;
    bus.FanOut(y);
    QueuedAfter(between, counts', y, bus.subs, bus.dropped, id);
    assert bus.subs[id].queue == q0 + [x, y];
    SameTail(q0, [x, y], [a, b]);
  }

  lemma SubsOkKeys(subs: map<nat, Subscriber>, dropped: map<nat, nat>, readings: map<nat, Reading>, nextID: nat,
                   published: seq<ChangeEvent>)
    requires SubsOk(subs, dropped, readings, nextID, published)
    ensures subs.Keys == dropped.Keys
  {
  }

  lemma SameTail(q: seq<ChangeEvent>, s: seq<ChangeEvent>, t: seq<ChangeEvent>)
    requires |s| == |t| == 2
    ensures q + s == q + t <==> s[0] == t[0] && s[1] == t[1]
  {
    assert (q + s)[|q|..] == s && (q + t)[|q|..] == t;
  }

  lemma QueuedAfter(subs: map<nat, Subscriber>, dropped: map<nat, nat>, ev: ChangeEvent,
                    subs': map<nat, Subscriber>, dropped': map<nat, nat>, id: nat)
    requires subs.Keys == dropped.Keys && AllOffered(subs, dropped, ev, subs', dropped')
    requires id in subs && Wants(subs[id].db, subs[id].block, ev) && |subs[id].queue| < SUBSCRIBER_BUFFER
    ensures id in subs' && subs'[id] == subs[id].(queue := subs[id].queue + [ev])
  {
  }
}
