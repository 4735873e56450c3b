/** Allow as it runs: the lookup under the shared lock, then either the creation of a client record, which
    looks no second time, or a spend on the record found, whatever became of it meanwhile. Calls whose first
    sections do not overlap are the atomic Allow; overlapping ones get a bound of their own. */
module LimiterRaces {
  import opened Options
  import opened RateLimiting

  // ---- the grants of a key, record by record ----

  function GrantsOf(tracks: seq<Track>, owners: seq<string>, key: string): seq<int>
    requires |tracks| == |owners|
  {
    if tracks == [] then []
    else
      var n := |tracks| - 1;
      GrantsOf(tracks[..n], owners[..n], key) + if owners[n] == key then tracks[n].granted else []
  }

  function Owned(owners: seq<string>, key: string): nat {
    if owners == [] then 0 else Owned(owners[..|owners| - 1], key) + if owners[|owners| - 1] == key then 1 else 0
  }

  lemma GrantsSnoc(tracks: seq<Track>, owners: seq<string>, key: string, t: Track, owner: string)
    requires |tracks| == |owners|
    ensures GrantsOf(tracks + [t], owners + [owner], key) == GrantsOf(tracks, owners, key) + if owner == key then t.granted else []
    ensures Owned(owners + [owner], key) == Owned(owners, key) + if owner == key then 1 else 0
  {
    assert (tracks + [t])[..|tracks|] == tracks && (owners + [owner])[..|owners|] == owners;
  }

  /** One more grant from record i. */
  lemma {:induction false} GrantsUpdate(tracks: seq<Track>, owners: seq<string>, key: string, i: nat, t: Track, now: int)
    requires |tracks| == |owners| && i < |tracks| && t.granted == tracks[i].granted + [now]
    ensures multiset(GrantsOf(tracks[i := t], owners, key)) ==
            multiset(GrantsOf(tracks, owners, key)) + multiset(if owners[i] == key then [now] else [])
    decreases |tracks|
  {
    hide GrantsOf;
    var n := |tracks| - 1;
    var after := tracks[i := t];
    LastRecord(tracks, owners, key);
    LastRecord(after, owners, key);
    if i < n {
      GrantsUpdate(tracks[..n], owners[..n], key, i, t, now);
      assert after[..n] == tracks[..n][i := t];
    } else {
      assert after[..n] == tracks[..n];
      assert owners[n] == key ==> multiset(t.granted) == multiset(tracks[n].granted) + multiset([now]);
    }
  }

  lemma LastRecord(tracks: seq<Track>, owners: seq<string>, key: string)
    requires |tracks| == |owners| > 0
    ensures
      var n := |tracks| - 1;
      multiset(GrantsOf(tracks, owners, key)) ==
      multiset(GrantsOf(tracks[..n], owners[..n], key)) + multiset(if owners[n] == key then tracks[n].granted else [])
  {
  }

  lemma {:induction false} CountRemove(times: seq<int>, i: nat, from: int, until: int)
    requires i < |times|
    ensures CountIn(times, from, until) == CountIn(times[..i] + times[i + 1..], from, until) + if from <= times[i] < until then 1 else 0
  {
    CountConcat(times[..i], times[i..], from, until);
    CountConcat([times[i]], times[i + 1..], from, until);
    CountConcat(times[..i], times[i + 1..], from, until);
    assert times == times[..i] + times[i..] && times[i..] == [times[i]] + times[i + 1..];
    assert [times[i]][..0] == [];
  }

  lemma RemoveElement(s: seq<int>, i: nat)
    requires i < |s|
    ensures multiset(s[..i] + s[i + 1..]) == multiset(s) - multiset{s[i]} && s[i] in multiset(s)
  {
    assert s == s[..i] + [s[i]] + s[i + 1..];
  }

  /** Counting does not depend on the order. */
  lemma {:induction false} CountByElements(a: seq<int>, b: seq<int>, from: int, until: int)
    requires multiset(a) == multiset(b)
    ensures CountIn(a, from, until) == CountIn(b, from, until)
    decreases |a|
  {
    assert |multiset(a)| == |a| && |multiset(b)| == |b|;
    if a != [] {
      hide CountIn;
      var n := |a| - 1;
      RemoveElement(a, n);
      assert a[n] in multiset(b);
      var i :| 0 <= i < |b| && b[i] == a[n];
      RemoveElement(b, i);
      CountByElements(a[..n] + a[n + 1..], b[..i] + b[i + 1..], from, until);
      CountRemove(a, n, from, until);
      CountRemove(b, i, from, until);
    }
  }

  // ---- the limiter in two lock sections ----

  ghost predicate RecordOk(records: seq<Client>, tracks: seq<Track>, rate: int, window: int, clock: int, i: int)
    requires |records| == |tracks| && 0 <= i < |records|
  {
    Tracks(tracks[i], Some(records[i]), rate, window, clock)
  }

  ghost predicate RecordsOk(records: seq<Client>, tracks: seq<Track>, rate: int, window: int, clock: int) {
    && |records| == |tracks|
    && forall i :: 0 <= i < |records| ==> RecordOk(records, tracks, rate, window, clock, i)
  }

  /** Every record on its own keeps the epochs of one bucket, however calls interleave. */
  class SplitLimiter {
    const rate: int
    const window: int
    var records: seq<Client>                      // every record ever created; calls hold their positions
    var clients: map<string, nat>
    ghost var owners: seq<string>
    ghost var tracks: seq<Track>
    ghost var clock: int

    ghost predicate Valid()
      reads this
    {
      && window > 0 && |owners| == |records|
      && RecordsOk(records, tracks, rate, window, clock)
      && forall key :: key in clients ==> clients[key] < |records| && owners[clients[key]] == key
    }

    constructor (rate: int, window: int, ghost start: int)
      requires window > 0
      ensures Valid() && this.rate == rate && this.window == window && clock == start
      ensures clients == map[] && records == [] && owners == [] && tracks == []
    {
      this.rate, this.window := rate, window;
      records, clients, owners, tracks, clock := [], map[], [], [], start;
    }

    ghost function Granted(key: string): seq<int>
      requires Valid()
      reads this
    {
      GrantsOf(tracks, owners, key)
    }

    /** The first section: the record the key has now, if any. */
    method LookUp(key: string) returns (found: Option<nat>)
      requires Valid()
      ensures found == if key in clients then Some(clients[key]) else None
      ensures found.Some? ==> found.value < |records| && owners[found.value] == key
    {
      found := if key in clients then Some(clients[key]) else None;
    }

    /** The second section of a call that found nothing. */
    method Create(key: string, now: int)
      requires Valid() && now >= clock
      modifies this
      ensures Valid() && clock == now
      ensures records == old(records) + [Client(rate - 1, now)] && clients == old(clients)[key := |old(records)|]
      ensures owners == old(owners) + [key] && tracks == old(tracks) + [Track([Epoch(now, [now])], [now])]
    {
      hide Tracks;
      LaterRecords(records, tracks, rate, window, clock, now);
      NewRecord(rate, window, clock, now);
      AppendRecord(records, tracks, rate, window, now, Client(rate - 1, now), Track([Epoch(now, [now])], [now]));
      clients := clients[key := |records|];
      records := records + [Client(rate - 1, now)];
      owners := owners + [key];
      tracks := tracks + [Track([Epoch(now, [now])], [now])];
      clock := now;
    }

    /** The second section of a call that found this record, replaced or forgotten though it may be. */
    method Spend(ref: nat, now: int) returns (ok: bool)
      requires Valid() && now >= clock && ref < |records|
      modifies this
      ensures Valid() && clock == now && clients == old(clients) && owners == old(owners)
      ensures ok <==> now - old(records)[ref].lastReset >= window || old(records)[ref].tokens > 0
      ensures records == if ok then old(records)[ref := AfterGrant(Some(old(records)[ref]), rate, window, now)] else old(records)
      ensures !ok ==> tracks == old(tracks)
      ensures ok ==> exists t: Track :: t.granted == old(tracks)[ref].granted + [now] && tracks == old(tracks)[ref := t]
    {
      ghost var c, h, clock0 := records[ref], tracks[ref], clock;
      assert RecordOk(records, tracks, rate, window, clock, ref);
      LaterRecords(records, tracks, rate, window, clock, now);
      hide Tracks;
      clock := now;
      ghost var t;
      if now - records[ref].lastReset >= window {
        RefillTracks(h, Some(c), rate, window, clock0, now);
        UpdateRecord(records, tracks, rate, window, now, ref, Client(rate - 1, now),
                     Track(h.epochs + [Epoch(now, [now])], h.granted + [now]));
        t := Track(h.epochs + [Epoch(now, [now])], h.granted + [now]);
        records := records[ref := Client(rate - 1, now)];
        ok := true;
      } else if records[ref].tokens > 0 {
        SpendTracks(h, c, rate, window, clock0, now);
        UpdateRecord(records, tracks, rate, window, now, ref, c.(tokens := c.tokens - 1), Spent(h, now));
        t := Spent(h, now);
        records := records[ref := records[ref].(tokens := records[ref].tokens - 1)];
        ok := true;
      } else {
        return false;
      }
      tracks := tracks[ref := t];
    }

    method Cleanup(now: int)
      requires Valid() && now >= clock
      modifies this`clients, this`clock
      ensures Valid() && clock == now
      ensures clients == map key <- old(clients) | now - records[old(clients)[key]].lastReset <= window * 2 :: old(clients)[key]
    {
      hide Tracks;
      LaterRecords(records, tracks, rate, window, clock, now);
      clients := map key <- clients | now - records[clients[key]].lastReset <= window * 2 :: clients[key];
      clock := now;
    }

    /** Over every schedule whatsoever: each record ever created for a key, one per call that found none, adds at
        most what the atomic limiter grants to any interval one window long. Records long replaced count too,
        since calls may still hold them. */
    lemma BoundByRecords(key: string, from: int)
      requires Valid()
      ensures CountIn(Granted(key), from, from + window) <= Owned(owners, key) * (2 * Max(rate, 1) - 1)
    {
      RecordsBound(records, tracks, owners, rate, window, clock, key, from);
    }

    /** And to the first window of the key at most one bucket. */
    lemma BoundInFirstWindow(key: string, start: int)
      requires Valid() && StartsFrom(tracks, owners, key, start)
      ensures CountIn(Granted(key), start, start + window) <= Owned(owners, key) * Max(rate, 1)
    {
      FirstWindowBound(records, tracks, owners, rate, window, clock, key, start);
    }
  }

  lemma LaterRecords(records: seq<Client>, tracks: seq<Track>, rate: int, window: int, clock: int, now: int)
    requires RecordsOk(records, tracks, rate, window, clock) && clock <= now
    ensures RecordsOk(records, tracks, rate, window, now)
  {
    hide Tracks;
    forall i | 0 <= i < |records| ensures RecordOk(records, tracks, rate, window, now, i) {
      assert RecordOk(records, tracks, rate, window, clock, i);
      LaterTracks(tracks[i], Some(records[i]), rate, window, clock, now);
    }
  }

  lemma AppendRecord(records: seq<Client>, tracks: seq<Track>, rate: int, window: int, clock: int, c: Client, h: Track)
    requires RecordsOk(records, tracks, rate, window, clock) && Tracks(h, Some(c), rate, window, clock)
    ensures RecordsOk(records + [c], tracks + [h], rate, window, clock)
  {
    hide Tracks;
    forall i | 0 <= i <= |records| ensures RecordOk(records + [c], tracks + [h], rate, window, clock, i) {
      if i < |records| {
        assert RecordOk(records, tracks, rate, window, clock, i);
      }
    }
  }

  lemma UpdateRecord(records: seq<Client>, tracks: seq<Track>, rate: int, window: int, clock: int, ref: nat, c: Client, h: Track)
    requires RecordsOk(records, tracks, rate, window, clock) && Tracks(h, Some(c), rate, window, clock) && ref < |records|
    ensures RecordsOk(records[ref := c], tracks[ref := h], rate, window, clock)
  {
    hide Tracks;
    var records', tracks' := records[ref := c], tracks[ref := h];
    forall i | 0 <= i < |records| ensures RecordOk(records', tracks', rate, window, clock, i) {
      assert RecordOk(records, tracks, rate, window, clock, i);
    }
  }

  lemma NewRecord(rate: int, window: int, clock: int, now: int)
    requires window > 0 && clock <= now
    ensures Tracks(Track([Epoch(now, [now])], [now]), Some(Client(rate - 1, now)), rate, window, now)
  {
    RefillTracks(Track([], []), None, rate, window, clock, now);
    assert [] + [Epoch(now, [now])] == [Epoch(now, [now])] && [] + [now] == [now];
  }

  /** The key had no record before start. */
  ghost predicate StartsFrom(tracks: seq<Track>, owners: seq<string>, key: string, start: int)
    requires |tracks| == |owners|
  {
    forall i, t :: 0 <= i < |tracks| && owners[i] == key && t in tracks[i].granted ==> start <= t
  }

  lemma RecordBound(h: Track, c: Client, rate: int, window: int, clock: int, from: int)
    requires Tracks(h, Some(c), rate, window, clock) && window > 0
    ensures CountIn(h.granted, from, from + window) <= 2 * Max(rate, 1) - 1
  {
    WindowBound(h.epochs, Max(rate, 1), window, from);
  }

  lemma {:induction false} RecordsBound(records: seq<Client>, tracks: seq<Track>, owners: seq<string>,
                                        rate: int, window: int, clock: int, key: string, from: int)
    requires RecordsOk(records, tracks, rate, window, clock) && |owners| == |records| && window > 0
    ensures CountIn(GrantsOf(tracks, owners, key), from, from + window) <= Owned(owners, key) * (2 * Max(rate, 1) - 1)
    decreases |records|
  {
    hide Tracks, Max, CountIn;
    if records != [] {
      var n := |records| - 1;
      Init(records, tracks, rate, window, clock);
      RecordsBound(records[..n], tracks[..n], owners[..n], rate, window, clock, key, from);
      assert RecordOk(records, tracks, rate, window, clock, n);
      CountConcat(GrantsOf(tracks[..n], owners[..n], key), tracks[n].granted, from, from + window);
      RecordBound(tracks[n], records[n], rate, window, clock, from);
      Distribute(Owned(owners[..n], key), 2 * Max(rate, 1) - 1);
      assert GrantsOf(tracks[..n], owners[..n], key) + [] == GrantsOf(tracks[..n], owners[..n], key);
    } else {
      assert CountIn([], from, from + window) == 0 by { CountSize([], from, from + window); }
    }
  }

  lemma Distribute(k: int, c: int)
    ensures (k + 1) * c == k * c + c
  {
  }

  lemma Init(records: seq<Client>, tracks: seq<Track>, rate: int, window: int, clock: int)
    requires RecordsOk(records, tracks, rate, window, clock) && records != []
    ensures RecordsOk(records[..|records| - 1], tracks[..|records| - 1], rate, window, clock)
  {
    hide Tracks;
    var n := |records| - 1;
    forall i | 0 <= i < n ensures RecordOk(records[..n], tracks[..n], rate, window, clock, i) {
      assert RecordOk(records, tracks, rate, window, clock, i);
    }
  }

  lemma FirstRecordBound(h: Track, c: Client, rate: int, window: int, clock: int, start: int)
    requires Tracks(h, Some(c), rate, window, clock) && window > 0 && forall t :: t in h.granted ==> start <= t
    ensures CountIn(h.granted, start, start + window) <= Max(rate, 1)
  {
    FirstEpochOnly(h.epochs, Max(rate, 1), window, start);
  }

  lemma {:induction false} FirstWindowBound(records: seq<Client>, tracks: seq<Track>, owners: seq<string>,
                                            rate: int, window: int, clock: int, key: string, start: int)
    requires RecordsOk(records, tracks, rate, window, clock) && |owners| == |records| && window > 0
    requires StartsFrom(tracks, owners, key, start)
    ensures CountIn(GrantsOf(tracks, owners, key), start, start + window) <= Owned(owners, key) * Max(rate, 1)
    decreases |records|
  {
    hide Tracks, Max, CountIn;
    if records != [] {
      var n := |records| - 1;
      Init(records, tracks, rate, window, clock);
      FirstWindowBound(records[..n], tracks[..n], owners[..n], rate, window, clock, key, start);
      assert RecordOk(records, tracks, rate, window, clock, n);
      CountConcat(GrantsOf(tracks[..n], owners[..n], key), tracks[n].granted, start, start + window);
      if owners[n] == key {
        FirstRecordBound(tracks[n], records[n], rate, window, clock, start);
      }
      Distribute(Owned(owners[..n], key), Max(rate, 1));
      assert GrantsOf(tracks[..n], owners[..n], key) + [] == GrantsOf(tracks[..n], owners[..n], key);
    } else {
      assert CountIn([], start, start + window) == 0 by { CountSize([], start, start + window); }
    }
  }

  /** Of epochs that all start in or after a window, one meets it. */
  lemma {:induction false} FirstEpochOnly(epochs: seq<Epoch>, cap: int, window: int, start: int)
    requires WellSpaced(epochs, cap, window) && window > 0 && cap >= 1
    requires forall t :: t in Flatten(epochs) ==> start <= t
    ensures CountIn(Flatten(epochs), start, start + window) <= cap
  {
    if epochs != [] {
      var init, last := epochs[..|epochs| - 1], epochs[|epochs| - 1];
      assert Within(last, cap, window);
      CountConcat(Flatten(init), last.grants, start, start + window);
      assert forall t :: t in Flatten(init) ==> t in Flatten(epochs);
      FirstEpochOnly(init, cap, window, start);
      EpochCount(last, cap, window, start);
      if init != [] {
        FirstGrant(init, cap, window);
        assert init[0] == epochs[0] && epochs[0].start + window <= last.start;
        assert start <= init[0].start;
      }
    }
  }

  lemma {:induction false} FirstGrant(epochs: seq<Epoch>, cap: int, window: int)
    requires WellSpaced(epochs, cap, window) && epochs != []
    ensures epochs[0].start in Flatten(epochs)
  {
    if |epochs| == 1 {
      assert Within(epochs[0], cap, window);
      assert epochs[..0] == [];
      assert Flatten(epochs) == [] + epochs[0].grants;
      assert epochs[0].grants[0] in epochs[0].grants;
    } else {
      FirstGrant(epochs[..|epochs| - 1], cap, window);
    }
  }

  // ---- calls that do not overlap in their first sections ----

  /** A call between its two sections. */
  datatype Call = Call(key: string, found: Option<nat>)

  /** What a pending call found is still so, and nobody else is about to create the same client. */
  ghost predicate Current(clients: map<string, nat>, pending: map<nat, Call>, id: nat)
    requires id in pending
  {
    var call := pending[id];
    match call.found
    case Some(ref) => call.key in clients && clients[call.key] == ref
    case None => call.key !in clients && forall other :: other in pending && pending[other].key == call.key ==> other == id
  }

  /** The state of the split limiter without its settings. */
  datatype State = State(clients: map<string, nat>, records: seq<Client>, owners: seq<string>, tracks: seq<Track>)

  ghost predicate Shaped(s: State) {
    && |s.records| == |s.owners| == |s.tracks|
    && forall key :: key in s.clients ==> s.clients[key] < |s.records| && s.owners[s.clients[key]] == key
  }

  /** The client map as the atomic limiter keeps it. */
  ghost function WholeOf(s: State): map<string, Client>
    requires Shaped(s)
  {
    map key <- s.clients :: s.records[s.clients[key]]
  }

  /** The split state stands for the atomic one, and every pending call is current. */
  ghost predicate InStep(s: State, pending: map<nat, Call>, clients: map<string, Client>, granted: imap<string, seq<int>>) {
    && Shaped(s) && clients == WholeOf(s) && |s.tracks| == |s.owners|
    && (forall id :: id in pending ==> Current(s.clients, pending, id))
    && SameGrants(s.tracks, s.owners, granted)
  }

  ghost predicate Grew(granted: imap<string, seq<int>>, granted': imap<string, seq<int>>, key: string, now: int) {
    forall k :: k in granted && k in granted' && granted'[k] == if k == key then granted[k] + [now] else granted[k]
  }

  /** Taking a current call out leaves the others current, whatever happens to its own key. */
  lemma OthersCurrent(clients: map<string, nat>, pending: map<nat, Call>, id: nat, ref: nat)
    requires id in pending && forall other :: other in pending ==> Current(clients, pending, other)
    ensures forall other :: other in pending - {id} ==> Current(clients, pending - {id}, other)
    ensures pending[id].found == None ==>
              forall other :: other in pending - {id} ==> Current(clients[pending[id].key := ref], pending - {id}, other)
  {
    var rest, clients' := pending - {id}, clients[pending[id].key := ref];
    assert Current(clients, pending, id);
    forall other | other in rest ensures Current(clients, rest, other) {
      assert Current(clients, pending, other);
    }
    if pending[id].found == None {
      forall other | other in rest ensures Current(clients', rest, other) {
        assert Current(clients, pending, other);
      }
    }
  }

  function Created(s: State, key: string, c: Client, t: Track): State {
    State(s.clients[key := |s.records|], s.records + [c], s.owners + [key], s.tracks + [t])
  }

  function SpentFrom(s: State, ref: nat, c: Client, t: Track): State
    requires ref < |s.records| && ref < |s.tracks|
  {
    State(s.clients, s.records[ref := c], s.owners, s.tracks[ref := t])
  }

  lemma ShapesKept(s: State, key: string, ref: nat, c: Client, t: Track)
    requires Shaped(s)
    ensures WholeOf(s).Keys == s.clients.Keys
    ensures Shaped(Created(s, key, c, t)) && WholeOf(Created(s, key, c, t)) == WholeOf(s)[key := c]
    ensures key in s.clients && s.clients[key] == ref ==>
              Shaped(SpentFrom(s, ref, c, t)) && WholeOf(SpentFrom(s, ref, c, t)) == WholeOf(s)[key := c]
  {
  }

  ghost predicate SameGrants(tracks: seq<Track>, owners: seq<string>, granted: imap<string, seq<int>>)
    requires |tracks| == |owners|
  {
    forall key :: key in granted && multiset(GrantsOf(tracks, owners, key)) == multiset(granted[key])
  }

  lemma CreateKeepsGrants(tracks: seq<Track>, owners: seq<string>, granted: imap<string, seq<int>>,
                          key: string, now: int, granted': imap<string, seq<int>>, t: Track)
    requires |tracks| == |owners| && SameGrants(tracks, owners, granted) && Grew(granted, granted', key, now)
    requires t.granted == [now]
    ensures SameGrants(tracks + [t], owners + [key], granted')
  {
    hide GrantsOf;
    forall k ensures k in granted' && multiset(GrantsOf(tracks + [t], owners + [key], k)) == multiset(granted'[k]) {
      GrantsSnoc(tracks, owners, k, t, key);
      assert k in granted;
    }
  }

  lemma SpendKeepsGrants(tracks: seq<Track>, owners: seq<string>, granted: imap<string, seq<int>>,
                         key: string, now: int, granted': imap<string, seq<int>>, ref: nat, t: Track)
    requires |tracks| == |owners| && SameGrants(tracks, owners, granted) && Grew(granted, granted', key, now)
    requires ref < |tracks| && owners[ref] == key && t.granted == tracks[ref].granted + [now]
    ensures SameGrants(tracks[ref := t], owners, granted')
  {
    hide GrantsOf;
    var tracks' := tracks[ref := t];
    forall k ensures k in granted' && multiset(GrantsOf(tracks', owners, k)) == multiset(granted'[k]) {
      GrantsUpdate(tracks, owners, k, ref, t, now);
      assert k in granted;
    }
  }

  lemma CreateInStep(s: State, pending: map<nat, Call>, clients: map<string, Client>, granted: imap<string, seq<int>>,
                     id: nat, c: Client, t: Track, now: int, granted': imap<string, seq<int>>)
    requires InStep(s, pending, clients, granted) && id in pending && pending[id].found == None
    requires t.granted == [now] && Grew(granted, granted', pending[id].key, now)
    ensures pending[id].key !in clients
    ensures InStep(Created(s, pending[id].key, c, t), pending - {id}, clients[pending[id].key := c], granted')
  {
    hide GrantsOf, Shaped, WholeOf, Grew, SameGrants;
    var key := pending[id].key;
    assert Current(s.clients, pending, id);
    ShapesKept(s, key, 0, c, t);
    OthersCurrent(s.clients, pending, id, |s.records|);
    hide Current;
    CreateKeepsGrants(s.tracks, s.owners, granted, key, now, granted', t);
  }

  lemma SpendInStep(s: State, pending: map<nat, Call>, clients: map<string, Client>, granted: imap<string, seq<int>>,
                    id: nat, c: Client, t: Track, now: int, granted': imap<string, seq<int>>)
    requires InStep(s, pending, clients, granted) && id in pending && pending[id].found.Some?
    requires pending[id].found.value < |s.tracks| && t.granted == s.tracks[pending[id].found.value].granted + [now]
    requires Grew(granted, granted', pending[id].key, now)
    ensures pending[id].found.value < |s.records|
    ensures InStep(SpentFrom(s, pending[id].found.value, c, t), pending - {id}, clients[pending[id].key := c], granted')
  {
    hide GrantsOf, WholeOf, Grew, SameGrants;
    var key, ref := pending[id].key, pending[id].found.value;
    assert Current(s.clients, pending, id);
    ShapesKept(s, key, ref, c, t);
    OthersCurrent(s.clients, pending, id, 0);
    hide Current;
    SpendKeepsGrants(s.tracks, s.owners, granted, key, now, granted', ref, t);
  }

  lemma FoundInStep(s: State, pending: map<nat, Call>, clients: map<string, Client>, granted: imap<string, seq<int>>, id: nat)
    requires InStep(s, pending, clients, granted) && id in pending
    ensures InStep(s, pending - {id}, clients, granted)
    ensures pending[id].key in clients <==> pending[id].found.Some?
    ensures pending[id].found.Some? ==>
              pending[id].found.value < |s.records| && clients[pending[id].key] == s.records[pending[id].found.value]
  {
    assert Current(s.clients, pending, id);
    OthersCurrent(s.clients, pending, id, 0);
    hide Current, GrantsOf;
  }

  lemma BeginInStep(s: State, pending: map<nat, Call>, clients: map<string, Client>, granted: imap<string, seq<int>>,
                    id: nat, call: Call)
    requires InStep(s, pending, clients, granted) && id !in pending
    requires !exists other :: other in pending && pending[other] == Call(call.key, None)
    requires call.found == if call.key in s.clients then Some(s.clients[call.key]) else None
    ensures InStep(s, pending[id := call], clients, granted)
  {
    hide GrantsOf;
    var after := pending[id := call];
    forall other | other in pending ensures call.found == None ==> pending[other].key != call.key {
      assert Current(s.clients, pending, other);
      assert pending[other] != Call(call.key, None);
    }
    forall other | other in after ensures Current(s.clients, after, other) {
      if other != id {
        assert Current(s.clients, pending, other);
      }
    }
  }

  /** What a second section does to the split limiter. */
  ghost predicate SplitStep(s: State, call: Call, s': State, ok: bool, rate: int, window: int, now: int) {
    match call.found
    case None =>
      ok && s' == State(s.clients[call.key := |s.records|], s.records + [Client(rate - 1, now)], s.owners + [call.key],
                        s.tracks + [Track([Epoch(now, [now])], [now])])
    case Some(ref) =>
      && ref < |s.records| == |s.tracks|
      && (ok <==> now - s.records[ref].lastReset >= window || s.records[ref].tokens > 0)
      && (!ok ==> s' == s)
      && (ok ==> exists t: Track :: Spends(s, ref, t, s', rate, window, now))
  }

  ghost predicate Spends(s: State, ref: nat, t: Track, s': State, rate: int, window: int, now: int)
    requires ref < |s.records| == |s.tracks|
  {
    && t.granted == s.tracks[ref].granted + [now]
    && s' == State(s.clients, s.records[ref := AfterGrant(Some(s.records[ref]), rate, window, now)], s.owners, s.tracks[ref := t])
  }

  /** What Allow does to the atomic one. */
  ghost predicate WholeStep(clients: map<string, Client>, granted: imap<string, seq<int>>, key: string,
                            clients': map<string, Client>, granted': imap<string, seq<int>>, ok: bool, rate: int, window: int, now: int)
  {
    && (!ok <==> key in clients && now - clients[key].lastReset < window && clients[key].tokens <= 0)
    && clients' == (if ok then clients[key := AfterGrant(ClientOf(clients, key), rate, window, now)] else clients)
    && (if ok then Grew(granted, granted', key, now) else granted' == granted)
  }

  /** The two agree on the outcome and stay in step. */
  lemma StepsAgree(s: State, pending: map<nat, Call>, clients: map<string, Client>, granted: imap<string, seq<int>>, id: nat,
                   s': State, ok: bool, clients': map<string, Client>, granted': imap<string, seq<int>>, ok': bool,
                   rate: int, window: int, now: int)
    requires InStep(s, pending, clients, granted) && id in pending
    requires SplitStep(s, pending[id], s', ok, rate, window, now)
    requires WholeStep(clients, granted, pending[id].key, clients', granted', ok', rate, window, now)
    ensures ok == ok' && InStep(s', pending - {id}, clients', granted')
  {
    hide InStep, Grew;
    FoundInStep(s, pending, clients, granted, id);
    if pending[id].found == None {
      CreateInStep(s, pending, clients, granted, id, Client(rate - 1, now), Track([Epoch(now, [now])], [now]), now, granted');
    } else if ok {
      var ref := pending[id].found.value;
      var t: Track :| Spends(s, ref, t, s', rate, window, now);
      SpendInStep(s, pending, clients, granted, id, s'.records[ref], t, now, granted');
    }
  }

  /** The split limiter beside the atomic one, which takes each call whole when its second section runs. */
  class Lockstep {
    const split: SplitLimiter
    const whole: RateLimiter
    var pending: map<nat, Call>
    ghost var apart: bool                         // so far no first sections of one key overlapped

    ghost function Now(): State
      reads split
    {
      State(split.clients, split.records, split.owners, split.tracks)
    }

    ghost function AllGranted(): imap<string, seq<int>>
      reads whole
    {
      imap key: string | true :: whole.Granted(key)
    }

    ghost predicate Valid()
      reads this, split, whole
    {
      && split.Valid() && whole.Valid() && split.rate == whole.rate && split.window == whole.window
      && split.clock == whole.clock && |split.owners| == |split.records|
      && (forall id :: id in pending && pending[id].found.Some? ==>
            pending[id].found.value < |split.records| && split.owners[pending[id].found.value] == pending[id].key)
      && (apart ==> InStep(Now(), pending, whole.clients, AllGranted()))
    }

    constructor (rate: int, window: int, ghost start: int)
      requires window > 0
      ensures Valid() && apart && pending == map[] && fresh(split) && fresh(whole)
      ensures split.rate == rate && split.window == window && split.clock == start
    {
      split := new SplitLimiter(rate, window, start);
      whole := new RateLimiter(rate, window, start);
      pending, apart := map[], true;
    }

    /** The first section of a call. It overlaps if another call for the key is about to create a client. */
    method Begin(id: nat, key: string)
      requires Valid() && id !in pending
      modifies this`pending, this`apart
      ensures Valid() && id in pending && pending[id].key == key && pending == old(pending)[id := pending[id]]
      ensures apart == (old(apart) && !exists other :: other in old(pending) && old(pending)[other] == Call(key, None))
    {
      hide RateLimiter.Valid, InStep, RateLimiter.Granted, RecordsOk;
      var found := split.LookUp(key);
      ghost var overlaps := exists other :: other in pending && pending[other] == Call(key, None);
      if apart && !overlaps {
        BeginInStep(Now(), pending, whole.clients, AllGranted(), id, Call(key, found));
      }
      apart := apart && !overlaps;
      pending := pending[id := Call(key, found)];
    }

    /** The second section. As long as no first sections overlapped, it is the whole call of the atomic limiter. */
    method Finish(id: nat, now: int) returns (ok: bool)
      requires Valid() && id in pending && now >= split.clock
      modifies this`pending, split, whole
      ensures Valid() && pending == old(pending) - {id} && apart == old(apart)
      ensures apart ==> (var key := old(pending[id].key);
        whole.Granted(key) == if ok then old(whole.Granted(pending[id].key)) + [now] else old(whole.Granted(pending[id].key)))
    {
      hide SplitLimiter.Valid, RateLimiter.Valid, InStep, RateLimiter.Granted, SplitStep, WholeStep;
      var call := pending[id];
      ghost var s, clients0, granted0 := Now(), whole.clients, AllGranted();
      ok := SecondSection(call, now);
      ghost var s' := Now();
      var ok' := WholeCall(call.key, now);
      if apart {
        StepsAgree(s, pending, clients0, granted0, id, s', ok, whole.clients, AllGranted(), ok', split.rate, split.window, now);
      }
      pending := pending - {id};
    }

    method SecondSection(call: Call, now: int) returns (ok: bool)
      requires split.Valid() && now >= split.clock && (call.found.Some? ==> call.found.value < |split.records|)
      modifies split
      ensures split.Valid() && split.clock == now && SplitStep(old(Now()), call, Now(), ok, split.rate, split.window, now)
      ensures |split.owners| == |split.records| >= |old(split.records)| && old(split.owners) <= split.owners
    {
      if call.found == None {
        split.Create(call.key, now);
        ok := true;
      } else {
        var ref := call.found.value;
        ghost var tracks0 := split.tracks;
        ok := split.Spend(ref, now);
        if ok {
          ghost var t: Track :| t.granted == tracks0[ref].granted + [now] && split.tracks == tracks0[ref := t];
          assert Spends(old(Now()), ref, t, Now(), split.rate, split.window, now);
        }
      }
    }

    method WholeCall(key: string, now: int) returns (ok: bool)
      requires whole.Valid() && now >= whole.clock
      modifies whole
      ensures whole.Valid() && whole.clock == now
      ensures WholeStep(old(whole.clients), old(AllGranted()), key, whole.clients, AllGranted(), ok, whole.rate, whole.window, now)
      ensures whole.Granted(key) == if ok then old(whole.Granted(key)) + [now] else old(whole.Granted(key))
    {
      hide RateLimiter.Valid, RateLimiter.Granted;
      ok := whole.Allow(key, now);
    }

    /** The periodic cleanup of both. It counts as an overlap if a pending call holds a client that goes. */
    method Cleanup(now: int)
      requires Valid() && now >= split.clock
      modifies this`apart, split`clients, split`clock, whole
      ensures Valid() && pending == old(pending)
      ensures apart == (old(apart) && forall id :: id in pending && pending[id].found.Some? && pending[id].key in old(split.clients) ==>
                                         pending[id].key in split.clients)
    {
      hide SplitLimiter.Valid, RateLimiter.Valid, InStep, RecordsOk;
      ghost var s, clients0, granted0 := Now(), whole.clients, AllGranted();
      split.Cleanup(now);
      whole.Cleanup(now);
      assert AllGranted() == granted0;
      ghost var kept := forall id :: id in pending && pending[id].found.Some? && pending[id].key in s.clients ==>
                                       pending[id].key in split.clients;
      if apart && kept {
        CleanupInStep(s, pending, clients0, granted0, split.clients, whole.clients, split.window, now);
      }
      apart := apart && kept;
    }

    /** While no first sections overlapped, the keys keep the bound of the atomic limiter. */
    lemma ApartKeepsBound(key: string, from: int)
      requires Valid() && apart
      ensures CountIn(split.Granted(key), from, from + split.window) <= 2 * Max(split.rate, 1) - 1
    {
      hide RecordsOk, Tracks, GrantsOf, CountIn, RateLimiter.Valid, RateLimiter.Granted, Current, WholeOf, Max;
      assert key in AllGranted();
      assert multiset(split.Granted(key)) == multiset(whole.Granted(key));
      CountByElements(split.Granted(key), whole.Granted(key), from, from + split.window);
      whole.FewerThanTwiceTheRate(key, from);
    }
  }

  lemma CleanupInStep(s: State, pending: map<nat, Call>, clients: map<string, Client>, granted: imap<string, seq<int>>,
                      left: map<string, nat>, clients': map<string, Client>, window: int, now: int)
    requires InStep(s, pending, clients, granted)
    requires left == map key <- s.clients | now - s.records[s.clients[key]].lastReset <= window * 2 :: s.clients[key]
    requires clients' == map key <- clients | now - clients[key].lastReset <= window * 2 :: clients[key]
    requires forall id :: id in pending && pending[id].found.Some? && pending[id].key in s.clients ==> pending[id].key in left
    ensures InStep(s.(clients := left), pending, clients', granted)
  {
    hide SameGrants;
    forall id | id in pending ensures Current(left, pending, id) {
      assert Current(s.clients, pending, id);
    }
    assert clients' == WholeOf(s.(clients := left));
  }

  // ---- runs that overlap ----

  lemma CountAfterCreate(tracks: seq<Track>, owners: seq<string>, key: string, now: int, from: int, until: int)
    requires |tracks| == |owners| && from <= now < until
    ensures
      CountIn(GrantsOf(tracks + [Track([Epoch(now, [now])], [now])], owners + [key], key), from, until) ==
      CountIn(GrantsOf(tracks, owners, key), from, until) + 1
  {
    GrantsSnoc(tracks, owners, key, Track([Epoch(now, [now])], [now]), key);
    CountSnoc(GrantsOf(tracks, owners, key), now, from, until);
  }

  lemma CountAfterSpend(tracks: seq<Track>, owners: seq<string>, key: string, ref: nat, t: Track, now: int, from: int, until: int)
    requires |tracks| == |owners| && ref < |tracks| && owners[ref] == key && from <= now < until
    requires t.granted == tracks[ref].granted + [now]
    ensures CountIn(GrantsOf(tracks[ref := t], owners, key), from, until) == CountIn(GrantsOf(tracks, owners, key), from, until) + 1
  {
    GrantsUpdate(tracks, owners, key, ref, t, now);
    CountByElements(GrantsOf(tracks[ref := t], owners, key), GrantsOf(tracks, owners, key) + [now], from, until);
    CountSnoc(GrantsOf(tracks, owners, key), now, from, until);
  }

  /** The state of a run at time 0: what each step below keeps. */
  ghost predicate Running(limiter: SplitLimiter, rate: int, window: int)
    reads limiter
  {
    limiter.Valid() && limiter.rate == rate && limiter.window == window && limiter.clock == 0 && |limiter.owners| == |limiter.records|
  }

  /** A call that found nothing creates its client and is granted. */
  method CreateClient(limiter: SplitLimiter)
    requires Running(limiter, limiter.rate, limiter.window) && limiter.window >= 1
    modifies limiter
    ensures Running(limiter, limiter.rate, limiter.window) && limiter.records != []
    ensures limiter.records[|limiter.records| - 1] == Client(limiter.rate - 1, 0) && limiter.owners[|limiter.owners| - 1] == "k"
    ensures Owned(limiter.owners, "k") == old(Owned(limiter.owners, "k")) + 1
    ensures CountIn(limiter.Granted("k"), 0, limiter.window) == old(CountIn(limiter.Granted("k"), 0, limiter.window)) + 1
  {
    hide CountIn, GrantsOf, Owned, RecordsOk;
    TracksSize(limiter);
    CountAfterCreate(limiter.tracks, limiter.owners, "k", 0, 0, limiter.window);
    GrantsSnoc(limiter.tracks, limiter.owners, "k", Track([], []), "k");
    limiter.Create("k", 0);
  }

  /** Calls that find the newest record spend what it has left. */
  method SpendAll(limiter: SplitLimiter)
    requires Running(limiter, limiter.rate, limiter.window) && limiter.window >= 1 && limiter.rate >= 1 && limiter.records != []
    requires limiter.records[|limiter.records| - 1] == Client(limiter.rate - 1, 0) && limiter.owners[|limiter.owners| - 1] == "k"
    modifies limiter
    ensures Running(limiter, limiter.rate, limiter.window) && limiter.owners == old(limiter.owners)
    ensures CountIn(limiter.Granted("k"), 0, limiter.window) == old(CountIn(limiter.Granted("k"), 0, limiter.window)) + limiter.rate - 1
  {
    hide CountIn, GrantsOf, Owned, RecordsOk;
    var ref := |limiter.records| - 1;
    for i := 1 to limiter.rate
      invariant Running(limiter, limiter.rate, limiter.window) && limiter.owners == old(limiter.owners)
      invariant |limiter.records| == ref + 1 && limiter.records[ref] == Client(limiter.rate - i, 0)
      invariant CountIn(limiter.Granted("k"), 0, limiter.window) == old(CountIn(limiter.Granted("k"), 0, limiter.window)) + i - 1
    {
      ghost var tracks0 := limiter.tracks;
      TracksSize(limiter);
      var ok := limiter.Spend(ref, 0);
      ghost var t: Track :| t.granted == tracks0[ref].granted + [0] && limiter.tracks == tracks0[ref := t];
      CountAfterSpend(tracks0, limiter.owners, "k", ref, t, 0, 0, limiter.window);
    }
  }

  lemma TracksSize(limiter: SplitLimiter)
    requires limiter.Valid()
    ensures |limiter.tracks| == |limiter.records| == |limiter.owners|
  {
  }

  /** Any number of first calls that look up before one creates. If each creation is followed by calls that
      spend the new record, every one of them hands out a full bucket: the bound by records is reached. */
  method OverlappingFirstCalls(calls: nat, rate: int, window: int) returns (limiter: SplitLimiter)
    requires rate >= 1 && window >= 1
    ensures fresh(limiter) && Running(limiter, rate, window)
    ensures Owned(limiter.owners, "k") == calls && CountIn(limiter.Granted("k"), 0, window) == calls * rate
  {
    hide CountIn, GrantsOf, Owned, RecordsOk;
    var missed;
    limiter, missed := StartRace(calls, rate, window);
    for i := 0 to missed
      invariant fresh(limiter) && Running(limiter, rate, window)
      invariant Owned(limiter.owners, "k") == i && CountIn(limiter.Granted("k"), 0, window) == i * rate
    {
      CreateClient(limiter);
      SpendAll(limiter);
      Distribute(i, rate);
    }
  }

  /** If all of them create before anyone spends, only the last record is ever found: each first call is
      granted, and then the rest of one bucket. */
  method CreationsFirst(calls: nat, rate: int, window: int) returns (limiter: SplitLimiter)
    requires rate >= 1 && window >= 1 && calls >= 1
    ensures fresh(limiter) && Running(limiter, rate, window)
    ensures Owned(limiter.owners, "k") == calls && CountIn(limiter.Granted("k"), 0, window) == calls + rate - 1
  {
    hide CountIn, GrantsOf, Owned, RecordsOk;
    var missed;
    limiter, missed := StartRace(calls, rate, window);
    for i := 0 to missed
      invariant fresh(limiter) && Running(limiter, rate, window)
      invariant i > 0 ==> limiter.records != [] && limiter.records[|limiter.records| - 1] == Client(rate - 1, 0) &&
                          limiter.owners[|limiter.owners| - 1] == "k"
      invariant Owned(limiter.owners, "k") == i && CountIn(limiter.Granted("k"), 0, window) == i
    {
      CreateClient(limiter);
    }
    SpendAll(limiter);
  }

  /** The first sections of the overlapping calls: each of them finds nothing. */
  method StartRace(calls: nat, rate: int, window: int) returns (limiter: SplitLimiter, missed: nat)
    requires window >= 1
    ensures fresh(limiter) && Running(limiter, rate, window) && missed == calls
    ensures Owned(limiter.owners, "k") == 0 && CountIn(limiter.Granted("k"), 0, window) == 0
  {
    limiter := new SplitLimiter(rate, window, 0);
    missed := 0;
    for i := 0 to calls
      invariant missed == i && Running(limiter, rate, window) && limiter.clients == map[] && limiter.tracks == []
      invariant limiter.owners == []
    {
      var found := limiter.LookUp("k");
      if found == None {
        missed := missed + 1;
      }
    }
  }
}
