/** The fixed-window limiter of ratelimit.go, and the sliding-window bound that follows from it. */
module RateLimiting {
  import opened Options

  datatype Client = Client(tokens: int, lastReset: int)

  /** The grants between one refill of a client and the next. */
  datatype Epoch = Epoch(start: int, grants: seq<int>)

  function Max(a: int, b: int): int {
    if a > b then a else b
  }

  /** How many of the times lie in [from, until). */
  function CountIn(times: seq<int>, from: int, until: int): nat {
    if times == [] then 0
    else CountIn(times[..|times| - 1], from, until) + if from <= times[|times| - 1] < until then 1 else 0
  }

  function Flatten(epochs: seq<Epoch>): seq<int> {
    if epochs == [] then [] else Flatten(epochs[..|epochs| - 1]) + epochs[|epochs| - 1].grants
  }

  /** At most cap grants, the first at the start, each inside the window. */
  ghost predicate Within(epoch: Epoch, cap: int, window: int) {
    && 1 <= |epoch.grants| <= cap
    && epoch.grants[0] == epoch.start
    && forall i :: 0 <= i < |epoch.grants| ==> epoch.start <= epoch.grants[i] < epoch.start + window
  }

  /** Epochs of at most cap grants that start at least a window apart. */
  ghost predicate WellSpaced(epochs: seq<Epoch>, cap: int, window: int) {
    && (forall i :: 0 <= i < |epochs| ==> Within(epochs[i], cap, window))
    && (forall i, j :: 0 <= i < j < |epochs| ==> epochs[i].start + window <= epochs[j].start)
  }

  lemma {:induction false} CountSize(times: seq<int>, from: int, until: int)
    ensures CountIn(times, from, until) <= |times|
  {
    if times != [] {
      CountSize(times[..|times| - 1], from, until);
    }
  }

  lemma {:induction false} CountNone(times: seq<int>, from: int, until: int)
    requires forall i :: 0 <= i < |times| ==> times[i] < from || times[i] >= until
    ensures CountIn(times, from, until) == 0
  {
    if times != [] {
      CountNone(times[..|times| - 1], from, until);
    }
  }

  lemma CountSnoc(times: seq<int>, t: int, from: int, until: int)
    ensures CountIn(times + [t], from, until) == CountIn(times, from, until) + if from <= t < until then 1 else 0
  {
    assert (times + [t])[..|times|] == times;
  }

  lemma {:induction false} CountConcat(a: seq<int>, b: seq<int>, from: int, until: int)
    ensures CountIn(a + b, from, until) == CountIn(a, from, until) + CountIn(b, from, until)
    decreases |b|
  {
    if b == [] {
      assert a + b == a;
    } else {
      CountConcat(a, b[..|b| - 1], from, until);
      assert (a + b)[..|a + b| - 1] == a + b[..|b| - 1];
    }
  }

  /** An interval that misses the first grant counts one less than all of them. */
  lemma {:induction false} CountMissesFirst(times: seq<int>, from: int, until: int)
    requires times != [] && times[0] < from
    ensures CountIn(times, from, until) <= |times| - 1
  {
    if |times| > 1 {
      CountMissesFirst(times[..|times| - 1], from, until);
    } else {
      CountNone(times, from, until);
    }
  }

  lemma EpochCount(epoch: Epoch, cap: int, window: int, from: int)
    requires Within(epoch, cap, window)
    ensures CountIn(epoch.grants, from, from + window) <= cap
    ensures epoch.start < from ==> CountIn(epoch.grants, from, from + window) <= cap - 1
    ensures epoch.start + window <= from || from + window <= epoch.start ==> CountIn(epoch.grants, from, from + window) == 0
  {
    CountSize(epoch.grants, from, from + window);
    if epoch.start < from {
      CountMissesFirst(epoch.grants, from, from + window);
    }
    if epoch.start + window <= from || from + window <= epoch.start {
      CountNone(epoch.grants, from, from + window);
    }
  }

  /** At most two epochs meet the interval, and the earlier of them began before it. */
  lemma {:induction false} WindowBound(epochs: seq<Epoch>, cap: int, window: int, from: int)
    requires WellSpaced(epochs, cap, window) && window > 0 && cap >= 1
    ensures CountIn(Flatten(epochs), from, from + window) <= 2 * cap - 1
    ensures epochs != [] && epochs[|epochs| - 1].start <= from ==> CountIn(Flatten(epochs), from, from + window) <= cap
    ensures epochs != [] && epochs[|epochs| - 1].start < from ==> CountIn(Flatten(epochs), from, from + window) <= cap - 1
    ensures epochs != [] && epochs[|epochs| - 1].start + window <= from ==> CountIn(Flatten(epochs), from, from + window) == 0
    decreases |epochs|
  {
    hide Within;
    if epochs != [] {
      var init, last := epochs[..|epochs| - 1], epochs[|epochs| - 1];
      WindowBound(init, cap, window, from);
      CountConcat(Flatten(init), last.grants, from, from + window);
      EpochCount(last, cap, window, from);
      if init != [] {
        assert init[|init| - 1].start + window <= last.start;
      }
    }
  }

  /** The history of one key, and the client record the limiter keeps for it, if any. */
  datatype Track = Track(epochs: seq<Epoch>, granted: seq<int>)

  /** How a stored client continues the last epoch; without one, that epoch's window has passed. */
  ghost predicate Tracks(h: Track, client: Option<Client>, rate: int, window: int, clock: int) {
    && WellSpaced(h.epochs, Max(rate, 1), window)
    && h.granted == Flatten(h.epochs)
    && LastEpochMatches(h.epochs, client, rate, window, clock)
  }

  ghost predicate LastEpochMatches(epochs: seq<Epoch>, client: Option<Client>, rate: int, window: int, clock: int) {
    if epochs == [] then client.None?
    else
      var last := epochs[|epochs| - 1];
      && last.start <= clock
      && match client {
           case None => last.start + window <= clock
           case Some(c) => c.lastReset == last.start && c.tokens + |last.grants| == rate
         }
  }

  /** Starting an epoch: a full bucket less the grant being made. */
  lemma RefillTracks(h: Track, client: Option<Client>, rate: int, window: int, clock: int, now: int)
    requires Tracks(h, client, rate, window, clock) && window > 0 && clock <= now
    requires client.Some? ==> now - client.value.lastReset >= window
    ensures Tracks(Track(h.epochs + [Epoch(now, [now])], h.granted + [now]), Some(Client(rate - 1, now)), rate, window, now)
  {
    var after := h.epochs + [Epoch(now, [now])];
    assert after[..|h.epochs|] == h.epochs;
    EndsBefore(h.epochs, Max(rate, 1), window, now);
  }

  lemma EndsBefore(epochs: seq<Epoch>, cap: int, window: int, now: int)
    requires WellSpaced(epochs, cap, window) && window > 0
    requires epochs != [] ==> epochs[|epochs| - 1].start + window <= now
    ensures forall i :: 0 <= i < |epochs| ==> epochs[i].start + window <= now
  {
  }

  lemma SpendTracks(h: Track, c: Client, rate: int, window: int, clock: int, now: int)
    requires Tracks(h, Some(c), rate, window, clock) && clock <= now
    requires now - c.lastReset < window && c.tokens > 0
    ensures h.epochs != [] && Tracks(Spent(h, now), Some(c.(tokens := c.tokens - 1)), rate, window, now)
  {
    var es := h.epochs;
    var last := es[|es| - 1];
    var after := Spent(h, now).epochs;
    assert after[..|after| - 1] == es[..|es| - 1];
    assert Flatten(es[..|es| - 1]) + (last.grants + [now]) == Flatten(es[..|es| - 1]) + last.grants + [now];
  }

  /** The history after a grant inside the last epoch. */
  function Spent(h: Track, now: int): Track
    requires h.epochs != []
  {
    var last := h.epochs[|h.epochs| - 1];
    Track(h.epochs[..|h.epochs| - 1] + [last.(grants := last.grants + [now])], h.granted + [now])
  }

  lemma LaterTracks(h: Track, client: Option<Client>, rate: int, window: int, clock: int, now: int)
    requires Tracks(h, client, rate, window, clock) && clock <= now
    ensures Tracks(h, client, rate, window, now)
  {
  }

  /** Forgetting a client whose window has passed. */
  lemma ForgetTracks(h: Track, c: Client, rate: int, window: int, clock: int)
    requires Tracks(h, Some(c), rate, window, clock) && c.lastReset + window <= clock
    ensures Tracks(h, None, rate, window, clock)
  {
  }

  function TrackOf(histories: map<string, Track>, key: string): Track {
    if key in histories then histories[key] else Track([], [])
  }

  function ClientOf(clients: map<string, Client>, key: string): Option<Client> {
    if key in clients then Some(clients[key]) else None
  }

  /** The record after a grant: a new window where there was none running, else one token less. */
  function AfterGrant(client: Option<Client>, rate: int, window: int, now: int): Client {
    match client
    case Some(c) => if now - c.lastReset < window then c.(tokens := c.tokens - 1) else Client(rate - 1, now)
    case None => Client(rate - 1, now)
  }

  class RateLimiter {
    const rate: int
    const window: int
    var clients: map<string, Client>
    ghost var clock: int                          // the latest time seen
    ghost var histories: map<string, Track>

    ghost predicate Valid()
      reads this
    {
      && window > 0
      && forall key :: Tracks(TrackOf(histories, key), ClientOf(clients, key), rate, window, clock)
    }

    /** The times at which calls for this key were granted, oldest first. */
    ghost function Granted(key: string): seq<int>
      reads this
    {
      TrackOf(histories, key).granted
    }

    constructor (rate: int, window: int, ghost start: int)
      requires window > 0
      ensures Valid() && this.rate == rate && this.window == window && clients == map[] && clock == start
      ensures forall key :: Granted(key) == []
    {
      this.rate, this.window := rate, window;
      clients, clock, histories := map[], start, map[];
    }

    /** Allow, taken as one step: reset after a full window, else spend a token if one is left. */
    method Allow(key: string, now: int) returns (ok: bool)
      requires Valid() && now >= clock
      modifies this
      ensures Valid() && clock == now
      ensures Granted(key) == if ok then old(Granted(key)) + [now] else old(Granted(key))
      ensures forall k :: k != key ==> Granted(k) == old(Granted(k))
      ensures !ok <==> key in old(clients) && now - old(clients)[key].lastReset < window && old(clients)[key].tokens <= 0
      ensures clients == if ok then old(clients)[key := AfterGrant(ClientOf(old(clients), key), rate, window, now)] else old(clients)
    {
      hide Tracks;
      ghost var h := TrackOf(histories, key);
      ghost var before := ClientOf(clients, key);
      forall k ensures Tracks(TrackOf(histories, k), ClientOf(clients, k), rate, window, now) {
        LaterTracks(TrackOf(histories, k), ClientOf(clients, k), rate, window, clock, now);
      }
      if key !in clients || now - clients[key].lastReset >= window {
        RefillTracks(h, before, rate, window, clock, now);
        clients := clients[key := Client(rate - 1, now)];
        histories := histories[key := Track(h.epochs + [Epoch(now, [now])], h.granted + [now])];
        ok := true;
      } else if clients[key].tokens > 0 {
        SpendTracks(h, clients[key], rate, window, clock, now);
        clients := clients[key := clients[key].(tokens := clients[key].tokens - 1)];
        histories := histories[key := Spent(h, now)];
        ok := true;
      } else {
        ok := false;
      }
      clock := now;
      forall k ensures Tracks(TrackOf(histories, k), ClientOf(clients, k), rate, window, clock) {
        if k != key {
          assert TrackOf(histories, k) == TrackOf(old(histories), k);
        }
      }
    }

    /** cleanup: forgets clients idle for more than two windows. */
    method Cleanup(now: int)
      requires Valid() && now >= clock
      modifies this
      ensures Valid() && clock == now && histories == old(histories)
      ensures clients == map key <- old(clients) | now - old(clients)[key].lastReset <= window * 2 :: old(clients)[key]
    {
      hide Tracks;
      ghost var was := clients;
      clients := map key <- clients | now - clients[key].lastReset <= window * 2 :: clients[key];
      forall k ensures Tracks(TrackOf(histories, k), ClientOf(clients, k), rate, window, now) {
        LaterTracks(TrackOf(histories, k), ClientOf(was, k), rate, window, clock, now);
        if k in was && k !in clients {
          ForgetTracks(TrackOf(histories, k), was[k], rate, window, now);
        }
      }
      clock := now;
    }

    /** The bound a caller sees: fewer than twice the rate in any interval one window long. */
    lemma FewerThanTwiceTheRate(key: string, from: int)
      requires Valid()
      ensures CountIn(Granted(key), from, from + window) <= 2 * Max(rate, 1) - 1
    {
      WindowBound(TrackOf(histories, key).epochs, Max(rate, 1), window, from);
    }
  }

  /** No smaller bound holds: one grant, then a full bucket on each side of the refill. */
  method BoundIsReached(rate: int, window: int) returns (limiter: RateLimiter)
    requires rate >= 1 && window >= 2
    ensures fresh(limiter) && limiter.Valid() && limiter.rate == rate && limiter.window == window
    ensures CountIn(limiter.Granted("k"), window - 1, window - 1 + window) == 2 * rate - 1
  {
    hide CountIn, RateLimiter.Valid, RateLimiter.Granted;
    limiter := new RateLimiter(rate, window, 0);
    var key := "k";
    var ok := limiter.Allow(key, 0);
    assert limiter.Granted(key) == [0];
    CountNone([0], window - 1, window - 1 + window);
    for i := 1 to rate
      invariant limiter.Valid() && fresh(limiter) && limiter.rate == rate && limiter.window == window
      invariant limiter.clock <= window - 1 && key in limiter.clients
      invariant limiter.clients[key] == Client(rate - i, 0)
      invariant CountIn(limiter.Granted(key), window - 1, window - 1 + window) == i - 1
    {
      ghost var before := limiter.Granted(key);
      ok := limiter.Allow(key, window - 1);
      CountSnoc(before, window - 1, window - 1, window - 1 + window);
    }
    for i := 0 to rate
      invariant limiter.Valid() && fresh(limiter) && limiter.rate == rate && limiter.window == window
      invariant limiter.clock <= window && key in limiter.clients
      invariant limiter.clients[key] == if i == 0 then Client(0, 0) else Client(rate - i, window)
      invariant CountIn(limiter.Granted(key), window - 1, window - 1 + window) == rate - 1 + i
    {
      ghost var before := limiter.Granted(key);
      ok := limiter.Allow(key, window);
      CountSnoc(before, window, window - 1, window - 1 + window);
    }
  }
}
