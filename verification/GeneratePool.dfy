/** The elastic worker pool of INSERT ... GENERATE (cmd_insert.go): an atomic chunk queue, a live
    counter that closes the done channel, workers added at any moment. Each method is one atomic
    step; a schedule is any interleaving of them. */
module GeneratePools {
  import opened InsertBatches

  const BATCH: nat := 5000

  /** A started worker: about to claim, holding a claimed chunk, or done claiming. */
  datatype Worker = Claiming | Holding(chunk: nat) | Leaving

  /** How one call of InsertBatch meets the disk: per piece the log write, per piece and flush the flush. */
  datatype Fate = Fate(walOk: nat -> bool, flushOk: (nat, nat) -> bool)

  ghost predicate FlushesAll(fate: Fate) {
    forall p: nat, k: nat :: fate.flushOk(p, k)
  }

  datatype Event =
    | Spawn
    | Claim(worker: nat)
    | Flush(worker: nat, docs: seq<Outcome>, fate: Fate)
    | Exit(worker: nat)

  function Chunks(n: nat): nat {
    (n + BATCH - 1) / BATCH
  }

  function Low(chunk: nat): nat {
    chunk * BATCH
  }

  function High(n: nat, chunk: nat): nat {
    if chunk * BATCH + BATCH > n then n else chunk * BATCH + BATCH
  }

  /** The document indices lo, lo + 1, ..., hi - 1 in the order a worker generates them. */
  function Interval(lo: nat, hi: nat): (r: seq<nat>)
    ensures |r| == if lo < hi then hi - lo else 0
  {
    if lo >= hi then [] else Interval(lo, hi - 1) + [hi - 1]
  }

  lemma {:induction false} IntervalCount(lo: nat, hi: nat, i: nat)
    ensures multiset(Interval(lo, hi))[i] == if lo <= i < hi then 1 else 0
  {
    if lo < hi {
      IntervalCount(lo, hi - 1, i);
    }
  }

  function Range(n: nat, chunk: nat): seq<nat> {
    Interval(Low(chunk), High(n, chunk))
  }

  /** Every index below n lies in exactly the chunk it divides to. */
  lemma ChunkOf(n: nat, chunk: nat, i: nat)
    requires chunk < Chunks(n)
    ensures Low(chunk) < High(n, chunk) <= n && |Range(n, chunk)| == High(n, chunk) - Low(chunk)
    ensures multiset(Range(n, chunk))[i] == if i < n && i / BATCH == chunk then 1 else 0
  {
    IntervalCount(Low(chunk), High(n, chunk), i);
  }

  predicate HeldIn(workers: map<nat, Worker>, chunk: nat) {
    exists w :: w in workers && workers[w] == Holding(chunk)
  }

  ghost predicate DistinctChunks(workers: map<nat, Worker>) {
    forall v, w :: v in workers && w in workers && v != w && workers[v].Holding? ==> workers[v] != workers[w]
  }

  /** A worker that lets go of its chunk is the only one that held it. */
  lemma Release(workers: map<nat, Worker>, w: nat, chunk: nat)
    requires DistinctChunks(workers) && w in workers && workers[w] == Holding(chunk)
    ensures DistinctChunks(workers[w := Claiming])
    ensures forall c :: HeldIn(workers[w := Claiming], c) <==> HeldIn(workers, c) && c != chunk
  {
    var after := workers[w := Claiming];
    forall c ensures HeldIn(after, c) <==> HeldIn(workers, c) && c != chunk {
      if v :| v in workers && workers[v] == Holding(c) && c != chunk {
        assert after[v] == Holding(c);
      }
      if v :| v in after && after[v] == Holding(c) {
        assert workers[v] == Holding(c);
      }
    }
  }

  /** Claimed and flushed. */
  predicate DoneIn(n: nat, workers: map<nat, Worker>, nextChunk: nat, chunk: nat) {
    chunk < Chunks(n) && chunk < nextChunk && !HeldIn(workers, chunk)
  }

  /** Exactly the documents of the finished chunks were produced, each once. */
  ghost predicate Accounted(n: nat, produced: multiset<nat>, workers: map<nat, Worker>, nextChunk: nat) {
    forall i: nat :: produced[i] == if i < n && DoneIn(n, workers, nextChunk, i / BATCH) then 1 else 0
  }

  /** What the started workers may be up to. */
  ghost predicate WorkersOk(n: nat, workers: map<nat, Worker>, nextChunk: nat, launched: nat) {
    && DistinctChunks(workers)
    && (forall w :: w in workers ==> w < launched)
    && (forall w :: w in workers && workers[w] == Leaving ==> nextChunk >= Chunks(n))
    && (forall w :: w in workers && workers[w].Holding? ==>
          workers[w].chunk < Chunks(n) && workers[w].chunk < nextChunk)
  }

  lemma FlushWorkers(n: nat, workers: map<nat, Worker>, nextChunk: nat, launched: nat, w: nat, chunk: nat)
    requires WorkersOk(n, workers, nextChunk, launched) && w in workers && workers[w] == Holding(chunk)
    ensures WorkersOk(n, workers[w := Claiming], nextChunk, launched)
    ensures chunk < Chunks(n) && chunk < nextChunk && Low(chunk) < High(n, chunk)
  {
    hide Chunks, High, Low, HeldIn, Range, DistinctChunks;
    Release(workers, w, chunk);
    ChunkOf(n, chunk, 0);
  }

  lemma FlushAccounted(n: nat, produced: multiset<nat>, workers: map<nat, Worker>, nextChunk: nat, w: nat, chunk: nat)
    requires Accounted(n, produced, workers, nextChunk) && DistinctChunks(workers)
    requires w in workers && workers[w] == Holding(chunk) && chunk < Chunks(n) && chunk < nextChunk
    ensures Accounted(n, produced + multiset(Range(n, chunk)), workers[w := Claiming], nextChunk)
    ensures |produced + multiset(Range(n, chunk))| == |produced| + High(n, chunk) - Low(chunk)
  {
    Release(workers, w, chunk);
    ChunkOf(n, chunk, 0);
    assert HeldIn(workers, chunk);
    hide HeldIn, Range, Chunks, DistinctChunks, High;
    forall i: nat ensures (produced + multiset(Range(n, chunk)))[i] ==
        if i < n && DoneIn(n, workers[w := Claiming], nextChunk, i / BATCH) then 1 else 0
    {
      ChunkOf(n, chunk, i);
    }
    assert |multiset(Range(n, chunk))| == |Range(n, chunk)|;
  }

  /** Adding a claiming worker, or losing one that holds nothing, moves no document. */
  lemma IdleAccounted(n: nat, produced: multiset<nat>, workers: map<nat, Worker>, nextChunk: nat, launched: nat, w: nat)
    requires Accounted(n, produced, workers, nextChunk) && WorkersOk(n, workers, nextChunk, launched)
    requires w in workers ==> !workers[w].Holding?
    ensures Accounted(n, produced, workers[w := Claiming], nextChunk)
    ensures w == launched ==> w !in workers && WorkersOk(n, workers[w := Claiming], nextChunk, launched + 1)
    ensures Accounted(n, produced, workers - {w}, nextChunk) && WorkersOk(n, workers - {w}, nextChunk, launched)
    ensures w in workers && workers[w] == Leaving ==> nextChunk >= Chunks(n) && w < launched
  {
    var added, lost := workers[w := Claiming], workers - {w};
    forall c ensures (HeldIn(added, c) <==> HeldIn(workers, c)) && (HeldIn(lost, c) <==> HeldIn(workers, c)) {
      if v :| v in workers && workers[v] == Holding(c) {
        assert added[v] == Holding(c) && v in lost && lost[v] == Holding(c);
      }
    }
  }

  lemma ClaimAccounted(n: nat, produced: multiset<nat>, workers: map<nat, Worker>, nextChunk: nat, launched: nat, w: nat)
    requires Accounted(n, produced, workers, nextChunk) && WorkersOk(n, workers, nextChunk, launched)
    requires w in workers && workers[w] == Claiming
    ensures
      var after := workers[w := if nextChunk < Chunks(n) then Holding(nextChunk) else Leaving];
      Accounted(n, produced, after, nextChunk + 1) && WorkersOk(n, after, nextChunk + 1, launched)
  {
    var after := workers[w := if nextChunk < Chunks(n) then Holding(nextChunk) else Leaving];
    assert after[w].Holding? ==> HeldIn(after, nextChunk);
    forall c ensures DoneIn(n, after, nextChunk + 1, c) <==> DoneIn(n, workers, nextChunk, c) {
      if v :| v in workers && workers[v] == Holding(c) {
        assert after[v] == Holding(c);
      }
      if c != nextChunk && HeldIn(after, c) {
        var v :| v in after && after[v] == Holding(c);
        assert workers[v] == Holding(c);
      }
    }
  }

  lemma GrowsByOne(workers: map<nat, Worker>, id: nat)
    requires id !in workers
    ensures |workers[id := Claiming]| == |workers| + 1 && workers[id := Claiming] != map[]
  {
    assert workers[id := Claiming].Keys == workers.Keys + {id};
    assert id in workers[id := Claiming];
  }

  lemma FreshId(n: nat, workers: map<nat, Worker>, nextChunk: nat, launched: nat)
    requires WorkersOk(n, workers, nextChunk, launched)
    ensures launched !in workers
  {
  }

  class GeneratePool {
    const n: nat
    const maxBatch: int
    const flushSize: nat
    var nextChunk: nat
    var liveWorkers: nat
    var launchedWorkers: nat
    var poolFinished: bool
    var closes: nat                     // how often the done channel was closed
    var workers: map<nat, Worker>       // the started, not yet exited workers
    var inserted: nat
    var errors: nat
    ghost var produced: multiset<nat>   // the document indices handed to InsertBatch
    ghost var unreported: nat           // documents lost to the count by failing flushes
    ghost var flushed: bool             // no flush in mid-batch has failed so far

    constructor (n: nat, maxBatch: int, flushSize: nat)
      requires flushSize >= 1
      ensures Valid() && this.n == n && launchedWorkers == 0 && flushed
    {
      this.n, this.maxBatch, this.flushSize := n, maxBatch, flushSize;
      flushed := true;
      nextChunk, liveWorkers, launchedWorkers, poolFinished, closes := 0, 0, 0, false, 0;
      workers, inserted, errors, produced, unreported := map[], 0, 0, multiset{}, 0;
    }

    predicate Held(chunk: nat)
      reads this
    {
      HeldIn(workers, chunk)
    }

    predicate Done(chunk: nat)
      reads this
    {
      DoneIn(n, workers, nextChunk, chunk)
    }

    ghost predicate Valid()
      reads this
    {
      && liveWorkers == |workers|
      && (poolFinished <==> launchedWorkers > 0 && workers == map[])
      && closes == (if poolFinished then 1 else 0)
      && (poolFinished ==> nextChunk >= Chunks(n))
      && WorkersOk(n, workers, nextChunk, launchedWorkers)
      && Accounted(n, produced, workers, nextChunk)
      && inserted + errors + unreported == |produced|
      && flushSize >= 1 && (flushed ==> unreported == 0)
    }

    /** spawnWorker: a pool that has finished stays finished. */
    method SpawnWorker()
      requires Valid()
      modifies this`liveWorkers, this`launchedWorkers, this`workers
      ensures Valid()
      ensures old(poolFinished) ==> workers == old(workers) && launchedWorkers == old(launchedWorkers)
      ensures !old(poolFinished) ==> workers == old(workers)[old(launchedWorkers) := Claiming]
      ensures closes == old(closes) && nextChunk == old(nextChunk) && produced == old(produced)
      ensures inserted == old(inserted) && errors == old(errors) && unreported == old(unreported) && flushed == old(flushed)
    {
      hide Accounted, WorkersOk, Chunks, HeldIn, DistinctChunks;
      if poolFinished { return; }
      var id := launchedWorkers;
      FreshId(n, workers, nextChunk, launchedWorkers);
      IdleAccounted(n, produced, workers, nextChunk, id, id);
      liveWorkers := liveWorkers + 1;
      launchedWorkers := launchedWorkers + 1;
      workers := workers[id := Claiming];
      GrowsByOne(old(workers), id);
    }

    /** claimChunk: takes the next chunk, or learns that none is left. */
    method ClaimChunk(w: nat) returns (ok: bool)
      requires Valid() && w in workers && workers[w] == Claiming
      modifies this`nextChunk, this`workers
      ensures Valid() && ok == (old(nextChunk) < Chunks(n))
      ensures workers == old(workers)[w := if ok then Holding(old(nextChunk)) else Leaving]
      ensures produced == old(produced) && closes == old(closes) && launchedWorkers == old(launchedWorkers)
      ensures inserted == old(inserted) && errors == old(errors) && unreported == old(unreported) && flushed == old(flushed)
    {
      hide Accounted, WorkersOk, Chunks, HeldIn, DistinctChunks;
      ClaimAccounted(n, produced, workers, nextChunk, launchedWorkers, w);
      var idx := nextChunk;
      nextChunk := nextChunk + 1;
      ok := idx < Chunks(n);
      workers := workers[w := if ok then Holding(idx) else Leaving];
      assert workers.Keys == old(workers.Keys);
    }

    /** flush: the documents of the claimed range go to InsertBatch, and what it reports is added up. */
    method FlushBatch(w: nat, docs: seq<Outcome>, fate: Fate)
      requires Valid() && w in workers && workers[w].Holding?
      requires |docs| == High(n, workers[w].chunk) - Low(workers[w].chunk)
      modifies this`workers, this`produced, this`inserted, this`errors, this`unreported, this`flushed
      ensures Valid() && workers == old(workers)[w := Claiming]
      ensures produced == old(produced) + multiset(Range(n, old(workers)[w].chunk))
      ensures
        var t := TallyOf(docs, fate);
        inserted == old(inserted) + t.inserted && errors == old(errors) + t.errors && unreported == old(unreported) + t.lost
      ensures flushed == (old(flushed) && FlushesAll(fate))
      ensures nextChunk == old(nextChunk) && closes == old(closes) && launchedWorkers == old(launchedWorkers)
    {
      hide Accounted, WorkersOk, Chunks, HeldIn, DistinctChunks, GeneratePool.TallyOf, FlushesAll, High, Low, Range;
      AddCounts(docs, fate);
      HandIn(w);
    }

    /** The chunk of the worker counts as produced, and the worker may claim again. */
    method HandIn(w: nat)
      requires w in workers && workers[w].Holding?
      requires WorkersOk(n, workers, nextChunk, launchedWorkers) && Accounted(n, produced, workers, nextChunk)
      modifies this`workers, this`produced
      ensures workers == old(workers)[w := Claiming] && workers != map[] && |workers| == |old(workers)|
      ensures produced == old(produced) + multiset(Range(n, old(workers)[w].chunk))
      ensures |produced| == |old(produced)| + High(n, old(workers)[w].chunk) - Low(old(workers)[w].chunk)
      ensures WorkersOk(n, workers, nextChunk, launchedWorkers) && Accounted(n, produced, workers, nextChunk)
    {
      assert DistinctChunks(workers);
      hide Accounted, WorkersOk, Chunks, HeldIn, DistinctChunks, High, Low, Range;
      var chunk := workers[w].chunk;
      FlushWorkers(n, workers, nextChunk, launchedWorkers, w, chunk);
      FlushAccounted(n, produced, workers, nextChunk, w, chunk);
      produced := produced + multiset(Range(n, chunk));
      workers := workers[w := Claiming];
      assert workers.Keys == old(workers.Keys);
      assert w in workers;
    }

    /** What InsertBatch reports for the documents is added up. */
    method AddCounts(docs: seq<Outcome>, fate: Fate)
      requires flushSize >= 1
      modifies this`inserted, this`errors, this`unreported, this`flushed
      ensures
        var t := TallyOf(docs, fate);
        inserted == old(inserted) + t.inserted && errors == old(errors) + t.errors && unreported == old(unreported) + t.lost
      ensures flushed == (old(flushed) && FlushesAll(fate))
      ensures inserted + errors + unreported == old(inserted + errors + unreported) + |docs|
      ensures old(flushed ==> unreported == 0) ==> flushed ==> unreported == 0
    {
      hide BatchTally;
      var ins, errs := InsertBatch(docs, maxBatch, flushSize, fate.walOk, fate.flushOk);
      BatchAddsUp(docs, PieceSize(maxBatch), 0, flushSize, fate.walOk, fate.flushOk);
      inserted, errors := inserted + ins, errors + errs;
      unreported := unreported + TallyOf(docs, fate).lost;
      flushed := flushed && FlushesAll(fate);
    }

    function TallyOf(docs: seq<Outcome>, fate: Fate): Tally
      requires flushSize >= 1
    {
      BatchTally(docs, PieceSize(maxBatch), 0, flushSize, fate.walOk, fate.flushOk)
    }

    /** A worker's exit: the last one closes the done channel. */
    method ExitWorker(w: nat)
      requires Valid() && w in workers && workers[w] == Leaving
      modifies this`workers, this`liveWorkers, this`poolFinished, this`closes
      ensures Valid() && workers == old(workers) - {w}
      ensures closes == old(closes) + (if workers == map[] then 1 else 0)
      ensures produced == old(produced) && nextChunk == old(nextChunk) && launchedWorkers == old(launchedWorkers)
      ensures inserted == old(inserted) && errors == old(errors) && unreported == old(unreported) && flushed == old(flushed)
    {
      hide Accounted, WorkersOk, Chunks, HeldIn, DistinctChunks;
      IdleAccounted(n, produced, workers, nextChunk, launchedWorkers, w);
      workers := workers - {w};
      assert workers.Keys == old(workers.Keys) - {w};
      liveWorkers := liveWorkers - 1;
      if liveWorkers == 0 {
        poolFinished := true;
        closes := closes + 1;
      }
    }

    /** Any interleaving of spawns, claims, flushes and exits; an event that cannot happen now
        is skipped. */
    method Run(schedule: seq<Event>)
      requires Valid()
      modifies this
      ensures Valid()
      ensures closes <= 1 && old(closes) <= closes
      ensures old(flushed) && (forall e :: e in schedule && e.Flush? ==> FlushesAll(e.fate)) ==> flushed
    {
      for i := 0 to |schedule|
        invariant Valid() && old(closes) <= closes
        invariant old(flushed) && (forall e :: e in schedule && e.Flush? ==> FlushesAll(e.fate)) ==> flushed
      {
        var e := schedule[i];
        assert e in schedule;
        match e
        case Spawn =>
          SpawnWorker();
        case Claim(w) =>
          if w in workers && workers[w] == Claiming {
            var ok := ClaimChunk(w);
          }
        case Flush(w, docs, fate) =>
          if w in workers && workers[w].Holding? && |docs| == High(n, workers[w].chunk) - Low(workers[w].chunk) {
            FlushBatch(w, docs, fate);
          }
        case Exit(w) =>
          if w in workers && workers[w] == Leaving {
            ExitWorker(w);
          }
      }
    }

    /** What a closed done channel means: nobody is running or can start, every chunk was claimed
        and flushed, every index below n was produced exactly once, and if no flush in mid-batch
        failed, inserted and failed documents are all n. */
    lemma ClosedMeansComplete()
      requires Valid() && closes >= 1
      ensures poolFinished && workers == map[] && closes == 1
      ensures forall c: nat :: c < Chunks(n) ==> c < nextChunk && !Held(c)
      ensures produced == multiset(Interval(0, n))
      ensures inserted + errors + unreported == n
      ensures flushed ==> inserted + errors == n
    {
      forall i: nat ensures produced[i] == multiset(Interval(0, n))[i] {
        IntervalCount(0, n, i);
        if i < n {
          assert i / BATCH < Chunks(n);
          assert Done(i / BATCH);
        }
      }
      assert produced == multiset(Interval(0, n));
      assert |multiset(Interval(0, n))| == |Interval(0, n)|;
    }

    /** INSERT ... GENERATE from its first spawn to a closed channel, with every flush working. */
    method RunToTheEnd(schedule: seq<Event>)
      requires Valid() && launchedWorkers == 0 && flushed
      requires forall e :: e in schedule && e.Flush? ==> FlushesAll(e.fate)
      modifies this
      ensures Valid() && (closes == 1 ==> inserted + errors == n && produced == multiset(Interval(0, n)))
    {
      Run(schedule);
      if closes >= 1 {
        ClosedMeansComplete();
      }
    }
  }
}
