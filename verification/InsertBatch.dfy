/** How a bulk insert counts its documents (ops_insert.go): preparation failures and rejected
    writes are errors, the rest is inserted, and a failing flush in mid-batch stops the count. */
module InsertBatches {

  /** One document's fate up to the flush: rejected in preparation, refused by the write batch, or set. */
  datatype Outcome = Unprepared | Refused | Set

  function Count(docs: seq<Outcome>, o: Outcome): (c: nat)
    ensures c <= |docs|
  {
    if docs == [] then 0 else Count(docs[..|docs| - 1], o) + if docs[|docs| - 1] == o then 1 else 0
  }

  lemma {:induction false} CountIs(docs: seq<Outcome>, o: Outcome)
    ensures Count(docs, o) == multiset(docs)[o]
  {
    if docs != [] {
      CountIs(docs[..|docs| - 1], o);
      assert docs == docs[..|docs| - 1] + [docs[|docs| - 1]];
    }
  }

  function Prepared(docs: seq<Outcome>): nat {
    Count(docs, Refused) + Count(docs, Set)
  }

  lemma {:induction false} CountAll(docs: seq<Outcome>)
    ensures Count(docs, Unprepared) + Prepared(docs) == |docs|
  {
    if docs != [] {
      CountAll(docs[..|docs| - 1]);
    }
  }

  lemma {:induction false} CountSplit(docs: seq<Outcome>, i: nat, o: Outcome)
    requires i <= |docs|
    ensures Count(docs, o) == Count(docs[..i], o) + Count(docs[i..], o)
  {
    if i < |docs| {
      var init := docs[..|docs| - 1];
      CountSplit(init, i, o);
      assert init[..i] == docs[..i] && docs[i..][..|docs[i..]| - 1] == init[i..];
    } else {
      assert docs[..i] == docs && docs[i..] == [];
    }
  }

  /** What a call reports, and the documents it reports nothing about. */
  datatype Tally = Tally(inserted: nat, errors: nat, lost: nat)

  function Plus(a: Tally, b: Tally): Tally {
    Tally(a.inserted + b.inserted, a.errors + b.errors, a.lost + b.lost)
  }

  /** The i-th document fills a flush, and that flush fails. */
  predicate FailsAt(docs: seq<Outcome>, i: nat, flushSize: nat, flushOk: nat -> bool)
    requires i < |docs| && flushSize >= 1
  {
    var written := Count(docs[..i + 1], Set);
    docs[i] == Set && written % flushSize == 0 && !flushOk(written / flushSize)
  }

  /** How many documents are walked: up to the first failing flush, counted from i. */
  function Cut(docs: seq<Outcome>, i: nat, flushSize: nat, flushOk: nat -> bool): (cut: nat)
    requires i <= |docs| && flushSize >= 1
    ensures i <= cut <= |docs|
    ensures forall k :: i <= k < cut - 1 ==> !FailsAt(docs, k, flushSize, flushOk)
    ensures cut < |docs| ==> cut > i && FailsAt(docs, cut - 1, flushSize, flushOk)
    decreases |docs| - i
  {
    if i == |docs| then i
    else if FailsAt(docs, i, flushSize, flushOk) then i + 1
    else Cut(docs, i + 1, flushSize, flushOk)
  }

  /** One piece: the write-ahead log accepts it whole or not at all; then the prepared documents up to
      the cut are inserted or refused. A failed flush does not take its documents back out of the count. */
  function PieceTally(docs: seq<Outcome>, walOk: bool, flushSize: nat, flushOk: nat -> bool): Tally
    requires flushSize >= 1
  {
    if !walOk then Tally(0, |docs|, 0)
    else
      var cut := Cut(docs, 0, flushSize, flushOk);
      Tally(Count(docs[..cut], Set), Count(docs, Unprepared) + Count(docs[..cut], Refused), Prepared(docs[cut..]))
  }

  /** Inserted, failed and lost documents are all there are; what is lost comes after a failing flush. */
  lemma PieceAddsUp(docs: seq<Outcome>, walOk: bool, flushSize: nat, flushOk: nat -> bool)
    requires flushSize >= 1
    ensures var t := PieceTally(docs, walOk, flushSize, flushOk);
      && t.inserted + t.errors + t.lost == |docs|
      && (t.lost > 0 ==> walOk && exists k: nat :: !flushOk(k))
  {
    var cut := Cut(docs, 0, flushSize, flushOk);
    CountAll(docs);
    CountSplit(docs, cut, Set);
    CountSplit(docs, cut, Refused);
    if cut < |docs| {
      assert !flushOk(Count(docs[..cut], Set) / flushSize);
    } else {
      assert docs[cut..] == [];
    }
  }

  lemma FailsHere(docs: seq<Outcome>, i: nat, flushSize: nat, flushOk: nat -> bool)
    requires i < |docs| && flushSize >= 1
    ensures
      var written := Count(docs[..i], Set) + 1;
      docs[i] == Set ==> (FailsAt(docs, i, flushSize, flushOk) <==> written % flushSize == 0 && !flushOk(written / flushSize))
    ensures docs[i] != Set ==> !FailsAt(docs, i, flushSize, flushOk)
  {
    assert docs[..i + 1][..i] == docs[..i];
  }

  lemma PieceCounts(docs: seq<Outcome>, walOk: bool, flushSize: nat, flushOk: nat -> bool)
    requires flushSize >= 1
    ensures
      var t := PieceTally(docs, walOk, flushSize, flushOk);
      && (!walOk ==> t.inserted == 0 && t.errors == |docs|)
      && (walOk && (forall k: nat :: flushOk(k)) ==>
            t.inserted == multiset(docs)[Set] && t.errors == multiset(docs)[Unprepared] + multiset(docs)[Refused])
      && (walOk ==> exists cut: nat | cut <= |docs| ::
            && t.inserted == multiset(docs[..cut])[Set] && t.errors == multiset(docs)[Unprepared] + multiset(docs[..cut])[Refused]
            && (cut == |docs| || (t.inserted % flushSize == 0 && !flushOk(t.inserted / flushSize))))
  {
    var cut := Cut(docs, 0, flushSize, flushOk);
    CountIs(docs[..cut], Set);
    CountIs(docs[..cut], Refused);
    CountIs(docs, Unprepared);
    assert docs[..|docs|] == docs;
  }

  method CommitAll(docs: seq<Outcome>, walOk: bool, flushSize: nat, flushOk: nat -> bool)
    returns (inserted: nat, errors: nat)
    requires flushSize >= 1
    ensures var t := PieceTally(docs, walOk, flushSize, flushOk); inserted == t.inserted && errors == t.errors
    // a piece the log refuses fails whole; otherwise every document set counts as inserted, the others as errors
    ensures !walOk ==> inserted == 0 && errors == |docs|
    ensures walOk && (forall k: nat :: flushOk(k)) ==>
              inserted == multiset(docs)[Set] && errors == multiset(docs)[Unprepared] + multiset(docs)[Refused]
    // up to the flush that fails, which counts in full
    ensures walOk ==> exists cut: nat | cut <= |docs| ::
              && inserted == multiset(docs[..cut])[Set] && errors == multiset(docs)[Unprepared] + multiset(docs[..cut])[Refused]
              && (cut == |docs| || (inserted % flushSize == 0 && !flushOk(inserted / flushSize)))
  {
    PieceCounts(docs, walOk, flushSize, flushOk);
    hide PieceTally;
    inserted, errors := CommitPiece(docs, walOk, flushSize, flushOk);
  }

  method CommitPiece(docs: seq<Outcome>, walOk: bool, flushSize: nat, flushOk: nat -> bool)
    returns (inserted: nat, errors: nat)
    requires flushSize >= 1
    ensures var t := PieceTally(docs, walOk, flushSize, flushOk); inserted == t.inserted && errors == t.errors
  {
    hide FailsAt;
    inserted := 0;
    if !walOk {
      return 0, |docs|;
    }
    errors := Count(docs, Unprepared);
    for i := 0 to |docs|
      invariant inserted == Count(docs[..i], Set) && errors == Count(docs, Unprepared) + Count(docs[..i], Refused)
      invariant Cut(docs, 0, flushSize, flushOk) == Cut(docs, i, flushSize, flushOk)
    {
      assert docs[..i + 1][..i] == docs[..i];
      FailsHere(docs, i, flushSize, flushOk);
      match docs[i]
      case Unprepared =>
      case Refused => errors := errors + 1;
      case Set =>
        inserted := inserted + 1;
        var fails := inserted % flushSize == 0 && !flushOk(inserted / flushSize);
        if fails { return; }
    }
  }

  /** The pieces of a long batch from piece p on. */
  function BatchTally(docs: seq<Outcome>, piece: nat, p: nat, flushSize: nat, walOk: nat -> bool, flushOk: (nat, nat) -> bool): Tally
    requires piece >= 1 && flushSize >= 1
    decreases |docs|
  {
    if docs == [] then Tally(0, 0, 0)
    else
      var end := if piece < |docs| then piece else |docs|;
      Plus(PieceTally(docs[..end], walOk(p), flushSize, (k: nat) => flushOk(p, k)),
           BatchTally(docs[end..], piece, p + 1, flushSize, walOk, flushOk))
  }

  /** Over all pieces too, inserted + errors falls short of the batch by exactly what failing flushes
      in mid-piece lost. */
  lemma {:induction false} BatchAddsUp(docs: seq<Outcome>, piece: nat, p: nat, flushSize: nat,
                                       walOk: nat -> bool, flushOk: (nat, nat) -> bool)
    requires piece >= 1 && flushSize >= 1
    ensures var t := BatchTally(docs, piece, p, flushSize, walOk, flushOk);
      && t.inserted + t.errors + t.lost == |docs|
      && (t.lost > 0 ==> exists q: nat, k: nat :: !flushOk(q, k))
    decreases |docs|
  {
    if docs != [] {
      var end := if piece < |docs| then piece else |docs|;
      PieceAddsUp(docs[..end], walOk(p), flushSize, (k: nat) => flushOk(p, k));
      BatchAddsUp(docs[end..], piece, p + 1, flushSize, walOk, flushOk);
    }
  }

  function PieceSize(maxBatch: int): (piece: nat)
    ensures piece >= 1
  {
    if maxBatch <= 0 then 10000 else maxBatch
  }

  /** A batch none of whose flushes fails: the documents set are inserted if the log takes every piece, none if it
      refuses every piece. */
  lemma {:induction false} BatchCounts(docs: seq<Outcome>, piece: nat, p: nat, flushSize: nat,
                                       walOk: nat -> bool, flushOk: (nat, nat) -> bool)
    requires piece >= 1 && flushSize >= 1
    ensures
      var t := BatchTally(docs, piece, p, flushSize, walOk, flushOk);
      && ((forall q: nat :: walOk(q)) && (forall q: nat, k: nat :: flushOk(q, k)) ==>
            t.inserted == multiset(docs)[Set] && t.errors == multiset(docs)[Unprepared] + multiset(docs)[Refused])
      && ((forall q: nat :: !walOk(q)) ==> t.inserted == 0 && t.errors == |docs|)
    decreases |docs|
  {
    hide PieceTally;
    if docs != [] {
      var end := if piece < |docs| then piece else |docs|;
      PieceCounts(docs[..end], walOk(p), flushSize, (k: nat) => flushOk(p, k));
      BatchCounts(docs[end..], piece, p + 1, flushSize, walOk, flushOk);
      assert docs == docs[..end] + docs[end..];
    }
  }

  method InsertBatch(docs: seq<Outcome>, maxBatch: int, flushSize: nat, walOk: nat -> bool, flushOk: (nat, nat) -> bool)
    returns (inserted: nat, errors: nat)
    requires flushSize >= 1
    ensures var t := BatchTally(docs, PieceSize(maxBatch), 0, flushSize, walOk, flushOk);
      inserted == t.inserted && errors == t.errors
    ensures inserted + errors <= |docs|
    ensures (forall p: nat, k: nat :: flushOk(p, k)) ==> inserted + errors == |docs|
    ensures (forall p: nat :: walOk(p)) && (forall p: nat, k: nat :: flushOk(p, k)) ==> inserted == multiset(docs)[Set]
    ensures (forall p: nat :: !walOk(p)) ==> inserted == 0 && errors == |docs|
  {
    hide PieceTally;
    var piece := PieceSize(maxBatch);
    ghost var whole := BatchTally(docs, piece, 0, flushSize, walOk, flushOk);
    BatchAddsUp(docs, piece, 0, flushSize, walOk, flushOk);
    BatchCounts(docs, piece, 0, flushSize, walOk, flushOk);
    inserted, errors := 0, 0;
    var p, rest := 0, docs;
    while rest != []
      invariant whole.inserted == inserted + BatchTally(rest, piece, p, flushSize, walOk, flushOk).inserted
      invariant whole.errors == errors + BatchTally(rest, piece, p, flushSize, walOk, flushOk).errors
      decreases |rest|
    {
      var end := if piece < |rest| then piece else |rest|;
      var ins, errs := CommitAll(rest[..end], walOk(p), flushSize, (k: nat) => flushOk(p, k));
      inserted, errors, rest, p := inserted + ins, errors + errs, rest[end..], p + 1;
    }
  }
}
