/** Redo after a crash (wal_recovery.go): the log's inserts and deletes-by-filter replayed over
    whatever part of them the store already holds. */
module WalRedo {
  import opened JsonValues
  import opened Options
  import opened QueryFilter

  type Docs = map<string, Data>

  datatype Entry = Insert(id: string, data: Data) | Delete(filters: seq<Filter>)

  /** A logged entry as read back: its checksum may not fit, its payload may not decode. */
  datatype LogRecord = LogRecord(checksumOk: bool, payload: Option<Entry>)

  /** The document an insert stores: its id also sits in the data. */
  function Stored(id: string, data: Data): Data {
    if id != "" then data["id" := Str(id)] else data
  }

  predicate Matches(m: Matching, data: Data, filters: seq<Filter>) {
    FoldFilters(ResultsOf(m, data, filters), LogicsOf(filters))
  }

  function Apply(m: Matching, docs: Docs, e: Entry): Docs {
    match e
    case Insert(id, data) => docs[id := Stored(id, data)]
    case Delete(filters) => map id <- docs | !Matches(m, docs[id], filters) :: docs[id]
  }

  /** The complete run of a log. */
  function Replay(m: Matching, docs: Docs, log: seq<Entry>): Docs
    decreases |log|
  {
    if log == [] then docs else Replay(m, Apply(m, docs, log[0]), log[1..])
  }

  /** The entries recovery applies: intact and decodable. */
  function Intact(records: seq<LogRecord>): seq<Entry> {
    if records == [] then []
    else
      var r := records[|records| - 1];
      Intact(records[..|records| - 1]) + if r.checksumOk && r.payload.Some? then [r.payload.value] else []
  }

  lemma IntactNext(records: seq<LogRecord>, i: nat)
    requires i < |records|
    ensures
      var r := records[i];
      Intact(records[..i + 1]) == if r.checksumOk && r.payload.Some? then Intact(records[..i]) + [r.payload.value]
                                  else Intact(records[..i])
  {
    assert records[..i + 1][..i] == records[..i];
  }

  lemma {:induction false} ReplaySnoc(m: Matching, docs: Docs, log: seq<Entry>, e: Entry)
    ensures Replay(m, docs, log + [e]) == Apply(m, Replay(m, docs, log), e)
    decreases |log|
  {
    if log != [] {
      ReplaySnoc(m, Apply(m, docs, log[0]), log[1..], e);
      assert (log + [e])[1..] == log[1..] + [e];
    } else {
      assert (log + [e])[1..] == [];
    }
  }

  /** What one delete does, document by document. */
  lemma DeleteKeeps(m: Matching, docs: Docs, filters: seq<Filter>)
    ensures var after := Apply(m, docs, Delete(filters));
      && (forall id :: id in after <==> id in docs && !FoldFilters(ResultsOf(m, docs[id], filters), LogicsOf(filters)))
      && (forall id :: id in after ==> after[id] == docs[id])
  {
  }

  /** What the last entry of a log does to what the others left. */
  lemma LastEntry(m: Matching, docs: Docs, log: seq<Entry>)
    requires log != []
    ensures var (before, last) := (Replay(m, docs, log[..|log| - 1]), log[|log| - 1]);
      && Replay(m, docs, log) == Apply(m, before, last)
      && (last.Delete? ==> forall id :: id in Replay(m, docs, log) <==>
            id in before && !FoldFilters(ResultsOf(m, before[id], last.filters), LogicsOf(last.filters)))
      && (last.Delete? ==> forall id :: id in Replay(m, docs, log) ==> Replay(m, docs, log)[id] == before[id])
      && (last.Insert? ==> last.id in Replay(m, docs, log) && Replay(m, docs, log)[last.id] == Stored(last.id, last.data))
  {
    hide FoldFilters, ResultsOf, LogicsOf, Replay;
    var before, last := Replay(m, docs, log[..|log| - 1]), log[|log| - 1];
    assert log == log[..|log| - 1] + [last];
    ReplaySnoc(m, docs, log[..|log| - 1], last);
    if last.Delete? { DeleteKeeps(m, before, last.filters); }
  }

  /** The documents while those of todo are still to be looked at. */
  ghost function Deleted(m: Matching, docs: Docs, filters: seq<Filter>, todo: set<string>): Docs {
    map id <- docs | id in todo || !Matches(m, docs[id], filters) :: docs[id]
  }

  lemma DeletedEnds(m: Matching, docs: Docs, filters: seq<Filter>)
    ensures Deleted(m, docs, filters, docs.Keys) == docs
    ensures Deleted(m, docs, filters, {}) == Apply(m, docs, Delete(filters))
  {
    hide Matches;
  }

  lemma DeletedNext(m: Matching, docs: Docs, filters: seq<Filter>, todo: set<string>, id: string)
    requires id in docs && id in todo
    ensures id in Deleted(m, docs, filters, todo) && Deleted(m, docs, filters, todo)[id] == docs[id]
    ensures
      var now := Deleted(m, docs, filters, todo);
      Deleted(m, docs, filters, todo - {id}) ==
        if FoldFilters(ResultsOf(m, docs[id], filters), LogicsOf(filters)) then now - {id} else now
  {
    hide FoldFilters;
    assert Matches(m, docs[id], filters) <==> FoldFilters(ResultsOf(m, docs[id], filters), LogicsOf(filters));
    hide Matches;
  }

  /** The first i records have been gone through. */
  ghost predicate Redone(m: Matching, docs0: Docs, docs: Docs, records: seq<LogRecord>, i: nat, applied: nat)
    requires i <= |records|
  {
    docs == Replay(m, docs0, Intact(records[..i])) && applied == |Intact(records[..i])|
  }

  lemma NoneRedone(m: Matching, docs: Docs, records: seq<LogRecord>)
    ensures Redone(m, docs, docs, records, 0, 0)
  {
    assert records[..0] == [];
  }

  lemma AllRedone(m: Matching, docs0: Docs, docs: Docs, records: seq<LogRecord>, applied: nat)
    requires Redone(m, docs0, docs, records, |records|, applied)
    ensures docs == Replay(m, docs0, Intact(records)) && applied == |Intact(records)|
  {
    hide Replay, Intact;
    assert records[..|records|] == records;
  }

  lemma RedoneNext(m: Matching, docs0: Docs, docs: Docs, records: seq<LogRecord>, i: nat, applied: nat)
    requires i < |records| && Redone(m, docs0, docs, records, i, applied)
    ensures
      var r := records[i];
      if r.checksumOk && r.payload.Some? then Redone(m, docs0, Apply(m, docs, r.payload.value), records, i + 1, applied + 1)
      else Redone(m, docs0, docs, records, i + 1, applied)
  {
    hide Intact, Replay, Apply;
    IntactNext(records, i);
    if records[i].checksumOk && records[i].payload.Some? {
      ReplaySnoc(m, docs0, Intact(records[..i]), records[i].payload.value);
    }
  }

  class Engine {
    const matching: Matching
    var docs: Docs

    constructor (matching: Matching, docs: Docs)
      ensures this.matching == matching && this.docs == docs
    {
      this.matching, this.docs := matching, docs;
    }

    method InsertLocal(id: string, data: Data)
      modifies this
      ensures docs == Apply(matching, old(docs), Insert(id, data))
      ensures id in docs && (id != "" ==> "id" in docs[id] && docs[id]["id"] == Str(id))
      ensures forall f :: f in data && f != "id" ==> f in docs[id] && docs[id][f] == data[f]
      ensures forall other :: other != id ==> Get(docs, other) == Get(old(docs), other)
    {
      docs := docs[id := Stored(id, data)];
    }

    method DeleteLocal(filters: seq<Filter>)
      modifies this
      ensures docs == Apply(matching, old(docs), Delete(filters))
      // a document stays, with its data, exactly when the filters do not hold of it; none is new
      ensures forall id :: id in docs <==>
                id in old(docs) && !FoldFilters(ResultsOf(matching, old(docs)[id], filters), LogicsOf(filters))
      ensures forall id :: id in docs ==> docs[id] == old(docs)[id]
    {
      var todo := docs.Keys;
      ghost var before := docs;
      DeleteKeeps(matching, docs, filters);
      DeletedEnds(matching, docs, filters);
      hide Matches, Deleted, Apply;
      while todo != {}
        invariant todo <= before.Keys && docs == Deleted(matching, before, filters, todo)
      {
        var id :| id in todo;
        DeletedNext(matching, before, filters, todo, id);
        todo := todo - {id};
        var hit := MatchesFilters(matching, docs[id], filters);
        if hit {
          docs := docs - {id};
        }
      }
    }

    /** Entry by entry, in batches; damaged entries are skipped. */
    method Recover(records: seq<LogRecord>) returns (applied: nat)
      modifies this
      ensures docs == Replay(matching, old(docs), Intact(records)) && applied == |Intact(records)|
      // when the last intact entry is a delete: what the entries before it left, short of what its filters hold of
      ensures Intact(records) != [] ==> (
        var log, n := Intact(records), |Intact(records)| - 1;
        log[n].Delete? ==> forall id :: id in docs <==>
          id in Replay(matching, old(docs), log[..n]) &&
          !FoldFilters(ResultsOf(matching, Replay(matching, old(docs), log[..n])[id], log[n].filters), LogicsOf(log[n].filters)))
      ensures Intact(records) != [] ==> (
        var log, n := Intact(records), |Intact(records)| - 1;
        log[n].Delete? ==> forall id :: id in docs ==>
          docs[id] == Replay(matching, old(docs), log[..n])[id] &&
          !FoldFilters(ResultsOf(matching, docs[id], log[n].filters), LogicsOf(log[n].filters)))
      // when it is an insert: its document is there, under its id
      ensures Intact(records) != [] ==> (
        var e := Intact(records)[|Intact(records)| - 1];
        e.Insert? ==> (
          && e.id in docs && (e.id != "" ==> "id" in docs[e.id] && docs[e.id]["id"] == Str(e.id))
          && forall f :: f in e.data && f != "id" ==> f in docs[e.id] && docs[e.id][f] == e.data[f]))
    {
      ghost var log := Intact(records);
      applied := RedoAll(records);
      hide Intact, Replay, Apply, FoldFilters, ResultsOf, LogicsOf;
      if log != [] {
        LastEntry(matching, old(docs), log);
        assert log[|log| - 1].Insert? ==> docs[log[|log| - 1].id] == Stored(log[|log| - 1].id, log[|log| - 1].data);
      }
    }

    method RedoAll(records: seq<LogRecord>) returns (applied: nat)
      modifies this
      ensures docs == Replay(matching, old(docs), Intact(records)) && applied == |Intact(records)|
    {
      applied := 0;
      var start := 0;
      NoneRedone(matching, docs, records);
      hide Redone;
      while start < |records|
        invariant start <= |records| && Redone(matching, old(docs), docs, records, start, applied)
      {
        var end := if start + 5000 < |records| then start + 5000 else |records|;
        for i := start to end
          invariant Redone(matching, old(docs), docs, records, i, applied)
        {
          RedoneNext(matching, old(docs), docs, records, i, applied);
          if records[i].checksumOk && records[i].payload.Some? {
            Redo(records[i].payload.value);
            applied := applied + 1;
          }
        }
        start := end;
      }
      AllRedone(matching, old(docs), docs, records, applied);
    }

    /** One intact entry, through the path that wrote it. */
    method Redo(e: Entry)
      modifies this
      ensures docs == Apply(matching, old(docs), e)
    {
      match e
      case Insert(id, data) => InsertLocal(id, data);
      case Delete(filters) => DeleteLocal(filters);
    }
  }

  // ---- one document key at a time ----

  function Get(docs: Docs, id: string): Option<Data> {
    if id in docs then Some(docs[id]) else None
  }

  function Seen(m: Matching, id: string, v: Option<Data>, e: Entry): Option<Data> {
    match e
    case Insert(i, data) => if i == id then Some(Stored(i, data)) else v
    case Delete(filters) => if v.Some? && Matches(m, v.value, filters) then None else v
  }

  /** What a key holds after seeing the entries of log. */
  function SeenAll(m: Matching, id: string, v: Option<Data>, log: seq<Entry>): Option<Data>
    decreases |log|
  {
    if log == [] then v else SeenAll(m, id, Seen(m, id, v, log[0]), log[1..])
  }

  lemma {:induction false} ReplayByKey(m: Matching, docs: Docs, log: seq<Entry>, id: string)
    ensures Get(Replay(m, docs, log), id) == SeenAll(m, id, Get(docs, id), log)
    decreases |log|
  {
    if log != [] {
      ReplayByKey(m, Apply(m, docs, log[0]), log[1..], id);
      assert Get(Apply(m, docs, log[0]), id) == Seen(m, id, Get(docs, id), log[0]);
    }
  }

  predicate Inserts(log: seq<Entry>, id: string) {
    exists i :: 0 <= i < |log| && log[i].Insert? && log[i].id == id
  }

  /** With an insert of the key in the log, where it started is forgotten. */
  lemma {:induction false} InsertDecides(m: Matching, id: string, v: Option<Data>, w: Option<Data>, log: seq<Entry>)
    requires Inserts(log, id)
    ensures SeenAll(m, id, v, log) == SeenAll(m, id, w, log)
    decreases |log|
  {
    if !(log[0].Insert? && log[0].id == id) {
      var i :| 0 <= i < |log| && log[i].Insert? && log[i].id == id;
      assert log[1..][i - 1] == log[i];
      InsertDecides(m, id, Seen(m, id, v, log[0]), Seen(m, id, w, log[0]), log[1..]);
    }
  }

  /** Without one, the key keeps its value or loses it. */
  lemma {:induction false} DeletesOnly(m: Matching, id: string, v: Option<Data>, log: seq<Entry>)
    requires !Inserts(log, id)
    ensures SeenAll(m, id, v, log) == v || SeenAll(m, id, v, log) == None
    ensures SeenAll(m, id, None, log) == None
    decreases |log|
  {
    if log != [] {
      forall i | 0 <= i < |log[1..]| ensures !(log[1..][i].Insert? && log[1..][i].id == id) {
        assert log[1..][i] == log[i + 1];
      }
      DeletesOnly(m, id, Seen(m, id, v, log[0]), log[1..]);
    }
  }

  lemma {:induction false} SeenInTwo(m: Matching, id: string, v: Option<Data>, log: seq<Entry>, p: nat)
    requires p <= |log|
    ensures SeenAll(m, id, v, log) == SeenAll(m, id, SeenAll(m, id, v, log[..p]), log[p..])
    decreases p
  {
    if p > 0 {
      SeenInTwo(m, id, Seen(m, id, v, log[0]), log[1..], p - 1);
      assert log[..p][1..] == log[1..][..p - 1] && log[1..][p - 1..] == log[p..];
    }
  }

  /** Seeing the whole log after a part of it is the same as seeing it once. */
  lemma SeenAgain(m: Matching, id: string, v: Option<Data>, log: seq<Entry>, p: nat)
    requires p <= |log|
    ensures SeenAll(m, id, SeenAll(m, id, v, log[..p]), log) == SeenAll(m, id, v, log)
  {
    var x := SeenAll(m, id, v, log[..p]);
    if Inserts(log, id) {
      InsertDecides(m, id, x, v, log);
    } else {
      forall i | 0 <= i < p ensures !(log[..p][i].Insert? && log[..p][i].id == id) {
        assert log[..p][i] == log[i];
      }
      forall i | 0 <= i < |log[p..]| ensures !(log[p..][i].Insert? && log[p..][i].id == id) {
        assert log[p..][i] == log[p + i];
      }
      DeletesOnly(m, id, v, log[..p]);
      DeletesOnly(m, id, v, log[p..]);
      DeletesOnly(m, id, x, log);
      SeenInTwo(m, id, v, log, p);
    }
  }

  /** A crash left every key somewhere along the log, each at its own place. */
  ghost predicate CrashedDuring(m: Matching, before: Docs, log: seq<Entry>, crashed: Docs) {
    forall id :: SawPart(m, before, log, crashed, id)
  }

  ghost predicate SawPart(m: Matching, before: Docs, log: seq<Entry>, crashed: Docs, id: string) {
    exists p :: 0 <= p <= |log| && Get(crashed, id) == SeenAll(m, id, Get(before, id), log[..p])
  }

  /** Redo: replaying the whole log over such a state gives the complete run's documents. */
  lemma RedoRestores(m: Matching, before: Docs, log: seq<Entry>, crashed: Docs)
    requires CrashedDuring(m, before, log, crashed)
    ensures Replay(m, crashed, log) == Replay(m, before, log)
  {
    var x, y := Replay(m, crashed, log), Replay(m, before, log);
    forall id ensures Get(x, id) == Get(y, id) {
      assert SawPart(m, before, log, crashed, id);
      var p :| 0 <= p <= |log| && Get(crashed, id) == SeenAll(m, id, Get(before, id), log[..p]);
      ReplayByKey(m, crashed, log, id);
      ReplayByKey(m, before, log, id);
      SeenAgain(m, id, Get(before, id), log, p);
    }
    SameByKey(x, y);
  }

  lemma SameByKey(x: Docs, y: Docs)
    requires forall id :: Get(x, id) == Get(y, id)
    ensures x == y
  {
    assert forall id :: id in x <==> Get(x, id).Some?;
    assert forall id :: id in y <==> Get(y, id).Some?;
    assert forall id :: id in x ==> Get(x, id) == Some(x[id]);
    assert forall id :: id in y ==> Get(y, id) == Some(y[id]);
  }

  /** Replaying once more, as a second recovery of the same log would, changes nothing. */
  lemma RedoIdempotent(m: Matching, before: Docs, log: seq<Entry>)
    ensures Replay(m, Replay(m, before, log), log) == Replay(m, before, log)
  {
    forall id ensures SawPart(m, before, log, Replay(m, before, log), id) {
      ReplayByKey(m, before, log, id);
      assert log[..|log|] == log;
    }
    RedoRestores(m, before, log, Replay(m, before, log));
  }
}
