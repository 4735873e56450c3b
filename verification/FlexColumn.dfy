/** The in-memory columnar index of flexcolumn.go for one block: value sets per field, and per
    document the values it was indexed under. */
module FlexColumn {
  import opened JsonValues
  import opened NestedFields
  import opened Options
  import opened QueryFilter
  import opened Text

  type Index = map<string, map<string, set<string>>>
  type Fields = map<string, string>

  /** The ids recorded under a field and a value text. */
  function Entry(index: Index, field: string, value: string): set<string> {
    if field in index && value in index[field] then index[field][value] else {}
  }

  function AddTo(index: Index, field: string, value: string, id: string): Index {
    var values := if field in index then index[field] else map[];
    index[field := values[value := Entry(index, field, value) + {id}]]
  }

  /** Taking an id out; a value set that empties is dropped. */
  function RemoveFrom(index: Index, field: string, value: string, id: string): Index {
    if field !in index || value !in index[field] then index
    else
      var ids := index[field][value] - {id};
      index[field := if ids == {} then index[field] - {value} else index[field][value := ids]]
  }

  lemma AddEntries(index: Index, f: string, v: string, id: string)
    ensures forall g, w :: Entry(AddTo(index, f, v, id), g, w) ==
              if g == f && w == v then Entry(index, f, v) + {id} else Entry(index, g, w)
    ensures NoEmptySets(index) ==> NoEmptySets(AddTo(index, f, v, id))
  {
  }

  lemma RemoveEntries(index: Index, f: string, v: string, id: string)
    ensures forall g, w :: Entry(RemoveFrom(index, f, v, id), g, w) ==
              if g == f && w == v then Entry(index, f, v) - {id} else Entry(index, g, w)
    ensures NoEmptySets(index) ==> NoEmptySets(RemoveFrom(index, f, v, id))
  {
  }

  ghost predicate NoEmptySets(index: Index) {
    forall f, v :: f in index && v in index[f] ==> index[f][v] != {}
  }

  predicate Has(docFields: map<string, Fields>, id: string, f: string, v: string) {
    id in docFields && f in docFields[id] && docFields[id][f] == v
  }

  /** An id is in a value set exactly when its document was indexed under that value. */
  ghost predicate Consistent(index: Index, docFields: map<string, Fields>) {
    NoEmptySets(index) && forall f, v, id :: id in Entry(index, f, v) <==> Has(docFields, id, f, v)
  }

  /** Settings and host conversions: the field cap and the text of a value. */
  datatype FlexConfig = FlexConfig(maxFields: int, sprint: Json -> string)

  function ScalarFields(data: Data): set<string> {
    set f <- data | Scalar(data[f])
  }

  /** The names before f. */
  function Lower(names: set<string>, f: string): set<string> {
    set g <- names | TextBelow(g, f)
  }

  /** The scalar fields, or the first maxFields of them in string order. */
  function IndexableFields(cfg: FlexConfig, data: Data): set<string> {
    var fields := ScalarFields(data);
    if cfg.maxFields > 0 && |fields| > cfg.maxFields then
      set f <- fields | |Lower(fields, f)| < cfg.maxFields
    else fields
  }

  /** Booleans, numbers and texts are indexed; over the cap, as many as it allows and the lowest names first. */
  lemma CapKeepsFirst(cfg: FlexConfig, data: Data)
    ensures
      var all := set f <- data | data[f].Bool? || data[f].Num? || data[f].Str?;
      var kept := IndexableFields(cfg, data);
      && kept <= all
      && |kept| == (if 0 < cfg.maxFields < |all| then cfg.maxFields else |all|)
      && forall f, g :: f in kept && g in all && g !in kept ==> TextBelow(f, g)
  {
    var fields := ScalarFields(data);
    assert fields == set f <- data | data[f].Bool? || data[f].Num? || data[f].Str?;
    if 0 < cfg.maxFields < |fields| {
      FirstFew(fields, cfg.maxFields);
      forall f, g | f in fields && g in fields && |Lower(fields, f)| < cfg.maxFields <= |Lower(fields, g)| ensures TextBelow(f, g) {
        LowerGrows(fields, f, g);
      }
    }
  }

  lemma LowerGrows(names: set<string>, f: string, g: string)
    requires |Lower(names, f)| < |Lower(names, g)|
    ensures TextBelow(f, g)
  {
    if !TextBelow(f, g) {
      forall x | x in Lower(names, g) ensures x in Lower(names, f) {
        TextTotal(f, g);
        if f != g { TextTransitive(x, g, f); }
      }
      SubsetSize(Lower(names, g), Lower(names, f));
    }
  }

  lemma {:induction false} SubsetSize<T>(a: set<T>, b: set<T>)
    requires a <= b
    ensures |a| <= |b|
  {
    assert a + (b - a) == b;
  }

  lemma {:induction false} LastName(names: set<string>) returns (last: string)
    requires names != {}
    ensures last in names && forall f :: f in names && f != last ==> TextBelow(f, last)
    decreases |names|
  {
    hide TextBelow;
    var x :| x in names;
    last := x;
    if names != {x} {
      var y := LastName(names - {x});
      TextTotal(x, y);
      if TextBelow(x, y) {
        last := y;
      } else {
        forall f | f in names && f != x ensures TextBelow(f, x) {
          if f != y { TextTransitive(f, y, x); }
        }
      }
    }
  }

  /** Of a set of names, as many have fewer than n before them as there are, up to n. */
  lemma {:induction false} FirstFew(names: set<string>, n: nat)
    ensures |set f <- names | |Lower(names, f)| < n| == if n < |names| then n else |names|
    decreases |names|
  {
    hide TextBelow;
    if names != {} {
      var last := LastName(names);
      var rest := names - {last};
      FirstFew(rest, n);
      TextTotal(last, last);
      assert Lower(names, last) == rest;
      forall f | f in rest ensures Lower(names, f) == Lower(rest, f) {
        TextTotal(f, last);
      }
      var first := set f <- rest | |Lower(rest, f)| < n;
      assert (set f <- names | |Lower(names, f)| < n) == if |rest| < n then first + {last} else first;
    }
  }

  function StoredFields(cfg: FlexConfig, data: Data): Fields {
    map f <- IndexableFields(cfg, data) | f in data :: cfg.sprint(data[f])
  }

  function Hits(fieldStats: map<string, nat>, f: string): nat {
    if f in fieldStats then fieldStats[f] else 0
  }

  /** The index after an id was put under the fields in done. */
  ghost predicate AddedUnder(index0: Index, index: Index, stored: Fields, done: set<string>, id: string) {
    && (forall f, v :: Entry(index, f, v) == Entry(index0, f, v) + if f in done && f in stored && stored[f] == v then {id} else {})
    && (NoEmptySets(index0) ==> NoEmptySets(index))
  }

  lemma AddStep(index0: Index, index: Index, stored: Fields, done: set<string>, id: string, f: string)
    requires AddedUnder(index0, index, stored, done, id) && f in stored
    ensures AddedUnder(index0, AddTo(index, f, stored[f], id), stored, done + {f}, id)
  {
    AddEntries(index, f, stored[f], id);
    hide Entry, AddTo, NoEmptySets;
  }

  lemma AddNothing(index: Index, stored: Fields, id: string)
    ensures AddedUnder(index, index, stored, {}, id)
  {
  }

  /** One more use of every field in done. */
  ghost predicate CountedOnce(stats0: map<string, nat>, stats: map<string, nat>, done: set<string>) {
    forall f :: Hits(stats, f) == Hits(stats0, f) + if f in done then 1 else 0
  }

  class FlexBlock {
    const cfg: FlexConfig
    var index: Index
    var docFields: map<string, Fields>
    var fieldStats: map<string, nat>

    ghost predicate Valid()
      reads this
    {
      Consistent(index, docFields)
    }

    constructor (cfg: FlexConfig)
      ensures this.cfg == cfg && Valid() && docFields == map[] && index == map[]
    {
      this.cfg, index, docFields, fieldStats := cfg, map[], map[], map[];
    }

    /** Indexes a document under its fields. Exact for an id not indexed yet; over one that is,
        exact only if every old field comes back with its old value. */
    method Insert(id: string, data: Data)
      modifies this
      ensures docFields == if IndexableFields(cfg, data) == {} then old(docFields)
                           else old(docFields)[id := StoredFields(cfg, data)]
      ensures forall f, v :: Entry(index, f, v) == old(Entry(index, f, v)) +
                if Has(map[id := StoredFields(cfg, data)], id, f, v) then {id} else {}
      ensures forall f :: Hits(fieldStats, f) == old(Hits(fieldStats, f)) + if f in IndexableFields(cfg, data) then 1 else 0
      ensures old(Valid()) && IndexableFields(cfg, data) != {} ==>
                (Valid() <==> id !in old(docFields) || old(docFields)[id].Items <= StoredFields(cfg, data).Items)
      ensures old(Valid()) && IndexableFields(cfg, data) == {} ==> Valid()
    {
      var fields := IndexableFields(cfg, data);
      if fields == {} { return; }
      var stored := StoredFields(cfg, data);
      assert stored.Keys == fields;
      AddFields(id, stored);
      docFields := docFields[id := stored];
      if old(Valid()) {
        Reinserted(old(index), old(docFields), index, id, stored);
      }
    }

    /** A new process starts with nothing indexed. */
    method Clear()
      modifies this`index, this`docFields, this`fieldStats
      ensures Valid() && docFields == map[] && index == map[]
    {
      index, docFields, fieldStats := map[], map[], map[];
    }

    /** The loop of an insert: one index entry and one count per field. */
    method AddFields(id: string, stored: Fields)
      modifies this`index, this`fieldStats
      ensures AddedUnder(old(index), index, stored, stored.Keys, id)
      ensures CountedOnce(old(fieldStats), fieldStats, stored.Keys)
    {
      hide AddedUnder, AddTo;
      AddNothing(index, stored, id);
      var todo := stored.Keys;
      assert stored.Keys - todo == {};
      while todo != {}
        invariant todo <= stored.Keys
        invariant AddedUnder(old(index), index, stored, stored.Keys - todo, id)
        invariant CountedOnce(old(fieldStats), fieldStats, stored.Keys - todo)
      {
        var f :| f in todo;
        AddStep(old(index), index, stored, stored.Keys - todo, id, f);
        assert stored.Keys - todo + {f} == stored.Keys - (todo - {f});
        todo := todo - {f};
        index := AddTo(index, f, stored[f], id);
        fieldStats := fieldStats[f := Hits(fieldStats, f) + 1];
      }
      assert stored.Keys - todo == stored.Keys;
    }

    /** removeDocIndexLocked: takes the id out of every value set it was put into. */
    method RemoveDoc(id: string)
      modifies this`index, this`docFields
      ensures docFields == old(docFields) - {id}
      ensures old(Valid()) ==> Valid()
    {
      if id !in docFields { return; }
      var fields := docFields[id];
      var todo := fields.Keys;
      while todo != {}
        invariant todo <= fields.Keys && docFields == old(docFields)
        invariant forall f, v :: Entry(index, f, v) == old(Entry(index, f, v)) -
                    if f !in todo && f in fields && fields[f] == v then {id} else {}
        invariant NoEmptySets(old(index)) ==> NoEmptySets(index)
      {
        var f :| f in todo;
        todo := todo - {f};
        RemoveEntries(index, f, fields[f], id);
        index := RemoveFrom(index, f, fields[f], id);
      }
      docFields := docFields - {id};
    }

    method Update(id: string, data: Data)
      modifies this
      ensures docFields == if IndexableFields(cfg, data) == {} then old(docFields) - {id}
                           else old(docFields)[id := StoredFields(cfg, data)]
      ensures forall f :: Hits(fieldStats, f) == old(Hits(fieldStats, f)) + if f in IndexableFields(cfg, data) then 1 else 0
      ensures old(Valid()) ==> Valid()
    {
      RemoveDoc(id);
      Insert(id, data);
    }

    method Delete(id: string)
      modifies this`index, this`docFields
      ensures docFields == old(docFields) - {id}
      ensures old(Valid()) ==> Valid()
    {
      RemoveDoc(id);
    }
  }

  lemma Reinserted(index0: Index, fields0: map<string, Fields>, index: Index, id: string, stored: Fields)
    requires Consistent(index0, fields0) && NoEmptySets(index)
    requires forall f, v :: Entry(index, f, v) == Entry(index0, f, v) + if f in stored && stored[f] == v then {id} else {}
    ensures Consistent(index, fields0[id := stored]) <==> id !in fields0 || fields0[id].Items <= stored.Items
  {
    var after := fields0[id := stored];
    if id in fields0 && Consistent(index, after) {
      forall p | p in fields0[id].Items ensures p in stored.Items {
        assert Has(fields0, id, p.0, p.1);
        assert id in Entry(index, p.0, p.1);
        assert Has(after, id, p.0, p.1);
      }
    }
    if id !in fields0 || fields0[id].Items <= stored.Items {
      forall f, v, i ensures i in Entry(index, f, v) <==> Has(after, i, f, v) {
        if Has(fields0, id, f, v) {
          assert (f, v) in fields0[id].Items;
          assert (f, v) in stored.Items;
        }
        assert i in Entry(index0, f, v) <==> Has(fields0, i, f, v);
      }
    }
  }

  /** Every document with something to index is recorded under its present fields, and nothing else is. */
  ghost predicate Mirrors(cfg: FlexConfig, docFields: map<string, Fields>, docs: map<string, Data>) {
    forall id :: Mirrored(cfg, docFields, docs, id)
  }

  ghost predicate Mirrored(cfg: FlexConfig, docFields: map<string, Fields>, docs: map<string, Data>, id: string) {
    && (id in docFields <==> id in docs && IndexableFields(cfg, docs[id]) != {})
    && (id in docFields ==> docFields[id] == StoredFields(cfg, docs[id]))
  }

  /** What is recorded once a document has been indexed anew. */
  function Reindexed(cfg: FlexConfig, docFields: map<string, Fields>, id: string, data: Data): map<string, Fields> {
    if IndexableFields(cfg, data) == {} then docFields - {id} else docFields[id := StoredFields(cfg, data)]
  }

  lemma PutMirrors(cfg: FlexConfig, docFields: map<string, Fields>, docs: map<string, Data>, id: string, data: Data)
    requires Mirrors(cfg, docFields, docs)
    ensures Mirrors(cfg, Reindexed(cfg, docFields, id, data), docs[id := data])
    ensures Mirrors(cfg, docFields - {id}, docs - {id})
  {
    hide IndexableFields, StoredFields;
    var put, after := Reindexed(cfg, docFields, id, data), docs[id := data];
    forall i ensures Mirrored(cfg, put, after, i) {
      assert Mirrored(cfg, docFields, docs, i);
    }
    var rest := docFields - {id};
    forall i ensures Mirrored(cfg, rest, docs - {id}, i) {
      assert Mirrored(cfg, docFields, docs, i);
    }
  }

  /** An undotted equality on a text that only scalars have. */
  ghost predicate Columnar(cfg: FlexConfig, f: Filter) {
    && (f.op == "=" || f.op == "==") && !HasTail(f.field) && !IsCountField(f.field)
    && forall v: Json :: cfg.sprint(v) == cfg.sprint(f.value) ==> Scalar(v)
  }

  /** It selects exactly the documents a scan would match whose field the cap did not drop. */
  lemma QueryIsScan(cfg: FlexConfig, m: Matching, index: Index, docFields: map<string, Fields>,
                    docs: map<string, Data>, f: Filter, id: string)
    requires m.sprint == cfg.sprint && Consistent(index, docFields) && Mirrors(cfg, docFields, docs) && Columnar(cfg, f)
    ensures id in Entry(index, f.field, cfg.sprint(f.value)) <==>
              id in docs && MatchFilter(m, docs[id], f) && f.field in IndexableFields(cfg, docs[id])
  {
    assert Mirrored(cfg, docFields, docs, id);
    assert id in Entry(index, f.field, cfg.sprint(f.value)) <==> Has(docFields, id, f.field, cfg.sprint(f.value));
    if id in docs {
      MatchByText(cfg, m, docs[id], f);
    }
  }

  lemma MatchByText(cfg: FlexConfig, m: Matching, data: Data, f: Filter)
    requires m.sprint == cfg.sprint && Columnar(cfg, f)
    ensures MatchFilter(m, data, f) <==> f.field in data && Scalar(data[f.field]) && cfg.sprint(data[f.field]) == cfg.sprint(f.value)
  {
    var values := NestedValues(m, data, f.field);
    assert Head(f.field) == f.field;
    assert values == if f.field in data then [data[f.field]] else [];
    var v := if f.field in data then data[f.field] else Null;
    assert MatchFilter(m, data, f) <==> MatchValue(m, v, f) by {
      assert f.field in data ==> v in values;
    }
    assert MatchValue(m, v, f) <==> cfg.sprint(v) == cfg.sprint(f.value);
  }

  // ---- the block's documents and the index beside them ----

  datatype Op = StoreNew(id: string, data: Data) | Rewrite(id: string, data: Data) | Drop(id: string) | Restart

  /** The documents written since the process started: the ones the index can know. */
  function Known(docs: map<string, Data>, known: set<string>): map<string, Data> {
    map id <- docs | id in known :: docs[id]
  }

  /** The filter matches the document and the index can tell. */
  predicate Recorded(cfg: FlexConfig, m: Matching, known: set<string>, id: string, data: Data, f: Filter) {
    id in known && MatchFilter(m, data, f) && f.field in IndexableFields(cfg, data)
  }

  class Collection {
    const flex: FlexBlock
    var docs: map<string, Data>
    ghost var known: set<string>

    ghost predicate Valid()
      reads this, flex
    {
      flex.Valid() && Mirrors(flex.cfg, flex.docFields, Known(docs, known))
    }

    constructor (cfg: FlexConfig)
      ensures Valid() && docs == map[] && known == {} && flex.cfg == cfg && fresh(flex)
    {
      flex := new FlexBlock(cfg);
      docs, known := map[], {};
    }

    /** One write and the index call after it. A stored id is not inserted again, and only stored documents
        are rewritten. A restart keeps the documents and empties the index. */
    method Apply(op: Op)
      requires Valid()
      modifies this, flex
      ensures Valid()
      ensures docs == After(old(docs), op) && known == KnownAfter(old(docs), old(known), op)
      ensures op.StoreNew? ==> docs == if op.id in old(docs) then old(docs) else old(docs)[op.id := op.data]
      ensures op.Rewrite? ==> docs == if op.id in old(docs) then old(docs)[op.id := op.data] else old(docs)
      ensures op.Drop? ==> docs == old(docs) - {op.id}
      ensures op.Restart? ==> docs == old(docs) && flex.index == map[]
    {
      hide Mirrors, Consistent;
      ghost var fields0, docs0, known0 := flex.docFields, docs, known;
      match op
      case StoreNew(id, data) =>
        if id !in docs {
          KnownPut(docs0, known0, id, data);
          NotRecorded(flex.cfg, fields0, Known(docs0, known0), id);
          PutMirrors(flex.cfg, fields0, Known(docs0, known0), id, data);
          docs, known := docs[id := data], known + {id};
          flex.Insert(id, data);
        }
      case Rewrite(id, data) =>
        if id in docs {
          KnownPut(docs0, known0, id, data);
          PutMirrors(flex.cfg, fields0, Known(docs0, known0), id, data);
          docs, known := docs[id := data], known + {id};
          flex.Update(id, data);
        }
      case Drop(id) =>
        KnownPut(docs0, known0, id, map[]);
        PutMirrors(flex.cfg, fields0, Known(docs0, known0), id, map[]);
        docs, known := docs - {id}, known - {id};
        flex.Delete(id);
      case Restart =>
        known := {};
        NothingMirrors(flex.cfg, docs);
        flex.Clear();
    }

    method Run(ops: seq<Op>)
      requires Valid()
      modifies this, flex
      ensures Valid() && docs == AfterAll(old(docs), ops)
    {
      for i := 0 to |ops|
        invariant Valid() && docs == AfterAll(old(docs), ops[..i])
      {
        assert ops[..i + 1][..i] == ops[..i];
        Apply(ops[i]);
      }
      assert ops[..|ops|] == ops;
    }

    /** A single equality: no help for a field never indexed, else the recorded ids that are still stored. After
        every run these are the documents a scan would match, short of those written before the process
        started and those that lost the field to the cap. */
    method QueryEquality(f: Filter, ghost m: Matching) returns (ids: Option<set<string>>)
      requires Valid() && m.sprint == flex.cfg.sprint && Columnar(flex.cfg, f)
      ensures (if ids.Some? then ids.value else {}) == set id <- docs | Recorded(flex.cfg, m, known, id, docs[id], f)
      ensures ids.Some? ==> (ids.value == Matches(m, f) <==>
                forall id :: id in docs && MatchFilter(m, docs[id], f) ==> id in known && f.field in IndexableFields(flex.cfg, docs[id]))
      ensures ids.None? ==> f.field !in flex.index
    {
      ghost var found := Entry(flex.index, f.field, flex.cfg.sprint(f.value));
      forall id ensures id in found <==> id in docs && Recorded(flex.cfg, m, known, id, docs[id], f) {
        QueryIsScan(flex.cfg, m, flex.index, flex.docFields, Known(docs, known), f, id);
      }
      hide MatchFilter, IndexableFields, Mirrors, Consistent;
      if f.field !in flex.index {
        assert found == {};
        return None;
      }
      ids := Some(set id <- Entry(flex.index, f.field, flex.cfg.sprint(f.value)) | id in docs);
      assert ids.value == found;
    }

    ghost function Matches(m: Matching, f: Filter): set<string>
      reads this
    {
      set id <- docs | MatchFilter(m, docs[id], f)
    }
  }

  function KnownAfter(docs: map<string, Data>, known: set<string>, op: Op): set<string> {
    match op
    case StoreNew(id, _) => if id in docs then known else known + {id}
    case Rewrite(id, _) => if id in docs then known + {id} else known
    case Drop(id) => known - {id}
    case Restart => {}
  }

  lemma KnownPut(docs: map<string, Data>, known: set<string>, id: string, data: Data)
    ensures Known(docs[id := data], known + {id}) == Known(docs, known)[id := data]
    ensures Known(docs - {id}, known - {id}) == Known(docs, known) - {id}
  {
  }

  lemma NothingMirrors(cfg: FlexConfig, docs: map<string, Data>)
    ensures Mirrors(cfg, map[], Known(docs, {}))
  {
  }

  function After(docs: map<string, Data>, op: Op): map<string, Data> {
    match op
    case StoreNew(id, data) => if id in docs then docs else docs[id := data]
    case Rewrite(id, data) => if id in docs then docs[id := data] else docs
    case Drop(id) => docs - {id}
    case Restart => docs
  }

  function AfterAll(docs: map<string, Data>, ops: seq<Op>): map<string, Data> {
    if ops == [] then docs else After(AfterAll(docs, ops[..|ops| - 1]), ops[|ops| - 1])
  }

  lemma NotRecorded(cfg: FlexConfig, docFields: map<string, Fields>, docs: map<string, Data>, id: string)
    requires Mirrors(cfg, docFields, docs) && id !in docs
    ensures id !in docFields && docFields - {id} == docFields
  {
    assert Mirrored(cfg, docFields, docs, id);
  }
}
