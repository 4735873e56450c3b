/** Two runs of Find that lose a document, over blocks filled by InsertWithId. */
module FindLosses {
  import opened FindPath
  import opened JsonValues
  import opened Keys
  import opened NestedFields
  import opened Options
  import opened QueryFilter
  import opened SecondaryIndexes

  /** Texts as the default format writes them; numbers and nested values do not occur in the runs. */
  function TextOf(v: Json): string {
    match v
    case Str(s) => s
    case Null => "<nil>"
    case Bool(b) => if b then "true" else "false"
    case Num(_) => "0"
    case Arr(_) => "[]"
    case Obj(_) => "map[]"
  }

  const Cfg := IndexConfig(false, 1000, s => 0, TextOf, d => 0, d => 0, d => false)

  const Host := Matching(TextOf, v => 0.0, (path, data) => Null, s => s)

  predicate NeverFails(c: Candidate) {
    false
  }

  /** What the block holds after the inserts, and that its index is exact and small. */
  ghost predicate Filled(block: Block, docs: Docs)
    reads block
  {
    && block.cfg == Cfg && block.name == "b" && block.docs == docs && block.Agrees()
    && Regular(Cfg, "b", docs) && |block.index| < ROARING_THRESHOLD
  }

  function Stored(id: string, data: Data): Doc {
    Doc(id, data["id" := Str(id)], "")
  }

  function KeysUnder(doc: Doc, fields: set<string>): set<string> {
    set f | f in fields && Indexed(Cfg, doc, f) :: IndexKey("b", f, TextOf(doc.data[f]), doc.id)
  }

  lemma {:induction false} KeysFew(doc: Doc, fields: set<string>)
    ensures |KeysUnder(doc, fields)| <= |fields|
  {
    if f :| f in fields {
      KeysFew(doc, fields - {f});
      var one := if Indexed(Cfg, doc, f) then {IndexKey("b", f, TextOf(doc.data[f]), doc.id)} else {};
      assert KeysUnder(doc, fields) == KeysUnder(doc, fields - {f}) + one;
    }
  }

  /** A document has no more keys than fields. */
  lemma KeysForFew(doc: Doc)
    ensures |KeysFor(Cfg, "b", doc)| <= |doc.data|
  {
    KeysFew(doc, doc.data.Keys);
    assert KeysFor(Cfg, "b", doc) == KeysUnder(doc, doc.data.Keys);
  }

  /** A block of two documents. */
  method TwoDocs(id1: string, data1: Data, id2: string, data2: Data) returns (block: Block)
    requires id1 != id2 && id1 != "" && id2 != "" && SlashFree(id1) && SlashFree(id2)
    requires |data1| <= 10 && |data2| <= 10
    requires Regular(Cfg, "b", map[id1 := Stored(id1, data1), id2 := Stored(id2, data2)])
    ensures fresh(block) && Filled(block, map[id1 := Stored(id1, data1), id2 := Stored(id2, data2)])
  {
    hide Expected, KeysFor;
    block := new Block(Cfg, "b");
    var doc1 := block.InsertWithId(id1, data1, "");
    assert block.Agrees() && |block.index| <= |KeysFor(Cfg, "b", doc1)|;
    var doc2 := block.InsertWithId(id2, data2, "");
    KeysForFew(doc1);
    KeysForFew(doc2);
    assert |doc1.data| <= 11 && |doc2.data| <= 11;
    assert |block.index| <= |KeysFor(Cfg, "b", doc1)| + |KeysFor(Cfg, "b", doc2)|;
  }

  /** The host of these runs tells the texts "1" and "2" from everything but the strings. */
  lemma PlainTexts(f: Filter)
    requires (f.field == "a" || f.field == "b") && f.op == "=" && (f.value == Str("1") || f.value == Str("2"))
    ensures Answerable(Cfg, f)
  {
    assert f.field[0] != '.';
  }

  const A1 := Filter("a", "=", Str("1"), Null, [], "")
  const OrB2 := Filter("b", "=", Str("2"), Null, [], "OR")
  const ANull := Filter("a", "=", Null, Null, [], "")

  const OrDocs: Docs := map["x" := Stored("x", map["a" := Str("1")]), "y" := Stored("y", map["b" := Str("2")])]
  const NilDocs: Docs := map["x" := Stored("x", map["b" := Str("1")]), "y" := Stored("y", map["a" := Str("<nil>")])]

  lemma OrDocsRegular()
    ensures Regular(Cfg, "b", OrDocs)
  {
    forall id, f | id in OrDocs && Indexed(Cfg, OrDocs[id], f)
      ensures SlashFree(f) && SlashFree(TextOf(OrDocs[id].data[f]))
    {
      if id == "x" {
        assert f == "a" || f == "id";
      } else {
        assert f == "b" || f == "id";
      }
    }
  }

  lemma NilDocsRegular()
    ensures Regular(Cfg, "b", NilDocs)
  {
    forall id, f | id in NilDocs && Indexed(Cfg, NilDocs[id], f)
      ensures SlashFree(f) && SlashFree(TextOf(NilDocs[id].data[f]))
    {
      if id == "x" {
        assert f == "b" || f == "id";
      } else {
        assert f == "a" || f == "id";
        assert f == "a" ==> TextOf(NilDocs[id].data[f]) == "<nil>";
      }
    }
  }

  lemma Matched(f: Filter, id: string)
    requires (f == A1 || f == OrB2) && id in OrDocs
    ensures MatchFilter(Host, OrDocs[id].data, f) <==> (f == A1 <==> id == "x")
  {
    PlainTexts(f);
    EqualityMeaning(Host, Cfg, OrDocs[id], f);
  }

  lemma OrSides()
    ensures (set id <- OrDocs | MatchFilter(Host, OrDocs[id].data, A1)) == {"x"}
    ensures (set id <- OrDocs | MatchFilter(Host, OrDocs[id].data, OrB2)) == {"y"}
  {
    hide MatchFilter;
    forall id | id in OrDocs
      ensures MatchFilter(Host, OrDocs[id].data, A1) <==> id == "x"
      ensures MatchFilter(Host, OrDocs[id].data, OrB2) <==> id == "y"
    {
      Matched(A1, id);
      Matched(OrB2, id);
    }
  }

  lemma OrAnswer(stats: map<string, IndexStats>)
    ensures Selected(Host, OrDocs, OrList(A1, OrB2)) == {"x", "y"}
    ensures
      var folded := FoldIds(Expected(Cfg, "b", OrDocs), "b", NeverFails, PlanOf(stats, TextOf, [A1, OrB2]));
      Answer(Host, OrDocs, OrList(A1, OrB2), folded) == {"x"} || Answer(Host, OrDocs, OrList(A1, OrB2), folded) == {"y"}
  {
    hide MatchFilter, Selected, PlanOf, FoldIds, Regular, Expected, LookupIn;
    OrDocsRegular();
    PlainTexts(A1);
    PlainTexts(OrB2);
    OrSides();
    OrSelects(Host, OrDocs, A1, OrB2);
    EqualityLookup(Host, Cfg, "b", OrDocs, A1);
    EqualityLookup(Host, Cfg, "b", OrDocs, OrB2);
    PlanOfTwo(stats, TextOf, A1, OrB2);
    OrListComplete(Host, Cfg, "b", OrDocs, stats, NeverFails, A1, OrB2);
    var index, plan := Expected(Cfg, "b", OrDocs), PlanOf(stats, TextOf, [A1, OrB2]);
    var best := LookupIn(index, "b", plan[0]);
    assert best == {"x"} || best == {"y"};
    assert FoldIds(index, "b", NeverFails, plan) == best;
  }

  lemma NilAnswer(stats: map<string, IndexStats>)
    ensures Selected(Host, NilDocs, Query(None, [ANull], false, "")) == {"x", "y"}
    ensures
      var folded := FoldIds(Expected(Cfg, "b", NilDocs), "b", NeverFails, PlanOf(stats, TextOf, [ANull]));
      Answer(Host, NilDocs, Query(None, [ANull], false, ""), folded) == {"y"}
  {
    hide PlanOf, FoldIds, Regular, Expected, MatchesQuery, Holds;
    NilDocsRegular();
    var q := Query(None, [ANull], false, "");
    assert IsOnlyEligible(q.filters, ANull, 0);
    OneCandidate(Host, Cfg, "b", NilDocs, stats, NeverFails, q, ANull);
    forall id | id in NilDocs
      ensures MatchesQuery(Host, NilDocs[id], q)
      ensures Holds(Cfg, NilDocs[id], "a", "<nil>") <==> id == "y"
    {
      NilFacts(id);
    }
    assert Holders(Cfg, NilDocs, "a", "<nil>") == {"y"};
    assert Selected(Host, NilDocs, q) == {"x", "y"};
  }

  lemma NilFacts(id: string)
    requires id in NilDocs
    ensures MatchesQuery(Host, NilDocs[id], Query(None, [ANull], false, ""))
    ensures Holds(Cfg, NilDocs[id], "a", "<nil>") <==> id == "y"
  {
    NilMatches(Host, NilDocs[id], ANull);
  }

  const DottedEq := Filter("a.b", "=", Str("1"), Null, [], "")

  const DottedDocs: Docs := map["x" := Stored("x", map["a" := Obj(map["b" := Str("1")])]), "y" := Stored("y", map["a.b" := Str("1")])]

  lemma DottedDocsRegular()
    ensures Regular(Cfg, "b", DottedDocs)
  {
    forall id, f | id in DottedDocs && Indexed(Cfg, DottedDocs[id], f)
      ensures SlashFree(f) && SlashFree(TextOf(DottedDocs[id].data[f]))
    {
      if id == "x" {
        assert f == "id";
      } else {
        assert f == "a.b" || f == "id";
      }
    }
  }

  lemma DottedPath()
    ensures Head("a.b") == "a" && HasTail("a.b") && Tail("a.b") == "b" && Head("b") == "b" && !HasTail("b")
  {
    DotUnique("a.b", 1);
    DotUnique("b", 1);
  }

  /** The nested value matches and the literal name does not; only the literal name is indexed as the query asks. */
  lemma DottedFacts(id: string)
    requires id in DottedDocs
    ensures MatchesQuery(Host, DottedDocs[id], Query(None, [DottedEq], false, "")) <==> id == "x"
    ensures Holds(Cfg, DottedDocs[id], "a.b", "1") <==> id == "y"
  {
    var data := DottedDocs[id].data;
    DottedValues(id);
    assert ResultsOf(Host, data, [DottedEq]) == [MatchFilter(Host, data, DottedEq)];
    hide MatchFilter;
  }

  lemma DottedValues(id: string)
    requires id in DottedDocs
    ensures MatchFilter(Host, DottedDocs[id].data, DottedEq) <==> id == "x"
  {
    DottedPath();
    var data := DottedDocs[id].data;
    var values := NestedValues(Host, data, "a.b");
    if id == "x" {
      assert NestedValues(Host, data["a"].fields, "b") == [Str("1")];
      assert values == [Str("1")];
      assert MatchValue(Host, values[0], DottedEq);
    } else {
      assert values == [];
      assert !MatchValue(Host, Null, DottedEq);
    }
  }

  lemma DottedAnswer(stats: map<string, IndexStats>)
    ensures Selected(Host, DottedDocs, Query(None, [DottedEq], false, "")) == {"x"}
    ensures
      var folded := FoldIds(Expected(Cfg, "b", DottedDocs), "b", NeverFails, PlanOf(stats, TextOf, [DottedEq]));
      Answer(Host, DottedDocs, Query(None, [DottedEq], false, ""), folded) == {}
  {
    hide PlanOf, FoldIds, Regular, Expected, MatchesQuery, Holds;
    DottedDocsRegular();
    var q := Query(None, [DottedEq], false, "");
    assert IsOnlyEligible(q.filters, DottedEq, 0);
    OneCandidate(Host, Cfg, "b", DottedDocs, stats, NeverFails, q, DottedEq);
    forall id | id in DottedDocs
      ensures MatchesQuery(Host, DottedDocs[id], q) <==> id == "x"
      ensures Holds(Cfg, DottedDocs[id], "a.b", "1") <==> id == "y"
    {
      DottedFacts(id);
    }
    assert Holders(Cfg, DottedDocs, "a.b", "1") == {"y"};
    assert Selected(Host, DottedDocs, q) == {"x"};
  }

  /** `a = 1 OR b = 2` over one document of each side, whatever the ranking: the better lookup answers for
      both sides, and the document of the other one is lost. */
  method OrListLosesADocument(opt: QueryOptimizer, hash: string -> int) returns (block: Block, ids: seq<string>)
    ensures fresh(block) && Selected(Host, block.docs, OrList(A1, OrB2)) == {"x", "y"}
    ensures IdSet(ids) == {"x"} || IdSet(ids) == {"y"}
  {
    hide Selected, Regular, FoldIds, PlanOf, Expected, Served, Harmless, ReadsOnce, DecodesEachOnce, WithinOneLookup;
    OrDocsRegular();
    block := TwoDocs("x", map["a" := Str("1")], "y", map["b" := Str("2")]);
    assert block.docs == OrDocs;
    OrAnswer(opt.indexStats);
    var indexed;
    ids, indexed := Find(Host, block, opt, NeverFails, hash, OrList(A1, OrB2));
  }

  /** `a = null` over one document without the field and one that stores the text of nil: both match, and
      only the second comes back. */
  method NilLosesADocument(opt: QueryOptimizer, hash: string -> int) returns (block: Block, ids: seq<string>)
    ensures fresh(block) && Selected(Host, block.docs, Query(None, [ANull], false, "")) == {"x", "y"}
    ensures IdSet(ids) == {"y"}
  {
    hide Selected, Regular, FoldIds, PlanOf, Expected, Served, Harmless, ReadsOnce, DecodesEachOnce, WithinOneLookup;
    NilDocsRegular();
    block := TwoDocs("x", map["b" := Str("1")], "y", map["a" := Str("<nil>")]);
    assert block.docs == NilDocs;
    NilAnswer(opt.indexStats);
    var indexed;
    ids, indexed := Find(Host, block, opt, NeverFails, hash, Query(None, [ANull], false, ""));
  }

  /** `a.b = 1` over one document with the nested value and one with the literal name "a.b": the first matches,
      the second is the only one indexed, and nothing comes back. */
  method DottedLosesADocument(opt: QueryOptimizer, hash: string -> int) returns (block: Block, ids: seq<string>)
    ensures fresh(block) && Selected(Host, block.docs, Query(None, [DottedEq], false, "")) == {"x"}
    ensures IdSet(ids) == {}
  {
    hide Selected, Regular, FoldIds, PlanOf, Expected, Served, Harmless, ReadsOnce, DecodesEachOnce, WithinOneLookup;
    DottedDocsRegular();
    block := TwoDocs("x", map["a" := Obj(map["b" := Str("1")])], "y", map["a.b" := Str("1")]);
    assert block.docs == DottedDocs;
    DottedAnswer(opt.indexStats);
    var indexed;
    ids, indexed := Find(Host, block, opt, NeverFails, hash, Query(None, [DottedEq], false, ""));
  }
}
