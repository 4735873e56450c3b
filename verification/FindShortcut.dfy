/** The columnar shortcut that Find takes first (ops_find.go, flexcolumn.go): a single equality is answered from
    the columnar index alone whenever that finds something, without looking at the documents again. */
module FindShortcuts {
  import opened FindPath
  import opened FlexColumn
  import opened JsonValues
  import opened NestedFields
  import opened Options
  import opened QueryFilter
  import opened WhereAst
  import FindLosses
  import Secondary = SecondaryIndexes

  predicate SingleEquality(q: Query) {
    |q.filters| == 1 && (q.filters[0].op == "=" || q.filters[0].op == "==")
  }

  /** The ids the shortcut answers with: recorded under the literal field name and the text, and still stored. */
  function Columns(index: Index, sprint: Json -> string, docs: Secondary.Docs, q: Query): set<string> {
    if !SingleEquality(q) then {}
    else set id <- docs | id in Entry(index, q.filters[0].field, sprint(q.filters[0].value))
  }

  /** Find with its shortcut: the preference for scans, the shard and the WHERE tree play no part in it. */
  method FindWithColumns(m: Matching, block: Secondary.Block, flex: FlexBlock, opt: QueryOptimizer,
                         failed: Candidate -> bool, hash: string -> int, q: Query)
    returns (ids: seq<string>, shortcut: bool)
    requires m.sprint == block.cfg.sprint == flex.cfg.sprint
    ensures shortcut <==> Columns(flex.index, m.sprint, block.docs, q) != {}
    ensures shortcut ==> Secondary.IdSet(ids) == Columns(flex.index, m.sprint, block.docs, q)
    ensures !shortcut ==> Secondary.IdSet(ids) <= Selected(m, block.docs, q)
    ensures !shortcut && Served(m, block, q) ==> Secondary.IdSet(ids) == Selected(m, block.docs, q)
    ensures !shortcut && |block.index| < ROARING_THRESHOLD ==>
      var folded := FoldIds(block.index, block.name, failed, PlanOf(opt.indexStats, m.sprint, q.filters));
      Secondary.IdSet(ids) == Answer(m, block.docs, q, folded)
  {
    hide Served, Selected, FoldIds, PlanOf, Answer, Harmless, WithinOneLookup, DecodesEachOnce;
    ids := [];
    ghost var columns := Columns(flex.index, m.sprint, block.docs, q);
    if SingleEquality(q) {
      var todo := Entry(flex.index, q.filters[0].field, m.sprint(q.filters[0].value));
      while todo != {}
        invariant todo <= Entry(flex.index, q.filters[0].field, m.sprint(q.filters[0].value))
        invariant Secondary.IdSet(ids) == columns - todo
        decreases todo
      {
        var id :| id in todo;
        todo := todo - {id};
        if id in block.docs {
          IdSetSnoc(ids, id);
          ids := ids + [id];
        }
      }
    }
    if ids != [] {
      assert ids[0] in Secondary.IdSet(ids);
      return ids, true;
    }
    assert Secondary.IdSet([]) == {};
    var indexed;
    ids, indexed := Find(m, block, opt, failed, hash, q);
    shortcut := false;
  }

  // ---- when its answer is that of the query ----

  function DataOf(docs: Secondary.Docs): map<string, Data> {
    map id <- docs :: docs[id].data
  }

  /** The query is the one filter, in its WHERE tree, if it has one, or in its list. */
  ghost predicate Means(q: Query, f: Filter) {
    q.filters == [f] && match q.where
                        case Some(e) => e.Cond? && FilterOf(e) == f
                        case None => true
  }

  lemma MeansFilter(m: Matching, d: Secondary.Doc, q: Query, f: Filter)
    requires Means(q, f)
    ensures MatchesQuery(m, d, q) <==> MatchFilter(m, d.data, f) && (q.shardId == "" || d.shardId == q.shardId)
  {
    hide MatchFilter;
    assert ResultsOf(m, d.data, [f]) == [MatchFilter(m, d.data, f)];
  }

  /** For an equality the columnar index can tell, the shortcut answers what the query selects exactly when, of
      the documents the filter matches, those of the asked shard are the ones the index knows: written since the
      process started, and not short of the field by the cap. */
  lemma ShortcutExact(m: Matching, cfg: FlexConfig, index: Index, docFields: map<string, Fields>, known: set<string>,
                      docs: Secondary.Docs, q: Query, f: Filter)
    requires m.sprint == cfg.sprint && Consistent(index, docFields) && Mirrors(cfg, docFields, Known(DataOf(docs), known))
    requires Means(q, f) && Columnar(cfg, f)
    ensures Columns(index, m.sprint, docs, q) == Selected(m, docs, q) <==>
              forall id :: id in docs && MatchFilter(m, docs[id].data, f) ==>
                (Recorded(cfg, m, known, id, docs[id].data, f) <==> q.shardId == "" || docs[id].shardId == q.shardId)
  {
    var columns, selected := Columns(index, m.sprint, docs, q), Selected(m, docs, q);
    forall id | id in docs
      ensures id in columns <==> Recorded(cfg, m, known, id, docs[id].data, f)
      ensures id in selected <==> MatchFilter(m, docs[id].data, f) && (q.shardId == "" || docs[id].shardId == q.shardId)
    {
      QueryIsScan(cfg, m, index, docFields, Known(DataOf(docs), known), f, id);
      MeansFilter(m, docs[id], q, f);
    }
    hide MatchFilter, Selected, Columns, Mirrors, Consistent, Columnar, Means, IndexableFields;
    InDocs(m, index, docs, q);
    SameMembers(docs, columns, selected);
  }

  /** Whatever the equality, the shortcut goes by the literal field name and the text, over the documents it knows. */
  lemma ColumnsAreLiteral(m: Matching, cfg: FlexConfig, index: Index, docFields: map<string, Fields>, known: set<string>,
                          docs: Secondary.Docs, q: Query, f: Filter, id: string)
    requires m.sprint == cfg.sprint && Consistent(index, docFields) && Mirrors(cfg, docFields, Known(DataOf(docs), known))
    requires q.filters == [f] && (f.op == "=" || f.op == "==")
    ensures id in Columns(index, m.sprint, docs, q) <==>
              && id in docs && id in known
              && f.field in IndexableFields(cfg, docs[id].data) && cfg.sprint(docs[id].data[f.field]) == m.sprint(f.value)
  {
    assert Mirrored(cfg, docFields, Known(DataOf(docs), known), id);
    assert id in Entry(index, f.field, m.sprint(f.value)) <==> Has(docFields, id, f.field, m.sprint(f.value));
  }

  lemma SameMembers(docs: Secondary.Docs, a: set<string>, b: set<string>)
    requires forall id :: id in a || id in b ==> id in docs
    ensures a == b <==> forall id :: id in docs ==> (id in a <==> id in b)
  {
  }

  lemma InDocs(m: Matching, index: Index, docs: Secondary.Docs, q: Query)
    ensures forall id :: id in Columns(index, m.sprint, docs, q) || id in Selected(m, docs, q) ==> id in docs
  {
    hide MatchesQuery;
  }

  // ---- runs on which it is not ----

  const Flex := FlexConfig(0, FindLosses.TextOf)

  const Twins: Secondary.Docs :=
    map["x" := FindLosses.Stored("x", map["a" := Str("1")]), "y" := FindLosses.Stored("y", map["a" := Str("1")])]

  lemma TwinsRegular()
    ensures Regular(FindLosses.Cfg, "b", Twins)
  {
    forall id, f | id in Twins && Secondary.Indexed(FindLosses.Cfg, Twins[id], f) ensures f == "a" || f == "id" {
    }
  }

  function A1Query(): Query {
    Query(None, [FindLosses.A1], false, "")
  }

  function DottedQuery(): Query {
    Query(None, [FindLosses.DottedEq], false, "")
  }

  lemma TwinsMatch(id: string)
    requires id in Twins
    ensures MatchesQuery(FindLosses.Host, Twins[id], A1Query())
  {
    FindLosses.PlainTexts(FindLosses.A1);
    EqualityMeaning(FindLosses.Host, FindLosses.Cfg, Twins[id], FindLosses.A1);
    MeansFilter(FindLosses.Host, Twins[id], A1Query(), FindLosses.A1);
  }

  lemma TwinsSelected()
    ensures Selected(FindLosses.Host, Twins, A1Query()) == {"x", "y"}
  {
    hide MatchesQuery;
    forall id | id in Twins ensures MatchesQuery(FindLosses.Host, Twins[id], A1Query()) {
      TwinsMatch(id);
    }
  }

  /** When y alone is recorded under the filter's field and text, the shortcut answers y. */
  lemma OnlyY(index: Index, docs: Secondary.Docs, q: Query)
    requires SingleEquality(q) && "y" in docs && Entry(index, q.filters[0].field, FindLosses.TextOf(q.filters[0].value)) == {"y"}
    ensures Columns(index, FindLosses.TextOf, docs, q) == {"y"}
  {
    hide Entry;
  }

  /** An index that has seen only the document y. */
  method KnowsOne(data: Data, field: string) returns (flex: FlexBlock)
    requires field in data && data[field] == Str("1")
    ensures fresh(flex) && flex.cfg == Flex && flex.Valid() && Entry(flex.index, field, "1") == {"y"}
  {
    flex := new FlexBlock(Flex);
    flex.Insert("y", data);
    assert field in ScalarFields(data);
  }

  /** Two documents with a = 1, one written before the last restart: `a = 1` answers with the other alone. */
  method RestartHidesADocument(opt: QueryOptimizer, hash: string -> int) returns (block: Secondary.Block, ids: seq<string>)
    ensures fresh(block) && Selected(FindLosses.Host, block.docs, A1Query()) == {"x", "y"}
    ensures Secondary.IdSet(ids) == {"y"}
  {
    hide Regular, Served, Answer, FoldIds, PlanOf, Selected, Columns, Entry, Secondary.Expected, Consistent;
    TwinsRegular();
    TwinsSelected();
    block := FindLosses.TwoDocs("x", map["a" := Str("1")], "y", map["a" := Str("1")]);
    assert block.docs == Twins;
    var flex := KnowsOne(Twins["y"].data, "a");
    OnlyY(flex.index, Twins, A1Query());
    var shortcut;
    ids, shortcut := FindWithColumns(FindLosses.Host, block, flex, opt, FindLosses.NeverFails, hash, A1Query());
  }

  /** `a.b = 1` with a document that has the literal name: it does not match, and it alone comes back. */
  method DottedReturnsAStranger(opt: QueryOptimizer, hash: string -> int) returns (block: Secondary.Block, ids: seq<string>)
    ensures fresh(block) && Selected(FindLosses.Host, block.docs, DottedQuery()) == {"x"}
    ensures Secondary.IdSet(ids) == {"y"}
  {
    hide Regular, Served, Answer, FoldIds, PlanOf, Selected, Columns, Entry, Secondary.Expected, Consistent;
    FindLosses.DottedDocsRegular();
    FindLosses.DottedAnswer(opt.indexStats);
    block := FindLosses.TwoDocs("x", map["a" := Obj(map["b" := Str("1")])], "y", map["a.b" := Str("1")]);
    assert block.docs == FindLosses.DottedDocs;
    var flex := KnowsOne(FindLosses.DottedDocs["y"].data, "a.b");
    OnlyY(flex.index, FindLosses.DottedDocs, DottedQuery());
    var shortcut;
    ids, shortcut := FindWithColumns(FindLosses.Host, block, flex, opt, FindLosses.NeverFails, hash, DottedQuery());
  }
}
