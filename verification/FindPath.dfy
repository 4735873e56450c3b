/** FIND by index or by scan: the candidate ranking of query_optimizer.go, the intersections of
    index_secondary.go and the two routes of Find in ops_find.go, on unpaged result sets. */
module FindPath {
  import opened JsonValues
  import opened Keys
  import opened NestedFields
  import opened Options
  import opened QueryFilter
  import opened SecondaryIndexes
  import opened Text
  import opened WhereAst
  import LegacyFilters
  import Sorting = StableSorting

  // ---- ranking ----

  datatype IndexStats = IndexStats(size: int, selectivity: real, useCount: int)

  datatype Candidate = Candidate(field: string, value: string)

  datatype Ranked = Ranked(candidate: Candidate, selectivity: real, known: bool)

  /** Measured fields first, the most selective in front; ties keep the filter order. */
  predicate RanksBefore(x: Ranked, y: Ranked) {
    if x.known != y.known then x.known else x.selectivity < y.selectivity
  }

  predicate Eligible(f: Filter) {
    f.op == "=" || f.op == "==" || f.op == "IN"
  }

  /** The lookup a filter is offered as. An IN filter has no single value: its text is that of nil. */
  function CandidateOf(sprint: Json -> string, f: Filter): Candidate {
    Candidate(f.field, sprint(f.value))
  }

  function RankedOf(stats: map<string, IndexStats>, sprint: Json -> string, f: Filter): Ranked {
    var c := CandidateOf(sprint, f);
    if f.field in stats then Ranked(c, stats[f.field].selectivity, true) else Ranked(c, 1.0, false)
  }

  /** The eligible filters in filter order, each with its rank. */
  function Offers(stats: map<string, IndexStats>, sprint: Json -> string, filters: seq<Filter>): seq<Ranked> {
    if filters == [] then []
    else
      var f := filters[|filters| - 1];
      Offers(stats, sprint, filters[..|filters| - 1]) + if Eligible(f) then [RankedOf(stats, sprint, f)] else []
  }

  function Candidates(ranked: seq<Ranked>): (plan: seq<Candidate>)
    ensures |plan| == |ranked|
  {
    seq(|ranked|, i requires 0 <= i < |ranked| => ranked[i].candidate)
  }

  /** The plan: the offers in the stable ranking order. */
  function PlanOf(stats: map<string, IndexStats>, sprint: Json -> string, filters: seq<Filter>): seq<Candidate> {
    Candidates(Sorting.StableSort(Offers(stats, sprint, filters), RanksBefore))
  }

  /** Measured fields come first by selectivity, ties in filter order, and nothing is left out or added. */
  lemma PlanIsRanked(stats: map<string, IndexStats>, sprint: Json -> string, filters: seq<Filter>)
    ensures exists ranked: seq<Ranked> ::
              && Sorting.StablySorted(Offers(stats, sprint, filters), ranked, RanksBefore)
              && PlanOf(stats, sprint, filters) == Candidates(ranked)
    ensures |PlanOf(stats, sprint, filters)| == |Offers(stats, sprint, filters)| <= |filters|
  {
    var offers := Offers(stats, sprint, filters);
    var ranked := Sorting.StableSort(offers, RanksBefore);
    Sorting.StableSortCorrect(offers, RanksBefore);
    assert |multiset(ranked)| == |multiset(offers)|;
    OfferSize(stats, sprint, filters);
    hide Offers, Sorting.StableSort, Sorting.StablySorted;
  }

  /** Of two candidates the one in front is on a measured field if the other is, and then no less selective. */
  lemma PlanOrder(stats: map<string, IndexStats>, sprint: Json -> string, filters: seq<Filter>, i: nat, j: nat)
    requires i < j < |PlanOf(stats, sprint, filters)|
    ensures
      var (c, d) := (PlanOf(stats, sprint, filters)[i].field, PlanOf(stats, sprint, filters)[j].field);
      d in stats ==> c in stats && stats[c].selectivity <= stats[d].selectivity
  {
    var offers := Offers(stats, sprint, filters);
    var ranked := Sorting.StableSort(offers, RanksBefore);
    Sorting.StableSortCorrect(offers, RanksBefore);
    assert !RanksBefore(ranked[j], ranked[i]);
    hide Sorting.StableSort, Sorting.StablySorted, Sorting.StrictWeakOrder, Eligible;
    forall k | 0 <= k < |ranked|
      ensures var (r, field) := (ranked[k], PlanOf(stats, sprint, filters)[k].field);
              (r.known <==> field in stats) && (r.known ==> r.selectivity == stats[field].selectivity)
    {
      Sorting.StableSortElements(offers, RanksBefore);
      assert ranked[k] in multiset(offers);
      OfferMember(stats, sprint, filters, ranked[k]);
    }
  }

  /** The candidates: field and text of every equality and every IN. */
  lemma PlanMembers(stats: map<string, IndexStats>, sprint: Json -> string, filters: seq<Filter>, c: Candidate)
    ensures c in PlanOf(stats, sprint, filters) <==> exists f :: f in filters && Eligible(f) && c == CandidateOf(sprint, f)
    ensures c in PlanOf(stats, sprint, filters) <==>
              exists f :: f in filters && f.op in {"=", "==", "IN"} && c == Candidate(f.field, sprint(f.value))
  {
    PlanMembership(stats, sprint, filters, c);
    if f :| f in filters && f.op in {"=", "==", "IN"} && c == Candidate(f.field, sprint(f.value)) {
      assert Eligible(f) && c == CandidateOf(sprint, f);
    }
    hide PlanOf;
  }

  lemma PlanMembership(stats: map<string, IndexStats>, sprint: Json -> string, filters: seq<Filter>, c: Candidate)
    ensures c in PlanOf(stats, sprint, filters) <==> exists f :: f in filters && Eligible(f) && c == CandidateOf(sprint, f)
  {
    hide Offers, Sorting.StableSort, Eligible;
    var offers := Offers(stats, sprint, filters);
    var ranked := Sorting.StableSort(offers, RanksBefore);
    Sorting.StableSortElements(offers, RanksBefore);
    if c in PlanOf(stats, sprint, filters) {
      var i :| 0 <= i < |ranked| && ranked[i].candidate == c;
      assert ranked[i] in multiset(offers);
      OfferMember(stats, sprint, filters, ranked[i]);
    }
    if f :| f in filters && Eligible(f) && c == CandidateOf(sprint, f) {
      var r := RankedOf(stats, sprint, f);
      OfferMember(stats, sprint, filters, r);
      assert r in multiset(ranked);
      var i :| 0 <= i < |ranked| && ranked[i] == r;
      assert PlanOf(stats, sprint, filters)[i] == c;
    }
  }

  lemma {:induction false} OfferSize(stats: map<string, IndexStats>, sprint: Json -> string, filters: seq<Filter>)
    ensures |Offers(stats, sprint, filters)| <= |filters|
  {
    if filters != [] {
      OfferSize(stats, sprint, filters[..|filters| - 1]);
    }
  }

  lemma {:induction false} OfferMember(stats: map<string, IndexStats>, sprint: Json -> string, filters: seq<Filter>, r: Ranked)
    ensures r in Offers(stats, sprint, filters) <==> exists f :: f in filters && Eligible(f) && r == RankedOf(stats, sprint, f)
  {
    if filters != [] {
      var init, last := filters[..|filters| - 1], filters[|filters| - 1];
      OfferMember(stats, sprint, init, r);
      assert filters == init + [last];
    }
  }

  class QueryOptimizer {
    var indexStats: map<string, IndexStats>

    constructor ()
      ensures indexStats == map[]
    {
      indexStats := map[];
    }

    /** From now on the field ranks as measured, with this selectivity; the others rank as before. */
    method UpdateIndexStats(field: string, size: int, selectivity: real)
      modifies this
      ensures indexStats.Keys == old(indexStats).Keys + {field} && indexStats[field].size == size
      ensures indexStats[field].useCount == 1 + if field in old(indexStats) then old(indexStats)[field].useCount else 0
      ensures forall sprint: Json -> string, f: Filter ::
                RankedOf(indexStats, sprint, f) == if f.field == field then Ranked(CandidateOf(sprint, f), selectivity, true)
                                                   else RankedOf(old(indexStats), sprint, f)
      ensures forall g :: g in old(indexStats) && g != field ==> indexStats[g] == old(indexStats)[g]
    {
      if field in indexStats {
        indexStats := indexStats[field := IndexStats(size, selectivity, indexStats[field].useCount + 1)];
      } else {
        indexStats := indexStats[field := IndexStats(size, selectivity, 1)];
      }
    }

    method AnalyzeQuery(sprint: Json -> string, filters: seq<Filter>) returns (plan: seq<Candidate>)
      ensures plan == PlanOf(indexStats, sprint, filters)
    {
      var cands: seq<Ranked> := [];
      for i := 0 to |filters|
        invariant cands == Offers(indexStats, sprint, filters[..i])
      {
        assert filters[..i + 1][..i] == filters[..i];
        if Eligible(filters[i]) {
          cands := cands + [RankedOf(indexStats, sprint, filters[i])];
        }
      }
      assert filters[..|filters|] == filters;
      var ranked := Sorting.StableSort(cands, RanksBefore);
      plan := [];
      for i := 0 to |ranked|
        invariant |plan| == i && forall j :: 0 <= j < i ==> plan[j] == ranked[j].candidate
      {
        plan := plan + [ranked[i].candidate];
      }
    }
  }

  // ---- intersecting candidate sets ----

  const ROARING_THRESHOLD := 2000

  /** Which ids of the first list survive: small lists are compared exactly, large ones by hash. */
  function Survives(hash: string -> int, a: seq<string>, b: seq<string>): string -> bool {
    if |a| < ROARING_THRESHOLD && |b| < ROARING_THRESHOLD then id => id in b
    else
      var hashes := set id <- b :: hash(id);
      id => hash(id) in hashes
  }

  /** Keeps the first list's order and repetitions. By hash, strangers may survive; a common id always does. */
  method IntersectIds(hash: string -> int, a: seq<string>, b: seq<string>) returns (out: seq<string>)
    ensures out == Sorting.Select(a, Survives(hash, a, b))
    ensures forall id :: id in out ==> id in a
    ensures forall id :: id in a && id in b ==> id in out
    ensures |a| < ROARING_THRESHOLD && |b| < ROARING_THRESHOLD ==> forall id :: id in out ==> id in b
    ensures |a| >= ROARING_THRESHOLD || |b| >= ROARING_THRESHOLD ==> forall id ::
              id in out <==> id in a && exists other :: other in b && hash(other) == hash(id)
  {
    out := [];
    var test := Survives(hash, a, b);
    for i := 0 to |a|
      invariant out == Sorting.Select(a[..i], test)
    {
      assert a[..i + 1] == a[..i] + [a[i]];
      Sorting.SelectAppend(a[..i], [a[i]], test);
      if test(a[i]) {
        out := out + [a[i]];
      }
    }
    assert a[..|a|] == a;
    forall id ensures id in out <==> id in a && test(id) {
      Sorting.SelectMember(a, test, id);
    }
  }

  // ---- the query ----

  /** Filters are consulted for index selection; where, when present, decides the match. */
  datatype Query = Query(where: Option<Expr>, filters: seq<Filter>, preferScan: bool, shardId: string)

  predicate MatchesQuery(m: Matching, d: Doc, q: Query) {
    && (match q.where
        case Some(e) => EvalExpr(m, d.data, e)
        case None => FoldFilters(ResultsOf(m, d.data, q.filters), LogicsOf(q.filters)))
    && (q.shardId == "" || d.shardId == q.shardId)
  }

  /** What evaluating the query on every stored document selects. */
  function Selected(m: Matching, docs: Docs, q: Query): set<string> {
    set id <- docs | MatchesQuery(m, docs[id], q)
  }

  function LookupIn(index: set<string>, name: string, c: Candidate): set<string> {
    LookupIds(index, name, c.field, c.value)
  }

  function Lookup(block: Block, c: Candidate): set<string>
    reads block
  {
    LookupIn(block.index, block.name, c)
  }

  /** A candidate cannot hide a result: its lookup fails, is empty, or misses no selected id. */
  ghost predicate Harmless(m: Matching, block: Block, failed: Candidate -> bool, q: Query, c: Candidate)
    reads block
  {
    var found := Lookup(block, c);
    failed(c) || found == {} || Selected(m, block.docs, q) <= found
  }

  /** All ids come from the lookup of one filter. */
  ghost predicate WithinOneLookup(m: Matching, block: Block, q: Query, ids: seq<string>)
    reads block
  {
    exists f :: f in q.filters && Eligible(f) && (forall id :: id in ids ==> id in Lookup(block, CandidateOf(m.sprint, f)))
  }

  method Scan(m: Matching, block: Block, q: Query) returns (ids: seq<string>)
    ensures IdSet(ids) == Selected(m, block.docs, q) && NoRepeats(ids)
  {
    var todo := block.docs.Keys;
    ids := [];
    while todo != {}
      invariant todo <= block.docs.Keys
      invariant IdSet(ids) == Selected(m, block.docs, q) - todo && NoRepeats(ids)
      decreases todo
    {
      var id :| id in todo;
      todo := todo - {id};
      if MatchesQuery(m, block.docs[id], q) {
        assert forall i :: 0 <= i < |ids| ==> ids[i] in IdSet(ids);
        IdSetSnoc(ids, id);
        ids := ids + [id];
      }
    }
  }

  lemma IdSetSnoc(ids: seq<string>, id: string)
    ensures IdSet(ids + [id]) == IdSet(ids) + {id}
  {
  }

  /** Fetches the candidates that are stored and re-checks the whole query on each. */
  method FetchAndRecheck(m: Matching, block: Block, q: Query, candidates: seq<string>) returns (ids: seq<string>)
    ensures IdSet(ids) == Selected(m, block.docs, q) * IdSet(candidates)
    ensures NoRepeats(candidates) ==> NoRepeats(ids)
  {
    ids := [];
    for i := 0 to |candidates|
      invariant IdSet(ids) == Selected(m, block.docs, q) * IdSet(candidates[..i])
      invariant NoRepeats(candidates) ==> NoRepeats(ids)
    {
      var id := candidates[i];
      assert candidates[..i + 1] == candidates[..i] + [id];
      IdSetSnoc(candidates[..i], id);
      if id in block.docs && MatchesQuery(m, block.docs[id], q) {
        assert forall j :: 0 <= j < |ids| ==> ids[j] in IdSet(ids);
        IdSetSnoc(ids, id);
        ids := ids + [id];
      }
    }
    assert candidates[..|candidates|] == candidates;
  }

  // ---- the candidate fold, on the index keys the ids are read from ----

  /** One extra candidate: skipped when it fails or finds nothing, else intersected in. */
  function Narrowed(index: set<string>, name: string, failed: Candidate -> bool, c: Candidate, keys: set<string>): set<string> {
    if failed(c) || LookupIn(index, name, c) == {} then keys else set k <- keys | DecodeId(k) in LookupIn(index, name, c)
  }

  /** At most tries further candidates, while more than one id is left. */
  function FoldExtras(index: set<string>, name: string, failed: Candidate -> bool, keys: set<string>,
                      rest: seq<Candidate>, tries: nat): set<string>
    decreases |rest|
  {
    if rest == [] || tries == 0 || |keys| <= 1 then keys
    else FoldExtras(index, name, failed, Narrowed(index, name, failed, rest[0], keys), rest[1..], tries - 1)
  }

  /** The ids left of the best candidate's lookup. */
  function FoldIds(index: set<string>, name: string, failed: Candidate -> bool, plan: seq<Candidate>): set<string> {
    if plan == [] || failed(plan[0]) then {}
    else Decoded(FoldExtras(index, name, failed, HitKeys(index, name, plan[0].field, plan[0].value), plan[1..], 2))
  }

  /** Filtering the ids filters the keys they are read from. */
  lemma {:induction false} SelectReads(keys: seq<string>, ids: seq<string>, p: string -> bool)
    requires ReadFrom(keys, ids)
    ensures var pk := (k: string) => p(DecodeId(k));
      && ReadFrom(Sorting.Select(keys, pk), Sorting.Select(ids, p))
      && KeySet(Sorting.Select(keys, pk)) == set k <- KeySet(keys) | p(DecodeId(k))
  {
    hide DecodeId;
    var pk := (k: string) => p(DecodeId(k));
    if keys != [] {
      var k, rest := keys[0], keys[1..];
      assert ReadFrom(rest, ids[1..]);
      SelectReads(rest, ids[1..], p);
      forall x ensures x in Sorting.Select(rest, pk) <==> x in rest && pk(x) {
        Sorting.SelectMember(rest, pk, x);
      }
      assert KeySet(keys) == {k} + KeySet(rest);
      assert k !in rest;
    }
  }

  /** Narrowing drops no common id, skips a candidate that failed or found nothing, and below the
      hashing threshold keeps exactly the common ones, in order. */
  ghost predicate Narrows(block: Block, failed: Candidate -> bool, c: Candidate,
                          keys: seq<string>, ids: seq<string>, keys': seq<string>, ids': seq<string>)
    reads block
  {
    && ReadFrom(keys', ids')
    && IdSet(ids') <= IdSet(ids) && |ids'| <= |ids|
    && (failed(c) || Lookup(block, c) == {} ==> ids' == ids)
    && (failed(c) || Lookup(block, c) == {} || IdSet(ids) * Lookup(block, c) <= IdSet(ids'))
    && (|block.index| < ROARING_THRESHOLD && |ids| < ROARING_THRESHOLD ==>
          KeySet(keys') == Narrowed(block.index, block.name, failed, c, KeySet(keys)))
  }

  method Narrow(block: Block, failed: Candidate -> bool, hash: string -> int, c: Candidate, ids: seq<string>, ghost keys: seq<string>)
    returns (ids': seq<string>, ghost keys': seq<string>)
    requires ReadFrom(keys, ids)
    ensures Narrows(block, failed, c, keys, ids, keys', ids')
    ensures failed(c) || Lookup(block, c) == {} ==> ids' == ids
    ensures |block.index| < ROARING_THRESHOLD && |ids| < ROARING_THRESHOLD && !failed(c) && Lookup(block, c) != {} ==>
              IdSet(ids') == IdSet(ids) * Lookup(block, c)
  {
    if failed(c) { return ids, keys; }
    var extra, _ := block.LookupByIndex(c.field, c.value);
    if extra == [] {
      assert forall id :: id in Lookup(block, c) ==> id in extra;
      return ids, keys;
    }
    assert extra[0] in extra;
    ids' := IntersectIds(hash, ids, extra);
    keys' := IntersectedKeys(block, hash, c, ids, keys, extra);
    SelectSize(ids, Survives(hash, ids, extra));
  }

  ghost method IntersectedKeys(block: Block, hash: string -> int, c: Candidate, ids: seq<string>, keys: seq<string>, extra: seq<string>)
    returns (keys': seq<string>)
    requires ReadFrom(keys, ids) && IdSet(extra) == Lookup(block, c)
    ensures ReadFrom(keys', Sorting.Select(ids, Survives(hash, ids, extra)))
    ensures |ids| < ROARING_THRESHOLD && |extra| < ROARING_THRESHOLD ==>
              KeySet(keys') == set k <- KeySet(keys) | DecodeId(k) in Lookup(block, c)
  {
    var test := Survives(hash, ids, extra);
    SelectReads(keys, ids, test);
    keys' := Sorting.Select(keys, (k: string) => test(DecodeId(k)));
  }

  lemma {:induction false} SelectSize(s: seq<string>, keep: string -> bool)
    ensures |Sorting.Select(s, keep)| <= |s|
  {
    if s != [] { SelectSize(s[1..], keep); }
  }

  ghost predicate AllHarmless(m: Matching, block: Block, failed: Candidate -> bool, q: Query, plan: seq<Candidate>)
    reads block
  {
    forall c :: c in plan ==> Harmless(m, block, failed, q, c)
  }

  /** The fold before the candidates of rest: nothing wanted is lost when none of them can hide a result,
      and below the hashing threshold the rest of the specified fold is what remains to be done. */
  ghost predicate Folding(m: Matching, block: Block, failed: Candidate -> bool, q: Query, plan: seq<Candidate>,
                          keys: seq<string>, ids: seq<string>, rest: nat)
    requires 1 <= rest <= |plan| && rest <= 3
    reads block
  {
    && ReadFrom(keys, ids) && |ids| <= |block.index|
    && IdSet(ids) <= Lookup(block, plan[0])
    && (AllHarmless(m, block, failed, q, plan) ==> Selected(m, block.docs, q) <= IdSet(ids))
    && (|block.index| < ROARING_THRESHOLD ==>
          && KeySet(keys) <= HitKeys(block.index, block.name, plan[0].field, plan[0].value)
          && FoldIds(block.index, block.name, failed, plan) ==
             Decoded(FoldExtras(block.index, block.name, failed, KeySet(keys), plan[rest..], 3 - rest)))
  }

  lemma FoldNext(m: Matching, block: Block, failed: Candidate -> bool, q: Query, plan: seq<Candidate>,
                 keys: seq<string>, ids: seq<string>, rest: nat, keys': seq<string>, ids': seq<string>)
    requires 1 <= rest < |plan| && rest < 3 && |ids| > 1 && Folding(m, block, failed, q, plan, keys, ids, rest)
    requires Narrows(block, failed, plan[rest], keys, ids, keys', ids')
    ensures Folding(m, block, failed, q, plan, keys', ids', rest + 1)
  {
    hide Selected, AllHarmless, Harmless, ReadFrom, HitKeys, IdSet, KeySet, Lookup, Decoded, FoldIds, LookupIn;
    if AllHarmless(m, block, failed, q, plan) {
      OneHarmless(m, block, failed, q, plan, rest);
      KeepsWanted(m, block, failed, q, plan[rest], keys, ids, keys', ids');
    }
    assert |KeySet(keys)| == |ids| by { ReadCount(keys, ids); }
    assert plan[rest..][0] == plan[rest] && plan[rest..][1..] == plan[rest + 1..];
  }

  lemma ReadCount(keys: seq<string>, ids: seq<string>)
    requires ReadFrom(keys, ids)
    ensures |KeySet(keys)| == |ids|
  {
    KeyCount(keys);
  }

  lemma OneHarmless(m: Matching, block: Block, failed: Candidate -> bool, q: Query, plan: seq<Candidate>, i: nat)
    requires i < |plan| && AllHarmless(m, block, failed, q, plan)
    ensures Harmless(m, block, failed, q, plan[i])
  {
    hide Harmless;
  }

  lemma KeepsWanted(m: Matching, block: Block, failed: Candidate -> bool, q: Query, c: Candidate,
                    keys: seq<string>, ids: seq<string>, keys': seq<string>, ids': seq<string>)
    requires Harmless(m, block, failed, q, c) && Narrows(block, failed, c, keys, ids, keys', ids')
    requires Selected(m, block.docs, q) <= IdSet(ids)
    ensures Selected(m, block.docs, q) <= IdSet(ids')
  {
    hide Selected, Lookup, IdSet, ReadFrom, KeySet, Narrowed;
  }

  ghost predicate ReadsOnce(block: Block, c: Candidate)
    reads block
  {
    DecodesOnce(HitKeys(block.index, block.name, c.field, c.value))
  }

  /** The candidate fold: the best lookup, then at most two of the next ones intersected in. Below the
      hashing threshold its outcome is the specified one; it is empty, which means a scan, exactly when that is. */
  method CandidateIds(block: Block, failed: Candidate -> bool, hash: string -> int, plan: seq<Candidate>,
                      ghost m: Matching, ghost q: Query)
    returns (ids: seq<string>)
    ensures AllHarmless(m, block, failed, q, plan) ==> ids == [] || Selected(m, block.docs, q) <= IdSet(ids)
    ensures ids != [] ==> plan != [] && !failed(plan[0]) && IdSet(ids) <= Lookup(block, plan[0])
    ensures |block.index| < ROARING_THRESHOLD ==> IdSet(ids) == FoldIds(block.index, block.name, failed, plan)
    ensures |block.index| < ROARING_THRESHOLD && plan != [] && ReadsOnce(block, plan[0]) ==> NoRepeats(ids)
  {
    ids := [];
    if plan == [] || failed(plan[0]) { return; }
    var first, firstKeys := block.LookupByIndex(plan[0].field, plan[0].value);
    ghost var keys := firstKeys;
    if first == [] {
      FoldNothing(block, failed, plan, keys);
      return;
    }
    FoldStarts(m, block, failed, q, plan, keys, first);
    ids := first;
    hide Lookup, Selected, AllHarmless, Narrows, Folding, ReadFrom, HitKeys, FoldIds, IdSet, ReadsOnce;
    var rest: nat := 1;
    while rest < |plan| && |ids| > 1 && rest < 3
      invariant 1 <= rest <= |plan| && rest <= 3 && Folding(m, block, failed, q, plan, keys, ids, rest)
    {
      ghost var ids0, keys0 := ids, keys;
      ReadsOf(m, block, failed, q, plan, keys, ids, rest);
      ids, keys := Narrow(block, failed, hash, plan[rest], ids, keys);
      FoldNext(m, block, failed, q, plan, keys0, ids0, rest, keys, ids);
      rest := rest + 1;
    }
    FoldEnds(m, block, failed, q, plan, keys, ids, rest);
  }

  lemma ReadsOf(m: Matching, block: Block, failed: Candidate -> bool, q: Query, plan: seq<Candidate>,
                keys: seq<string>, ids: seq<string>, rest: nat)
    requires 1 <= rest <= |plan| && rest <= 3 && Folding(m, block, failed, q, plan, keys, ids, rest)
    ensures ReadFrom(keys, ids)
  {
  }

  lemma FoldNothing(block: Block, failed: Candidate -> bool, plan: seq<Candidate>, keys: seq<string>)
    requires plan != [] && KeySet(keys) == HitKeys(block.index, block.name, plan[0].field, plan[0].value) && keys == []
    ensures FoldIds(block.index, block.name, failed, plan) == {} == IdSet([])
  {
  }

  lemma FoldStarts(m: Matching, block: Block, failed: Candidate -> bool, q: Query, plan: seq<Candidate>,
                   keys: seq<string>, ids: seq<string>)
    requires plan != [] && !failed(plan[0]) && ReadFrom(keys, ids) && ids != [] && |ids| <= |block.index|
    requires KeySet(keys) == HitKeys(block.index, block.name, plan[0].field, plan[0].value)
    ensures Folding(m, block, failed, q, plan, keys, ids, 1)
  {
    DecodedIds(keys, ids);
    assert ids[0] in IdSet(ids);
    if AllHarmless(m, block, failed, q, plan) {
      OneHarmless(m, block, failed, q, plan, 0);
    }
    hide HitKeys, Decoded, Selected, AllHarmless;
  }

  lemma FoldEnds(m: Matching, block: Block, failed: Candidate -> bool, q: Query, plan: seq<Candidate>,
                 keys: seq<string>, ids: seq<string>, rest: nat)
    requires 1 <= rest <= |plan| && rest <= 3 && Folding(m, block, failed, q, plan, keys, ids, rest) && !failed(plan[0])
    requires rest == |plan| || rest == 3 || |ids| <= 1
    ensures AllHarmless(m, block, failed, q, plan) ==> Selected(m, block.docs, q) <= IdSet(ids)
    ensures IdSet(ids) <= Lookup(block, plan[0])
    ensures |block.index| < ROARING_THRESHOLD ==> IdSet(ids) == FoldIds(block.index, block.name, failed, plan)
    ensures |block.index| < ROARING_THRESHOLD && ReadsOnce(block, plan[0]) ==> NoRepeats(ids)
  {
    DecodedIds(keys, ids);
    ReadCount(keys, ids);
    hide Selected, AllHarmless, HitKeys, Decoded, FoldIds, ReadFrom, KeySet;
  }

  // ---- Find ----

  /** What Find answers when the candidate fold leaves these ids: a scan if none is left. */
  function Answer(m: Matching, docs: Docs, q: Query, folded: set<string>): set<string> {
    if q.preferScan || folded == {} then Selected(m, docs, q) else Selected(m, docs, q) * folded
  }

  /** Find: what comes back always matches, and nothing that matches is missing when every
      candidate is harmless, whatever the ranking and the hash. Below the hashing threshold the
      route and the answer are exactly the specified ones. */
  method Find(m: Matching, block: Block, opt: QueryOptimizer, failed: Candidate -> bool, hash: string -> int, q: Query)
    returns (ids: seq<string>, indexed: bool)
    requires m.sprint == block.cfg.sprint
    ensures IdSet(ids) <= Selected(m, block.docs, q)
    ensures !indexed ==> IdSet(ids) == Selected(m, block.docs, q) && NoRepeats(ids)
    ensures (forall f :: f in q.filters ==> f.op !in {"=", "==", "IN"}) ==> !indexed
    ensures (forall f :: f in q.filters && Eligible(f) ==> Harmless(m, block, failed, q, CandidateOf(m.sprint, f))) ==>
              IdSet(ids) == Selected(m, block.docs, q)
    ensures Served(m, block, q) ==> IdSet(ids) == Selected(m, block.docs, q)
    ensures indexed ==> WithinOneLookup(m, block, q, ids)
    ensures |block.index| < ROARING_THRESHOLD ==>
      var folded := FoldIds(block.index, block.name, failed, PlanOf(opt.indexStats, m.sprint, q.filters));
      && (indexed <==> !q.preferScan && folded != {})
      && IdSet(ids) == Answer(m, block.docs, q, folded)
    ensures |block.index| < ROARING_THRESHOLD && DecodesEachOnce(m, block, q) ==> NoRepeats(ids)
  {
    hide Served, Selected, Harmless, FoldIds, Eligible, ReadsOnce, PlanOf, Lookup, AllHarmless, DecodesEachOnce, WithinOneLookup;
    PlanServes(m, block, opt.indexStats, failed, q);
    NothingPlanned(opt.indexStats, m.sprint, q.filters);
    indexed := false;
    if !q.preferScan && q.filters != [] {
      var plan := opt.AnalyzeQuery(m.sprint, q.filters);
      var candidates := CandidateIds(block, failed, hash, plan, m, q);
      if candidates != [] {
        assert candidates[0] in IdSet(candidates);
        indexed := true;
        ids := FetchAndRecheck(m, block, q, candidates);
        BestServes(m, block, opt.indexStats, q, ids);
        return;
      }
    }
    if q.filters == [] { NoFilters(block, opt.indexStats, m.sprint, failed); }
    ids := Scan(m, block, q);
  }

  lemma NothingPlanned(stats: map<string, IndexStats>, sprint: Json -> string, filters: seq<Filter>)
    ensures (forall f :: f in filters ==> f.op !in {"=", "==", "IN"}) ==> PlanOf(stats, sprint, filters) == []
  {
    var plan := PlanOf(stats, sprint, filters);
    if plan != [] { PlanMembers(stats, sprint, filters, plan[0]); }
    hide PlanOf;
  }

  lemma PlanServes(m: Matching, block: Block, stats: map<string, IndexStats>, failed: Candidate -> bool, q: Query)
    ensures (forall f :: f in q.filters && Eligible(f) ==> Harmless(m, block, failed, q, CandidateOf(m.sprint, f))) ==>
              AllHarmless(m, block, failed, q, PlanOf(stats, m.sprint, q.filters))
    ensures Served(m, block, q) ==> AllHarmless(m, block, failed, q, PlanOf(stats, m.sprint, q.filters))
  {
    hide Served, Harmless, PlanOf, Eligible, CandidateOf;
    if Served(m, block, q) {
      ServedIsHarmless(m, block, failed, q);
    }
    forall c | c in PlanOf(stats, m.sprint, q.filters)
      ensures exists f :: f in q.filters && Eligible(f) && c == CandidateOf(m.sprint, f)
    {
      PlanMembers(stats, m.sprint, q.filters, c);
    }
  }

  lemma BestServes(m: Matching, block: Block, stats: map<string, IndexStats>, q: Query, ids: seq<string>)
    requires var plan := PlanOf(stats, m.sprint, q.filters); plan != [] && IdSet(ids) <= Lookup(block, plan[0])
    ensures WithinOneLookup(m, block, q, ids)
    ensures DecodesEachOnce(m, block, q) ==> ReadsOnce(block, PlanOf(stats, m.sprint, q.filters)[0])
  {
    hide PlanOf, Eligible, CandidateOf, Lookup, ReadsOnce;
    var plan := PlanOf(stats, m.sprint, q.filters);
    PlanMembers(stats, m.sprint, q.filters, plan[0]);
    assert forall id :: id in ids ==> id in IdSet(ids);
  }

  lemma NoFilters(block: Block, stats: map<string, IndexStats>, sprint: Json -> string, failed: Candidate -> bool)
    ensures FoldIds(block.index, block.name, failed, PlanOf(stats, sprint, [])) == {}
  {
  }

  ghost predicate DecodesEachOnce(m: Matching, block: Block, q: Query)
    reads block
  {
    forall f :: f in q.filters && Eligible(f) ==> ReadsOnce(block, CandidateOf(m.sprint, f))
  }

  // ---- which candidates are harmless ----

  /** An undotted field compared with a text that only indexed scalars have. */
  ghost predicate Answerable(cfg: IndexConfig, f: Filter) {
    var text := cfg.sprint(f.value);
    && (f.op == "=" || f.op == "==")
    && !HasTail(f.field) && !IsCountField(f.field)
    && SlashFree(f.field) && SlashFree(text)
    && forall v: Json :: cfg.sprint(v) == text ==> Scalar(v) && ShouldIndex(cfg, v)
  }

  lemma EqualityMeaning(m: Matching, cfg: IndexConfig, d: Doc, f: Filter)
    requires m.sprint == cfg.sprint && Answerable(cfg, f)
    ensures MatchFilter(m, d.data, f) <==> Indexed(cfg, d, f.field) && cfg.sprint(d.data[f.field]) == cfg.sprint(f.value)
  {
    assert Upper(f.op) == f.op;
    assert Head(f.field) == f.field;
    var values := NestedValues(m, d.data, f.field);
    assert values == if f.field in d.data then [d.data[f.field]] else [];
    var v := if f.field in d.data then d.data[f.field] else Null;
    assert MatchFilter(m, d.data, f) <==> MatchValue(m, v, f) by {
      assert f.field in d.data ==> v in values;
    }
    assert MatchValue(m, v, f) <==> cfg.sprint(v) == cfg.sprint(f.value);
  }

  /** The query means the conjunction of its filters: a pure AND tree with its flat list, or a
      list without OR. */
  ghost predicate Conjunctive(q: Query) {
    match q.where
    case Some(e) => FlattenTopLevelAnd(e).Some? && LeavesAre(FlattenTopLevelAnd(e).value, q.filters)
    case None => forall i :: 1 <= i < |q.filters| ==> Upper(q.filters[i].logic) != "OR"
  }

  ghost predicate LeavesAre(leaves: seq<Expr>, filters: seq<Filter>) {
    |leaves| == |filters| && forall i :: 0 <= i < |leaves| ==> leaves[i].Cond? && filters[i] == FilterOf(leaves[i])
  }

  lemma SelectedMatchesFilter(m: Matching, d: Doc, q: Query, f: Filter)
    requires Conjunctive(q) && f in q.filters && MatchesQuery(m, d, q)
    ensures MatchFilter(m, d.data, f)
  {
    var i :| 0 <= i < |q.filters| && q.filters[i] == f;
    match q.where
    case Some(e) =>
      FlattenMeaning(e, LeafTest(m, d.data));
      assert FlattenTopLevelAnd(e).value[i] in FlattenTopLevelAnd(e).value;
    case None =>
      LegacyFilters.AllHold(ResultsOf(m, d.data, q.filters), LogicsOf(q.filters));
      assert ResultsOf(m, d.data, q.filters)[i] in ResultsOf(m, d.data, q.filters);
  }

  /** An answerable equality of a conjunctive query is harmless over small documents, even when
      the index holds stale keys. With Find: the index route returns what a full evaluation does. */
  lemma EqualityIsHarmless(m: Matching, block: Block, failed: Candidate -> bool, q: Query, f: Filter)
    requires m.sprint == block.cfg.sprint && Conjunctive(q) && f in q.filters && Answerable(block.cfg, f)
    requires SlashFreeIds(block.name, block.docs) && Expected(block.cfg, block.name, block.docs) <= block.index
    requires forall id :: id in block.docs ==> Small(block.cfg, block.docs[id])
    ensures Harmless(m, block, failed, q, CandidateOf(m.sprint, f))
  {
    forall id | id in Selected(m, block.docs, q) ensures id in Lookup(block, CandidateOf(m.sprint, f)) {
      SelectedMatchesFilter(m, block.docs[id], q, f);
      EqualityMeaning(m, block.cfg, block.docs[id], f);
      LookupMissesNothing(block.cfg, block.name, block.docs, block.index, id, f.field);
    }
  }

  /** A conjunctive query over small documents whose keys the index holds: each filter the index is consulted
      for is an answerable equality, or, whatever its field and value, one whose lookup is empty. */
  ghost predicate Served(m: Matching, block: Block, q: Query)
    reads block
  {
    && m.sprint == block.cfg.sprint && Conjunctive(q)
    && (forall f :: f in q.filters && Eligible(f) ==>
          Answerable(block.cfg, f) || Lookup(block, CandidateOf(m.sprint, f)) == {})
    && SlashFreeIds(block.name, block.docs) && Expected(block.cfg, block.name, block.docs) <= block.index
    && forall id :: id in block.docs ==> Small(block.cfg, block.docs[id])
  }

  lemma EmptyIsHarmless(m: Matching, block: Block, failed: Candidate -> bool, q: Query, c: Candidate)
    requires Lookup(block, c) == {}
    ensures Harmless(m, block, failed, q, c)
  {
  }

  /** Over an exact index a lookup is empty when no document stores the text under the name: so for a dotted
      field unless a document has that literal name. */
  lemma UnheldIsEmpty(block: Block, c: Candidate)
    requires SlashFreeIds(block.name, block.docs) && SlashFreeParts(block.cfg, block.docs) && block.Agrees()
    requires SlashFree(c.field) && SlashFree(c.value) && c.value != ""
    ensures Lookup(block, c) == {} <==> forall id :: id in block.docs ==> !Holds(block.cfg, block.docs[id], c.field, c.value)
  {
    hide Holds, SlashFreeParts, SlashFreeIds, Expected, HitKeys, Decoded;
    LookupExact(block.cfg, block.name, block.docs, c.field, c.value);
    assert Lookup(block, c) == set id <- block.docs | Holds(block.cfg, block.docs[id], c.field, c.value);
    assert Lookup(block, c) == {} <==> forall id :: id in block.docs ==> id !in Lookup(block, c);
  }

  lemma ServedIsHarmless(m: Matching, block: Block, failed: Candidate -> bool, q: Query)
    requires Served(m, block, q)
    ensures forall f :: f in q.filters && Eligible(f) ==> Harmless(m, block, failed, q, CandidateOf(m.sprint, f))
  {
    hide Conjunctive, Answerable, Harmless, Eligible, Small, SlashFreeIds, Expected, Lookup, CandidateOf;
    forall f | f in q.filters && Eligible(f) ensures Harmless(m, block, failed, q, CandidateOf(m.sprint, f)) {
      if Answerable(block.cfg, f) {
        EqualityIsHarmless(m, block, failed, q, f);
      } else {
        EmptyIsHarmless(m, block, failed, q, CandidateOf(m.sprint, f));
      }
    }
  }

  // ---- where the index route loses documents ----

  /** Small documents with slash-free names, values and ids. */
  ghost predicate Regular(cfg: IndexConfig, name: string, docs: Docs) {
    && SlashFreeIds(name, docs) && SlashFreeParts(cfg, docs)
    && forall id <- docs :: Small(cfg, docs[id])
  }

  lemma FoldOne(index: set<string>, name: string, failed: Candidate -> bool, c: Candidate)
    requires !failed(c)
    ensures FoldIds(index, name, failed, [c]) == LookupIn(index, name, c)
  {
    hide Decoded, HitKeys;
  }

  /** Two candidates: the second is intersected in unless the first has one id or none, or it has none. */
  lemma FoldTwo(index: set<string>, name: string, failed: Candidate -> bool, c: Candidate, d: Candidate)
    requires !failed(c) && !failed(d) && DecodesOnce(HitKeys(index, name, c.field, c.value))
    ensures
      var (a, b) := (LookupIn(index, name, c), LookupIn(index, name, d));
      FoldIds(index, name, failed, [c, d]) == if |a| <= 1 || b == {} then a else a * b
  {
    var keys := HitKeys(index, name, c.field, c.value);
    DecodedCount(keys);
    DecodedPart(keys, LookupIn(index, name, d));
    hide HitKeys, Decoded, DecodesOnce;
    var plan := [c, d];
    assert plan[1..] == [d] && [d][1..] == [];
    var next := Narrowed(index, name, failed, d, keys);
    assert FoldExtras(index, name, failed, next, [], 1) == next;
    assert FoldExtras(index, name, failed, keys, [d], 2) == if |keys| <= 1 then keys else next;
  }

  /** Three candidates or more: the third narrows as the second does, and the others are not looked up. A
      lookup that fails counts as empty. */
  lemma FoldThree(index: set<string>, name: string, failed: Candidate -> bool, plan: seq<Candidate>)
    requires |plan| >= 3 && !failed(plan[0]) && DecodesOnce(HitKeys(index, name, plan[0].field, plan[0].value))
    ensures
      var a := LookupIn(index, name, plan[0]);
      var b := if failed(plan[1]) then {} else LookupIn(index, name, plan[1]);
      var c := if failed(plan[2]) then {} else LookupIn(index, name, plan[2]);
      var two := if |a| <= 1 || b == {} then a else a * b;
      FoldIds(index, name, failed, plan) == if |two| <= 1 || c == {} then two else two * c
  {
    var keys := HitKeys(index, name, plan[0].field, plan[0].value);
    NarrowedOnce(index, name, failed, plan[1], keys);
    var next := if |keys| <= 1 then keys else Narrowed(index, name, failed, plan[1], keys);
    NarrowedOnce(index, name, failed, plan[2], next);
    hide HitKeys, Decoded, DecodesOnce, LookupIn, Narrowed;
    ExtrasOfTwo(index, name, failed, keys, plan[1..]);
    assert plan[1..][0] == plan[1] && plan[1..][1] == plan[2];
  }

  lemma ExtrasOfTwo(index: set<string>, name: string, failed: Candidate -> bool, keys: set<string>, rest: seq<Candidate>)
    requires |rest| >= 2
    ensures
      var next := if |keys| <= 1 then keys else Narrowed(index, name, failed, rest[0], keys);
      FoldExtras(index, name, failed, keys, rest, 2) == if |next| <= 1 then next else Narrowed(index, name, failed, rest[1], next)
  {
    hide Narrowed;
    var next := Narrowed(index, name, failed, rest[0], keys);
    var last := Narrowed(index, name, failed, rest[1], next);
    assert rest[1..][0] == rest[1];
    assert FoldExtras(index, name, failed, last, rest[1..][1..], 0) == last;
    assert FoldExtras(index, name, failed, next, rest[1..], 1) == if |next| <= 1 then next else last;
  }

  lemma NarrowedOnce(index: set<string>, name: string, failed: Candidate -> bool, c: Candidate, keys: set<string>)
    requires DecodesOnce(keys)
    ensures
      var next := if |keys| <= 1 then keys else Narrowed(index, name, failed, c, keys);
      var (a, b) := (Decoded(keys), if failed(c) then {} else LookupIn(index, name, c));
      && DecodesOnce(next) && |a| == |keys|
      && Decoded(next) == if |a| <= 1 || b == {} then a else a * b
  {
    DecodedCount(keys);
    DecodedPart(keys, LookupIn(index, name, c));
    hide Decoded, LookupIn, DecodeId;
  }

  lemma DecodedPart(keys: set<string>, ids: set<string>)
    ensures Decoded(set k <- keys | DecodeId(k) in ids) == Decoded(keys) * ids
  {
    hide DecodeId;
  }

  lemma PlanOfTwo(stats: map<string, IndexStats>, sprint: Json -> string, f: Filter, g: Filter)
    requires Eligible(f) && Eligible(g)
    ensures
      var (c, d) := (CandidateOf(sprint, f), CandidateOf(sprint, g));
      PlanOf(stats, sprint, [f, g]) == [c, d] || PlanOf(stats, sprint, [f, g]) == [d, c]
  {
    var r, t := RankedOf(stats, sprint, f), RankedOf(stats, sprint, g);
    assert [f, g][..1] == [f] && [f][..0] == [];
    assert Offers(stats, sprint, []) == [] && Offers(stats, sprint, [f]) == [r] && Offers(stats, sprint, [f, g]) == [r, t];
    assert [r, t][..1] == [r] && [r][..0] == [];
    assert Sorting.StableSort<Ranked>([], RanksBefore) == [] && Sorting.StableSort([r], RanksBefore) == [r];
    assert Sorting.StableSort([r, t], RanksBefore) == Sorting.Insert([r], t, RanksBefore);
    assert Sorting.Insert([r], t, RanksBefore) == if RanksBefore(t, r) then [t, r] else [r, t];
  }

  /** With a text, the lookup of an answerable equality is what the filter matches. */
  lemma EqualityLookup(m: Matching, cfg: IndexConfig, name: string, docs: Docs, f: Filter)
    requires m.sprint == cfg.sprint && Regular(cfg, name, docs) && Answerable(cfg, f)
    ensures
      var index := Expected(cfg, name, docs);
      && DecodesOnce(HitKeys(index, name, f.field, cfg.sprint(f.value)))
      && (cfg.sprint(f.value) != "" ==>
            LookupIn(index, name, CandidateOf(m.sprint, f)) == set id <- docs | MatchFilter(m, docs[id].data, f))
  {
    var text := cfg.sprint(f.value);
    HitsDecodeOnce(cfg, name, docs, f.field, text);
    LookupExact(cfg, name, docs, f.field, text);
    forall id | id in docs ensures MatchFilter(m, docs[id].data, f) <==> Holds(cfg, docs[id], f.field, text) {
      EqualityMeaning(m, cfg, docs[id], f);
    }
    hide MatchFilter, HitKeys, Decoded, Expected, Answerable;
  }

  /** A count by index of an undotted equality is the number of matching documents exactly when every one of
      them holds the text as an indexed value. (Of a dotted one it is the number of documents that have the
      dotted name literally: CountReaches.) */
  lemma CountIsExact(m: Matching, cfg: IndexConfig, name: string, docs: Docs, f: Filter)
    requires m.sprint == cfg.sprint && SlashFreeIds(name, docs) && SlashFreeParts(cfg, docs)
    requires (f.op == "=" || f.op == "==") && !HasTail(f.field) && !IsCountField(f.field)
    requires SlashFree(f.field) && SlashFree(m.sprint(f.value)) && m.sprint(f.value) != ""
    ensures
      |HitKeys(Expected(cfg, name, docs), name, f.field, m.sprint(f.value))| == |set id <- docs | MatchFilter(m, docs[id].data, f)| <==>
      forall id :: id in docs && MatchFilter(m, docs[id].data, f) ==> Holds(cfg, docs[id], f.field, m.sprint(f.value))
  {
    var text := m.sprint(f.value);
    var reached := set id <- docs | Reached(cfg, docs[id], f.field, text);
    var matching := set id <- docs | MatchFilter(m, docs[id].data, f);
    CountReaches(cfg, name, docs, f.field, text);
    forall id | id in docs && Holds(cfg, docs[id], f.field, text) ensures MatchFilter(m, docs[id].data, f) {
      HoldersMatch(m, cfg, docs[id], f);
    }
    hide MatchFilter, Holds, HitKeys, Expected;
    assert reached <= matching;
    SameSize(reached, matching);
    assert forall id :: id in docs ==> (id in matching <==> MatchFilter(m, docs[id].data, f));
    assert forall id :: id in docs ==> (id in reached <==> Holds(cfg, docs[id], f.field, text));
  }

  lemma HoldersMatch(m: Matching, cfg: IndexConfig, d: Doc, f: Filter)
    requires m.sprint == cfg.sprint && (f.op == "=" || f.op == "==") && !HasTail(f.field) && !IsCountField(f.field)
    requires Holds(cfg, d, f.field, m.sprint(f.value))
    ensures MatchFilter(m, d.data, f)
  {
    assert Upper(f.op) == f.op && Head(f.field) == f.field;
    assert NestedValues(m, d.data, f.field) == [d.data[f.field]];
    assert MatchValue(m, d.data[f.field], f);
  }

  lemma {:induction false} SameSize(a: set<string>, b: set<string>)
    requires a <= b
    ensures |a| <= |b| && (|a| == |b| <==> b <= a)
  {
    if x :| x in a {
      SameSize(a - {x}, b - {x});
      assert b <= a <==> b - {x} <= a - {x};
    } else if b != {} {
      assert |b| > 0;
    }
  }

  function OrList(f: Filter, g: Filter): Query {
    Query(None, [f, g], false, "")
  }

  lemma OrSelects(m: Matching, docs: Docs, f: Filter, g: Filter)
    requires Upper(g.logic) == "OR"
    ensures Selected(m, docs, OrList(f, g)) ==
              (set id <- docs | MatchFilter(m, docs[id].data, f)) + (set id <- docs | MatchFilter(m, docs[id].data, g))
  {
    hide MatchFilter;
    forall id | id in docs
      ensures MatchesQuery(m, docs[id], OrList(f, g)) <==> MatchFilter(m, docs[id].data, f) || MatchFilter(m, docs[id].data, g)
    {
      var results := ResultsOf(m, docs[id].data, [f, g]);
      assert FoldFilters(results[..1], LogicsOf([f, g])[..1]) == results[0];
    }
  }

  /** A list `f OR g`, as a view keeps it, over an exact index: the answer is complete exactly when one of the
      two lookups is empty, they are the same, or the better ranked one has several ids and none in common
      with the other. Otherwise the route by index loses documents of one side. */
  lemma OrListComplete(m: Matching, cfg: IndexConfig, name: string, docs: Docs, stats: map<string, IndexStats>,
                       failed: Candidate -> bool, f: Filter, g: Filter)
    requires m.sprint == cfg.sprint && Regular(cfg, name, docs) && Upper(g.logic) == "OR"
    requires Answerable(cfg, f) && Answerable(cfg, g) && !failed(CandidateOf(m.sprint, f)) && !failed(CandidateOf(m.sprint, g))
    ensures
      var (q, index, plan) := (OrList(f, g), Expected(cfg, name, docs), PlanOf(stats, m.sprint, [f, g]));
      |plan| == 2 &&
      var (best, other) := (LookupIn(index, name, plan[0]), LookupIn(index, name, plan[1]));
      var folded := if |best| <= 1 || other == {} then best else best * other;
      && FoldIds(index, name, failed, plan) == folded
      && (Answer(m, docs, q, folded) == Selected(m, docs, q) <==> folded == {} || Selected(m, docs, q) <= folded)
      && (m.sprint(f.value) != "" && m.sprint(g.value) != "" ==>
            (Answer(m, docs, q, folded) == Selected(m, docs, q) <==> NothingLost(best, other)))
  {
    hide MatchFilter, Selected, PlanOf, FoldIds, HitKeys, Decoded, Answerable, Regular, Expected, LookupIn, DecodesOnce, Answer, NothingLost;
    EligibleEquality(cfg, f);
    EligibleEquality(cfg, g);
    hide Eligible;
    PlanOfTwo(stats, m.sprint, f, g);
    EqualityLookup(m, cfg, name, docs, f);
    EqualityLookup(m, cfg, name, docs, g);
    OrSelects(m, docs, f, g);
    var index, plan := Expected(cfg, name, docs), PlanOf(stats, m.sprint, [f, g]);
    FoldTwo(index, name, failed, plan[0], plan[1]);
    var best, other := LookupIn(index, name, plan[0]), LookupIn(index, name, plan[1]);
    AnswerComplete(m, docs, OrList(f, g), if |best| <= 1 || other == {} then best else best * other);
    UnionCovered(best, other);
  }

  /** The route by index is complete exactly when it is not taken, or the ids left cover the result. */
  lemma AnswerComplete(m: Matching, docs: Docs, q: Query, folded: set<string>)
    ensures Answer(m, docs, q, folded) == Selected(m, docs, q) <==>
              q.preferScan || folded == {} || Selected(m, docs, q) <= folded
  {
    hide Selected;
  }

  lemma EligibleEquality(cfg: IndexConfig, f: Filter)
    requires Answerable(cfg, f)
    ensures Eligible(f)
  {
  }

  /** When two lookups together are what the query selects. */
  predicate NothingLost(best: set<string>, other: set<string>) {
    best == {} || other == {} || best == other || (|best| >= 2 && best !! other)
  }

  lemma UnionCovered(best: set<string>, other: set<string>)
    ensures
      var folded := if |best| <= 1 || other == {} then best else best * other;
      (folded == {} || best + other <= folded) <==> NothingLost(best, other)
  {
    if best != {} && other != {} {
      var x :| x in best;
      var y :| y in other;
      if |best| == 1 {
        Singleton(best, x);
        assert other <= best ==> y == x && other == best;
        assert best + other <= best <==> other <= best;
      } else if best * other == {} {
        assert best !! other && |best| >= 2;
      } else {
        assert best + other <= best * other <==> best == other;
      }
    }
  }

  lemma Singleton(s: set<string>, x: string)
    requires |s| == 1 && x in s
    ensures s == {x}
  {
    assert |s - {x}| == 0;
  }

  // ---- filters without a single value ----

  /** f is the one filter an index is consulted for. */
  ghost predicate OnlyEligible(filters: seq<Filter>, f: Filter) {
    exists i :: 0 <= i < |filters| && IsOnlyEligible(filters, f, i)
  }

  ghost predicate IsOnlyEligible(filters: seq<Filter>, f: Filter, i: int) {
    0 <= i < |filters| && filters[i] == f && Eligible(f) && forall j :: 0 <= j < |filters| && j != i ==> !Eligible(filters[j])
  }

  lemma {:induction false} NoOffers(stats: map<string, IndexStats>, sprint: Json -> string, filters: seq<Filter>)
    requires forall j :: 0 <= j < |filters| ==> !Eligible(filters[j])
    ensures Offers(stats, sprint, filters) == []
  {
    if filters != [] { NoOffers(stats, sprint, filters[..|filters| - 1]); }
  }

  lemma {:induction false} OneOffer(stats: map<string, IndexStats>, sprint: Json -> string, filters: seq<Filter>, f: Filter, i: int)
    requires IsOnlyEligible(filters, f, i)
    ensures Offers(stats, sprint, filters) == [RankedOf(stats, sprint, f)]
    ensures PlanOf(stats, sprint, filters) == [CandidateOf(sprint, f)]
  {
    hide Eligible, RankedOf, PlanOf, Sorting.StableSort;
    var init := filters[..|filters| - 1];
    if i == |filters| - 1 {
      NoOffers(stats, sprint, init);
    } else {
      OneOffer(stats, sprint, init, f, i);
    }
    assert Offers(stats, sprint, filters) == [RankedOf(stats, sprint, f)];
    PlanOfOne(stats, sprint, filters, f);
  }

  lemma PlanOfOne(stats: map<string, IndexStats>, sprint: Json -> string, filters: seq<Filter>, f: Filter)
    requires Offers(stats, sprint, filters) == [RankedOf(stats, sprint, f)]
    ensures PlanOf(stats, sprint, filters) == [CandidateOf(sprint, f)]
  {
    hide Offers;
    var r := RankedOf(stats, sprint, f);
    assert [r][..0] == [];
    assert Sorting.StableSort<Ranked>([], RanksBefore) == [] && Sorting.StableSort([r], RanksBefore) == [r];
  }

  function Holders(cfg: IndexConfig, docs: Docs, field: string, text: string): set<string> {
    set id <- docs | Holds(cfg, docs[id], field, text)
  }

  /** When one filter is the only candidate, whatever it compares with and however its field is written, the
      answer is complete exactly when no document stores its text under that very name, or no document that
      the query selects lacks it. */
  lemma OneCandidate(m: Matching, cfg: IndexConfig, name: string, docs: Docs, stats: map<string, IndexStats>,
                     failed: Candidate -> bool, q: Query, f: Filter)
    requires m.sprint == cfg.sprint && Regular(cfg, name, docs) && OnlyEligible(q.filters, f)
    requires SlashFree(f.field) && SlashFree(m.sprint(f.value)) && m.sprint(f.value) != ""
    requires !failed(CandidateOf(m.sprint, f)) && !q.preferScan
    ensures
      var (text, folded) := (m.sprint(f.value), FoldIds(Expected(cfg, name, docs), name, failed, PlanOf(stats, m.sprint, q.filters)));
      && folded == Holders(cfg, docs, f.field, text)
      && (Answer(m, docs, q, folded) == Selected(m, docs, q) <==>
            || (forall id :: id in docs ==> !Holds(cfg, docs[id], f.field, text))
            || (forall id :: id in docs && MatchesQuery(m, docs[id], q) ==> Holds(cfg, docs[id], f.field, text)))
  {
    var i :| 0 <= i < |q.filters| && IsOnlyEligible(q.filters, f, i);
    hide MatchesQuery, Holds, Expected, PlanOf, FoldIds, IsOnlyEligible, Regular, LookupIn, Holders, Selected;
    OneOffer(stats, m.sprint, q.filters, f, i);
    FoldOne(Expected(cfg, name, docs), name, failed, CandidateOf(m.sprint, f));
    TextLookup(m, cfg, name, docs, f);
    HoldersCover(m, cfg, docs, q, f.field, m.sprint(f.value));
  }

  lemma TextLookup(m: Matching, cfg: IndexConfig, name: string, docs: Docs, f: Filter)
    requires m.sprint == cfg.sprint && Regular(cfg, name, docs)
    requires SlashFree(f.field) && SlashFree(m.sprint(f.value)) && m.sprint(f.value) != ""
    ensures LookupIn(Expected(cfg, name, docs), name, CandidateOf(m.sprint, f)) == Holders(cfg, docs, f.field, m.sprint(f.value))
  {
    hide Expected, HitKeys, Decoded, Holds, SlashFreeParts, SlashFreeIds;
    LookupExact(cfg, name, docs, f.field, m.sprint(f.value));
  }

  lemma HoldersCover(m: Matching, cfg: IndexConfig, docs: Docs, q: Query, field: string, text: string)
    ensures Holders(cfg, docs, field, text) == {} <==> forall id :: id in docs ==> !Holds(cfg, docs[id], field, text)
    ensures Selected(m, docs, q) <= Holders(cfg, docs, field, text) <==>
              forall id :: id in docs && MatchesQuery(m, docs[id], q) ==> Holds(cfg, docs[id], field, text)
  {
    hide MatchesQuery, Holds;
    var holders, selected := Holders(cfg, docs, field, text), Selected(m, docs, q);
    assert holders == {} <==> forall id :: id in docs ==> id !in holders;
    assert selected <= holders <==> forall id :: id in selected ==> id in holders;
    assert forall id :: id in docs ==> (id in selected <==> MatchesQuery(m, docs[id], q));
    assert forall id :: id in docs ==> (id in holders <==> Holds(cfg, docs[id], field, text));
  }

  /** The text a document shows in an undotted field: that of nil where it has none. */
  function TextIn(m: Matching, d: Doc, field: string): string {
    m.sprint(if field in d.data then d.data[field] else Null)
  }

  /** Asked alone, `a = null` loses every document without the field as soon as one stores the text; `a IN [...]`
      every listed one that does not store it. */
  lemma NilAlone(m: Matching, cfg: IndexConfig, name: string, docs: Docs, stats: map<string, IndexStats>,
                 failed: Candidate -> bool, f: Filter)
    requires m.sprint == cfg.sprint && Regular(cfg, name, docs) && Eligible(f) && f.value == Null
    requires SlashFree(f.field) && !HasTail(f.field) && !IsCountField(f.field)
    requires m.sprint(Null) == "<nil>" && !failed(CandidateOf(m.sprint, f))
    ensures
      var q := Query(None, [f], false, "");
      var folded := FoldIds(Expected(cfg, name, docs), name, failed, PlanOf(stats, m.sprint, [f]));
      Answer(m, docs, q, folded) == Selected(m, docs, q) <==>
        || (forall id :: id in docs ==> !Holds(cfg, docs[id], f.field, "<nil>"))
        || (forall id :: id in docs && Listed(m, f, TextIn(m, docs[id], f.field)) ==> Holds(cfg, docs[id], f.field, "<nil>"))
  {
    var q := Query(None, [f], false, "");
    assert IsOnlyEligible(q.filters, f, 0);
    OneCandidate(m, cfg, name, docs, stats, failed, q, f);
    forall id | id in docs ensures MatchesQuery(m, docs[id], q) <==> Listed(m, f, TextIn(m, docs[id], f.field)) {
      NilMatches(m, docs[id], f);
    }
    hide MatchesQuery, Holds, Expected, FoldIds, PlanOf, Listed, TextIn, Answer, Selected;
  }

  /** The texts the filter asks for. */
  predicate Listed(m: Matching, f: Filter, text: string) {
    if f.op == "IN" then SomeText(m, f.values, text) else text == m.sprint(f.value)
  }

  lemma NilMatches(m: Matching, d: Doc, f: Filter)
    requires Eligible(f) && !HasTail(f.field) && !IsCountField(f.field)
    ensures MatchesQuery(m, d, Query(None, [f], false, "")) <==> Listed(m, f, TextIn(m, d, f.field))
  {
    assert Upper(f.op) == f.op;
    assert Head(f.field) == f.field;
    var values := NestedValues(m, d.data, f.field);
    assert values == if f.field in d.data then [d.data[f.field]] else [];
    var v := if f.field in d.data then d.data[f.field] else Null;
    assert MatchFilter(m, d.data, f) <==> MatchValue(m, v, f) by {
      assert f.field in d.data ==> v in values;
    }
    assert ResultsOf(m, d.data, [f]) == [MatchFilter(m, d.data, f)];
  }
}
