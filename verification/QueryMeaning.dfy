/** What a query asks for, said on the stored values: each operator of query_filter.go, the values a
    path reaches, the connectives, and what Find answers to a single comparison. */
module QueryMeaning {
  import opened FindPath
  import opened JsonValues
  import opened NestedFields
  import opened Options
  import opened QueryFilter
  import opened SecondaryIndexes
  import opened Text
  import opened WhereAst

  // ---- one operator on one value ----

  /** The ordering operators go by the numbers unless both are zero, and then by the texts; BETWEEN
      includes both bounds. */
  lemma OrderOperators(m: Matching, v: Json, f: Filter)
    ensures Upper(f.op) == ">" ==> (
      MatchValue(m, v, f) <==>
        if m.toF64(v) != 0.0 || m.toF64(f.value) != 0.0 then m.toF64(v) > m.toF64(f.value)
        else TextBelow(m.sprint(f.value), m.sprint(v)))
    ensures Upper(f.op) == "<" ==> (
      MatchValue(m, v, f) <==>
        if m.toF64(v) != 0.0 || m.toF64(f.value) != 0.0 then m.toF64(v) < m.toF64(f.value)
        else TextBelow(m.sprint(v), m.sprint(f.value)))
    ensures Upper(f.op) == ">=" ==> (
      MatchValue(m, v, f) <==>
        if m.toF64(v) != 0.0 || m.toF64(f.value) != 0.0 then m.toF64(v) >= m.toF64(f.value)
        else m.sprint(v) == m.sprint(f.value) || TextBelow(m.sprint(f.value), m.sprint(v)))
    ensures Upper(f.op) == "<=" ==> (
      MatchValue(m, v, f) <==>
        if m.toF64(v) != 0.0 || m.toF64(f.value) != 0.0 then m.toF64(v) <= m.toF64(f.value)
        else m.sprint(v) == m.sprint(f.value) || TextBelow(m.sprint(v), m.sprint(f.value)))
    ensures Upper(f.op) == "BETWEEN" && (m.toF64(v) != 0.0 || (m.toF64(f.value) != 0.0 && m.toF64(f.value2) != 0.0)) ==> (
      MatchValue(m, v, f) <==> m.toF64(f.value) <= m.toF64(v) <= m.toF64(f.value2))
    ensures Upper(f.op) == "BETWEEN" && m.toF64(v) == m.toF64(f.value) == m.toF64(f.value2) == 0.0 ==> (
      MatchValue(m, v, f) <==>
        && (m.sprint(v) == m.sprint(f.value) || TextBelow(m.sprint(f.value), m.sprint(v)))
        && (m.sprint(v) == m.sprint(f.value2) || TextBelow(m.sprint(v), m.sprint(f.value2))))
  {
    TextTotal(m.sprint(v), m.sprint(f.value));
    TextTotal(m.sprint(v), m.sprint(f.value2));
    hide TextBelow;
  }

  /** Equality and membership compare texts. The null tests take an empty text for null, EXISTS does not.
      No other operator matches anything. */
  lemma TextOperators(m: Matching, v: Json, f: Filter)
    ensures Upper(f.op) in {"=", "=="} ==> (MatchValue(m, v, f) <==> m.sprint(v) == m.sprint(f.value))
    ensures Upper(f.op) in {"!=", "<>"} ==> (MatchValue(m, v, f) <==> m.sprint(v) != m.sprint(f.value))
    ensures Upper(f.op) == "IN" ==> (MatchValue(m, v, f) <==> exists w :: w in f.values && m.sprint(w) == m.sprint(v))
    ensures Upper(f.op) == "NOT IN" ==> (MatchValue(m, v, f) <==> forall w :: w in f.values ==> m.sprint(w) != m.sprint(v))
    ensures Upper(f.op) == "STARTS WITH" ==> (MatchValue(m, v, f) <==> m.sprint(f.value) <= m.sprint(v))
    ensures Upper(f.op) == "ENDS WITH" ==> (
      MatchValue(m, v, f) <==>
        |m.sprint(f.value)| <= |m.sprint(v)| && m.sprint(v)[|m.sprint(v)| - |m.sprint(f.value)|..] == m.sprint(f.value))
    ensures Upper(f.op) == "EXISTS" ==> (MatchValue(m, v, f) <==> v != Null)
    ensures Upper(f.op) == "IS NULL" ==> (MatchValue(m, v, f) <==> v == Null || m.sprint(v) == "")
    ensures Upper(f.op) == "IS NOT NULL" ==> (MatchValue(m, v, f) <==> v != Null && m.sprint(v) != "")
    ensures Upper(f.op) !in {"=", "==", "!=", "<>", ">", "<", ">=", "<=", "LIKE", "NOT LIKE", "CONTAINS", "NOT CONTAINS", "EXISTS",
                             "IN", "NOT IN", "BETWEEN", "STARTS WITH", "ENDS WITH", "IS NULL", "IS NOT NULL"} ==>
              !MatchValue(m, v, f)
  {
  }

  /** LIKE on lower-cased texts: a bare pattern is the whole text, one ending in % its beginning, one
      starting with % its end, and one between two % occurs somewhere; more percent signs at the ends of
      the latter change nothing. CONTAINS takes the pattern as it is. */
  lemma PatternOperators(m: Matching, v: Json, f: Filter, body: string)
    requires body == "" || (body[0] != '%' && body[|body| - 1] != '%')
    ensures
      var (text, pattern) := (m.lower(m.sprint(v)), m.lower(m.sprint(f.value)));
      && (Upper(f.op) == "LIKE" && pattern == body ==> (MatchValue(m, v, f) <==> text == body))
      && (Upper(f.op) == "LIKE" && pattern == body + "%" && body != "" ==> (MatchValue(m, v, f) <==> body <= text))
      && (Upper(f.op) == "LIKE" && pattern == "%" + body && body != "" ==>
            (MatchValue(m, v, f) <==> exists before :: text == before + body))
      && (Upper(f.op) == "LIKE" && pattern == "%" + body + "%" ==>
            (MatchValue(m, v, f) <==> exists before, after :: text == before + body + after))
      && (Upper(f.op) == "CONTAINS" ==> (MatchValue(m, v, f) <==> exists before, after :: text == before + pattern + after))
  {
    var (text, pattern) := (m.lower(m.sprint(v)), m.lower(m.sprint(f.value)));
    LikeMeaning(text, pattern, body);
    Occurrence(pattern, text);
    hide Occurs, Like;
  }

  /** The negated patterns match where the plain ones do not. */
  lemma NegatedPatterns(m: Matching, v: Json, f: Filter)
    ensures Upper(f.op) == "NOT LIKE" ==> (MatchValue(m, v, f) <==> !MatchValue(m, v, f.(op := "LIKE")))
    ensures Upper(f.op) == "NOT CONTAINS" ==> (MatchValue(m, v, f) <==> !MatchValue(m, v, f.(op := "CONTAINS")))
  {
    hide Like, Occurs;
    assert Upper("LIKE") == "LIKE" && Upper("CONTAINS") == "CONTAINS";
  }

  lemma LikeMeaning(text: string, pattern: string, body: string)
    requires body == "" || (body[0] != '%' && body[|body| - 1] != '%')
    ensures pattern == body ==> (Like(text, pattern) <==> text == body)
    ensures pattern == body + "%" && body != "" ==> (Like(text, pattern) <==> body <= text)
    ensures pattern == "%" + body && body != "" ==> (Like(text, pattern) <==> exists before :: text == before + body)
    ensures pattern == "%" + body + "%" ==> (Like(text, pattern) <==> exists before, after :: text == before + body + after)
  {
    LikeShapes(text, pattern, body);
    hide Occurs, Like, HasSuffix;
    Occurrence(body, text);
    Ending(body, text);
  }

  lemma LikeShapes(text: string, pattern: string, body: string)
    requires body == "" || (body[0] != '%' && body[|body| - 1] != '%')
    ensures pattern == body ==> (Like(text, pattern) <==> text == body)
    ensures pattern == body + "%" && body != "" ==> (Like(text, pattern) <==> body <= text)
    ensures pattern == "%" + body && body != "" ==> (Like(text, pattern) <==> HasSuffix(text, body))
    ensures pattern == "%" + body + "%" ==> (Like(text, pattern) <==> Occurs(body, text))
  {
    if pattern == "%" + body + "%" { TrimmedPattern(body); }
    hide Occurs, Trim;
  }

  lemma Occurrence(part: string, s: string)
    ensures Occurs(part, s) <==> exists before, after :: s == before + part + after
  {
    if i :| 0 <= i <= |s| && part <= s[i..] {
      assert s == s[..i] + part + s[i + |part|..];
    }
    if before, after :| s == before + part + after {
      assert s[|before|..] == part + after;
    }
  }

  lemma Ending(part: string, s: string)
    ensures HasSuffix(s, part) <==> exists before :: s == before + part
  {
    if HasSuffix(s, part) {
      assert s == s[..|s| - |part|] + part;
    }
  }

  lemma TrimmedPattern(body: string)
    requires body == "" || (body[0] != '%' && body[|body| - 1] != '%')
    ensures Trim("%" + body + "%", {'%'}) == body
    ensures HasPrefix("%" + body + "%", "%") && HasSuffix("%" + body + "%", "%")
  {
    TrimEnds('%', body, {'%'});
  }

  // ---- the values a path reaches ----

  /** A count field reaches the count of what stands between its parentheses. */
  lemma CountReached(m: Matching, data: Data, inside: string)
    ensures NestedValues(m, data, "COUNT(" + inside + ")") == [m.countValue(inside, data)]
  {
    var path := "COUNT(" + inside + ")";
    assert path[..6] == "COUNT(" && path[6..|path| - 1] == inside;
    assert IsCountField(path);
  }

  /** A value is reached through objects by field names, and through an array from any of its objects. */
  lemma PathReaches(m: Matching, data: Data, path: string, v: Json)
    requires !IsCountField(path)
    ensures !HasTail(path) ==> NestedValues(m, data, path) == if path in data then [data[path]] else []
    ensures HasTail(path) ==> path == Head(path) + "." + Tail(path) && '.' !in Head(path)
    ensures HasTail(path) && Head(path) in data && data[Head(path)].Obj? ==>
              NestedValues(m, data, path) == NestedValues(m, data[Head(path)].fields, Tail(path))
    ensures HasTail(path) && Head(path) in data && data[Head(path)].Arr? ==> (
              v in NestedValues(m, data, path) <==>
                exists o :: o in data[Head(path)].items && o.Obj? && v in NestedValues(m, o.fields, Tail(path)))
    ensures HasTail(path) && (Head(path) !in data || (!data[Head(path)].Obj? && !data[Head(path)].Arr?)) ==>
              NestedValues(m, data, path) == []
  {
    PathParts(path);
    if HasTail(path) && Head(path) in data && data[Head(path)].Arr? {
      FansOut(m, data[Head(path)].items, Tail(path), v);
    }
    hide ItemValues;
    if !HasTail(path) { assert Head(path) == path; }
  }

  lemma {:induction false} FansOut(m: Matching, items: seq<Json>, path: string, v: Json)
    ensures v in ItemValues(m, items, path) <==> exists o :: o in items && o.Obj? && v in NestedValues(m, o.fields, path)
  {
    hide NestedValues;
    if items != [] {
      FansOut(m, items[1..], path, v);
      assert items == [items[0]] + items[1..];
    }
  }

  /** Where the path leads through objects only, the value it reaches is the one read and written by name. */
  lemma {:induction false} ReadsAgree(m: Matching, data: Data, path: string)
    requires NoCounts(path)
    ensures Present(data, path) ==> NestedValues(m, data, path) == [GetNested(data, path)]
    ensures NestedValues(m, data, path) == [] ==> GetNested(data, path) == Null
    decreases |path|
  {
    PathReaches(m, data, path, Null);
    if HasTail(path) && Head(path) in data && data[Head(path)].Obj? {
      ReadsAgree(m, data[Head(path)].fields, Tail(path));
    }
  }

  /** No part of the path from a dot on is a count. */
  predicate NoCounts(path: string)
    decreases |path|
  {
    !IsCountField(path) && (HasTail(path) ==> NoCounts(Tail(path)))
  }

  // ---- whole queries ----

  function Shown(d: Doc, field: string): Json {
    if field in d.data then d.data[field] else Null
  }

  /** A condition asks the values its path reaches: null if there is none, any of them if there are several.
      AND, OR and NOT select the common, the joint and the other documents; a shard limits all alike. */
  lemma SelectedMeaning(m: Matching, docs: Docs, filters: seq<Filter>, prefer: bool, shard: string, e: Expr, l: Expr, r: Expr, id: string)
    requires id in docs && (shard == "" || docs[id].shardId == shard)
    ensures e.Cond? ==> (
      id in Selected(m, docs, Query(Some(e), filters, prefer, shard)) <==>
        var values := NestedValues(m, docs[id].data, e.field);
        if values == [] then MatchValue(m, Null, FilterOf(e)) else exists v :: v in values && MatchValue(m, v, FilterOf(e)))
    ensures id in Selected(m, docs, Query(Some(And(l, r)), filters, prefer, shard)) <==>
              id in Selected(m, docs, Query(Some(l), filters, prefer, shard)) && id in Selected(m, docs, Query(Some(r), filters, prefer, shard))
    ensures id in Selected(m, docs, Query(Some(Or(l, r)), filters, prefer, shard)) <==>
              id in Selected(m, docs, Query(Some(l), filters, prefer, shard)) || id in Selected(m, docs, Query(Some(r), filters, prefer, shard))
    ensures id in Selected(m, docs, Query(Some(Not(e)), filters, prefer, shard)) <==>
              id !in Selected(m, docs, Query(Some(e), filters, prefer, shard))
  {
    hide MatchValue, NestedValues;
  }

  /** Documents of other shards are never selected. */
  lemma SelectedInShard(m: Matching, docs: Docs, q: Query, id: string)
    requires id in Selected(m, docs, q)
    ensures id in docs && (q.shardId == "" || docs[id].shardId == q.shardId)
  {
    hide FoldFilters, EvalExpr;
  }

  /** The query is one comparison on an undotted field, read as a tree or as a list. */
  ghost predicate Single(q: Query, f: Filter) {
    && q.filters == [f] && !HasTail(f.field) && !IsCountField(f.field)
    && (q.where.Some? ==> q.where.value.Cond? && f == FilterOf(q.where.value))
  }

  lemma SingleSelects(m: Matching, docs: Docs, q: Query, f: Filter, id: string)
    requires Single(q, f)
    ensures id in Selected(m, docs, q) <==>
              && id in docs && (q.shardId == "" || docs[id].shardId == q.shardId)
              && MatchValue(m, Shown(docs[id], f.field), f)
  {
    if id in docs {
      var v := Shown(docs[id], f.field);
      PathReaches(m, docs[id].data, f.field, v);
      var values := NestedValues(m, docs[id].data, f.field);
      hide MatchValue, NestedValues;
      assert f.field in docs[id].data ==> v in values;
      assert MatchFilter(m, docs[id].data, f) <==> MatchValue(m, v, f);
      assert ResultsOf(m, docs[id].data, [f]) == [MatchFilter(m, docs[id].data, f)];
    }
  }

  /** What Find answers to one comparison no index is consulted for, whatever the index holds: FIND x WHERE
      age > 30 returns exactly the documents of the shard whose age, as a number, is above 30. */
  lemma ComparisonAnswer(m: Matching, index: set<string>, name: string, stats: map<string, IndexStats>, failed: Candidate -> bool,
                         docs: Docs, q: Query, f: Filter, id: string)
    requires Single(q, f) && id in docs && (q.shardId == "" || docs[id].shardId == q.shardId)
    requires f.op !in {"=", "==", "IN"}
    ensures
      var v := Shown(docs[id], f.field);
      var (x, y) := (m.toF64(v), m.toF64(f.value));
      var found := id in Answer(m, docs, q, FoldIds(index, name, failed, PlanOf(stats, m.sprint, q.filters)));
      && (Upper(f.op) == ">" && (x != 0.0 || y != 0.0) ==> (found <==> x > y))
      && (Upper(f.op) == "<" && (x != 0.0 || y != 0.0) ==> (found <==> x < y))
      && (Upper(f.op) == ">=" && (x != 0.0 || y != 0.0) ==> (found <==> x >= y))
      && (Upper(f.op) == "<=" && (x != 0.0 || y != 0.0) ==> (found <==> x <= y))
      && (Upper(f.op) == "BETWEEN" && x != 0.0 ==> (found <==> y <= x <= m.toF64(f.value2)))
      && (Upper(f.op) in {"!=", "<>"} ==> (found <==> m.sprint(v) != m.sprint(f.value)))
      && (Upper(f.op) == "NOT IN" ==> (found <==> forall w :: w in f.values ==> m.sprint(w) != m.sprint(v)))
      && (Upper(f.op) == "STARTS WITH" ==> (found <==> m.sprint(f.value) <= m.sprint(v)))
      && (Upper(f.op) == "EXISTS" ==> (found <==> v != Null))
      && (Upper(f.op) == "IS NULL" ==> (found <==> v == Null || m.sprint(v) == ""))
      && (Upper(f.op) == "IS NOT NULL" ==> (found <==> v != Null && m.sprint(v) != ""))
  {
    SingleSelects(m, docs, q, f, id);
    NothingPlanned(stats, m.sprint, q.filters);
    OrderOperators(m, Shown(docs[id], f.field), f);
    TextOperators(m, Shown(docs[id], f.field), f);
    hide MatchValue, Selected, PlanOf, TextBelow, Shown, Upper;
  }
}
