/** Matching documents against filters: query_filter.go and the value lookup of nested_fields.go. */
module QueryFilter {
  import opened JsonValues
  import opened NestedFields
  import opened Options
  import opened Text
  import opened WhereAst

  datatype Filter = Filter(field: string, op: string, value: Json, value2: Json, values: seq<Json>, logic: string)

  /** Host conversions: text and number of a value, element counts, and lower-casing. */
  datatype Matching = Matching(sprint: Json -> string, toF64: Json -> real, countValue: (string, Data) -> Json,
                               lower: string -> string)

  predicate IsCountField(path: string) {
    HasPrefix(path, "COUNT(") && HasSuffix(path, ")") && |path| >= 7
  }

  /** Every value a path reaches; arrays on the way fan out into their objects. */
  function NestedValues(m: Matching, data: Data, path: string): seq<Json>
    decreases |path|, 1, 0
  {
    if IsCountField(path) then [m.countValue(path[6..|path| - 1], data)]
    else
      var head := Head(path);
      if head !in data then []
      else if !HasTail(path) then [data[head]]
      else
        match data[head]
        case Obj(fields) => NestedValues(m, fields, Tail(path))
        case Arr(items) => ItemValues(m, items, Tail(path))
        case _ => []
  }

  function ItemValues(m: Matching, items: seq<Json>, path: string): seq<Json>
    decreases |path|, 2, |items|
  {
    if items == [] then []
    else (if items[0].Obj? then NestedValues(m, items[0].fields, path) else []) + ItemValues(m, items[1..], path)
  }

  function CompareNumbers(m: Matching, a: Json, b: Json): int {
    var fa, fb := m.toF64(a), m.toF64(b);
    if fa != 0.0 || fb != 0.0 then (if fa < fb then -1 else if fa > fb then 1 else 0)
    else
      var sa, sb := m.sprint(a), m.sprint(b);
      if TextBelow(sa, sb) then -1 else if TextBelow(sb, sa) then 1 else 0
  }

  predicate Occurs(part: string, s: string) {
    exists i :: 0 <= i <= |s| && part <= s[i..]
  }

  /** A percent sign at an end of the pattern leaves that end open; both ends open look for the pattern
      without any of its outer percent signs. */
  predicate Like(s: string, pattern: string) {
    if HasPrefix(pattern, "%") && HasSuffix(pattern, "%") then Occurs(Trim(pattern, {'%'}), s)
    else if HasPrefix(pattern, "%") then HasSuffix(s, pattern[1..])
    else if HasSuffix(pattern, "%") then HasPrefix(s, pattern[..|pattern| - 1])
    else s == pattern
  }

  predicate SomeText(m: Matching, values: seq<Json>, text: string) {
    exists v :: v in values && m.sprint(v) == text
  }

  predicate MatchValue(m: Matching, v: Json, f: Filter) {
    var op := Upper(f.op);
    if op == "=" || op == "==" then m.sprint(v) == m.sprint(f.value)
    else if op == "!=" || op == "<>" then m.sprint(v) != m.sprint(f.value)
    else if op == ">" then CompareNumbers(m, v, f.value) > 0
    else if op == "<" then CompareNumbers(m, v, f.value) < 0
    else if op == ">=" then CompareNumbers(m, v, f.value) >= 0
    else if op == "<=" then CompareNumbers(m, v, f.value) <= 0
    else if op == "LIKE" then Like(m.lower(m.sprint(v)), m.lower(m.sprint(f.value)))
    else if op == "NOT LIKE" then !Like(m.lower(m.sprint(v)), m.lower(m.sprint(f.value)))
    else if op == "CONTAINS" then Occurs(m.lower(m.sprint(f.value)), m.lower(m.sprint(v)))
    else if op == "NOT CONTAINS" then !Occurs(m.lower(m.sprint(f.value)), m.lower(m.sprint(v)))
    else if op == "EXISTS" then v != Null
    else if op == "IN" then SomeText(m, f.values, m.sprint(v))
    else if op == "NOT IN" then !SomeText(m, f.values, m.sprint(v))
    else if op == "BETWEEN" then CompareNumbers(m, v, f.value) >= 0 && CompareNumbers(m, v, f.value2) <= 0
    else if op == "STARTS WITH" then HasPrefix(m.sprint(v), m.sprint(f.value))
    else if op == "ENDS WITH" then HasSuffix(m.sprint(v), m.sprint(f.value))
    else if op == "IS NULL" then v == Null || m.sprint(v) == ""
    else if op == "IS NOT NULL" then v != Null && m.sprint(v) != ""
    else false
  }

  /** One condition: no value counts as null, several match if any does. */
  predicate MatchFilter(m: Matching, data: Data, f: Filter) {
    var values := NestedValues(m, data, f.field);
    if |values| == 0 then MatchValue(m, Null, f)
    else exists v :: v in values && MatchValue(m, v, f)
  }

  function FilterOf(e: Expr): Filter
    requires e.Cond?
  {
    Filter(e.field, e.op, e.value, e.value2, if e.values.Some? then e.values.value else [], "")
  }

  /** The meaning of a tree, given what its leaves say. */
  predicate Eval(e: Expr, leaf: Expr -> bool) {
    match e
    case Cond(_, _, _, _, _) => leaf(e)
    case And(l, r) => Eval(l, leaf) && Eval(r, leaf)
    case Or(l, r) => Eval(l, leaf) || Eval(r, leaf)
    case Not(child) => !Eval(child, leaf)
  }

  predicate EvalExpr(m: Matching, data: Data, e: Expr) {
    Eval(e, LeafTest(m, data))
  }

  function LeafTest(m: Matching, data: Data): Expr -> bool {
    (e: Expr) => e.Cond? && MatchFilter(m, data, FilterOf(e))
  }

  /** The historical evaluation: strictly left to right, the first connective ignored. */
  function FoldFilters(results: seq<bool>, logics: seq<string>): bool
    requires |results| == |logics|
  {
    if results == [] then true
    else if |results| == 1 then results[0]
    else
      var n := |results| - 1;
      var before := FoldFilters(results[..n], logics[..n]);
      if Upper(logics[n]) == "OR" then before || results[n] else before && results[n]
  }

  function ResultsOf(m: Matching, data: Data, filters: seq<Filter>): seq<bool> {
    seq(|filters|, i requires 0 <= i < |filters| => MatchFilter(m, data, filters[i]))
  }

  function LogicsOf(filters: seq<Filter>): seq<string> {
    seq(|filters|, i requires 0 <= i < |filters| => filters[i].logic)
  }

  method MatchesFilters(m: Matching, data: Data, filters: seq<Filter>) returns (result: bool)
    ensures result == FoldFilters(ResultsOf(m, data, filters), LogicsOf(filters))
  {
    if filters == [] { return true; }
    result := false;
    var first := true;
    var all, logics := ResultsOf(m, data, filters), LogicsOf(filters);
    for i := 0 to |filters|
      invariant first <==> i == 0
      invariant i > 0 ==> result == FoldFilters(all[..i], logics[..i])
    {
      var hit := MatchFilter(m, data, filters[i]);
      assert all[..i + 1][..i] == all[..i] && logics[..i + 1][..i] == logics[..i];
      if first {
        result, first := hit, false;
      } else if Upper(filters[i].logic) == "OR" {
        result := result || hit;
      } else {
        result := result && hit;
      }
    }
    assert all[..|filters|] == all && logics[..|filters|] == logics;
  }

  // ---- the flat list an AND chain is reduced to ----

  function FlattenTopLevelAnd(e: Expr): Option<seq<Expr>> {
    match e
    case Cond(_, _, _, _, _) => Some([e])
    case And(l, r) =>
      var (fl, fr) := (FlattenTopLevelAnd(l), FlattenTopLevelAnd(r));
      if fl.Some? && fr.Some? then Some(fl.value + fr.value) else None
    case _ => None
  }

  /** Flattening succeeds exactly on trees without OR and NOT, and then means the same. */
  lemma {:induction false} FlattenMeaning(e: Expr, leaf: Expr -> bool)
    ensures FlattenTopLevelAnd(e).Some? <==> AndOnly(e)
    ensures FlattenTopLevelAnd(e).Some? ==>
      var leaves := FlattenTopLevelAnd(e).value;
      (forall l :: l in leaves ==> l.Cond?) && (Eval(e, leaf) <==> forall l :: l in leaves ==> leaf(l))
  {
    if e.And? {
      FlattenMeaning(e.left, leaf);
      FlattenMeaning(e.right, leaf);
    }
  }

  predicate AndOnly(e: Expr) {
    match e
    case Cond(_, _, _, _, _) => true
    case And(l, r) => AndOnly(l) && AndOnly(r)
    case _ => false
  }
}
