/** findCycles of relations_auto_graph.go: the relations it does not return form a spanning
    forest, and how many it returns depends only on the graph. */
module CycleFinding {
  import opened AutoRelations
  import opened UnionFinding
  import Sorting = StableSorting

  function EdgeOf(r: AutoRelation): Edge {
    (NodeKey(Doc, r.docId), NodeKey(User, r.userId))
  }

  function EdgesOf(rels: seq<AutoRelation>): seq<Edge> {
    seq(|rels|, i requires 0 <= i < |rels| => EdgeOf(rels[i]))
  }

  // ---- on bare edges: an edge closes a cycle iff earlier edges already join its ends ----

  ghost predicate Closes(es: seq<Edge>, e: Edge) {
    Connected(es, e.0, e.1)
  }

  ghost function Spanning(es: seq<Edge>): seq<Edge> {
    if es == [] then []
    else
      var init, e := es[..|es| - 1], es[|es| - 1];
      Spanning(init) + if Closes(init, e) then [] else [e]
  }

  ghost predicate IsForest(es: seq<Edge>) {
    forall i :: 0 <= i < |es| ==> IsBridge(es, i)
  }

  /** Without its i-th edge, the ends of that edge are no longer connected. */
  ghost predicate IsBridge(es: seq<Edge>, i: nat)
    requires i < |es|
  {
    !Connected(es[..i] + es[i + 1..], es[i].0, es[i].1)
  }

  lemma SpanningSubset(es: seq<Edge>)
    ensures forall e :: e in Spanning(es) ==> e in es
  {
  }

  /** Swapping one edge list for another with the same connections, under one more edge. */
  lemma SnocConnected(es: seq<Edge>, fs: seq<Edge>, e: Edge, x: string, y: string)
    requires forall u, v :: Connected(es, u, v) <==> Connected(fs, u, v)
    requires Connected(es + [e], x, y)
    ensures Connected(fs + [e], x, y)
  {
    var m := PartitionOf(es);
    PartitionShape(es);
    assert (es + [e])[..|es|] == es && (fs + [e])[..|fs|] == fs;
    RootsAreComponents(es + [e], x, y);
    UnionRoots(m, e.0, e.1, x, y);
    RootsAreComponents(es, x, y);
    RootsAreComponents(es, x, e.0);
    RootsAreComponents(es, x, e.1);
    RootsAreComponents(es, y, e.0);
    RootsAreComponents(es, y, e.1);
    var n := PartitionOf(fs);
    PartitionShape(fs);
    RootsAreComponents(fs + [e], x, y);
    UnionRoots(n, e.0, e.1, x, y);
    RootsAreComponents(fs, x, y);
    RootsAreComponents(fs, x, e.0);
    RootsAreComponents(fs, x, e.1);
    RootsAreComponents(fs, y, e.0);
    RootsAreComponents(fs, y, e.1);
  }

  /** An edge between connected ends connects nothing new. */
  lemma ClosingAddsNothing(es: seq<Edge>, e: Edge, x: string, y: string)
    requires Closes(es, e) && Connected(es + [e], x, y)
    ensures Connected(es, x, y)
  {
    PartitionShape(es);
    assert (es + [e])[..|es|] == es;
    RootsAreComponents(es + [e], x, y);
    UnionRoots(PartitionOf(es), e.0, e.1, x, y);
    RootsAreComponents(es, x, y);
    RootsAreComponents(es, e.0, e.1);
  }

  /** The kept edges connect exactly what all edges connect. */
  lemma {:induction false} SpanningConnects(es: seq<Edge>, x: string, y: string)
    ensures Connected(Spanning(es), x, y) <==> Connected(es, x, y)
  {
    if Connected(Spanning(es), x, y) {
      SpanningSubset(es);
      ConnectedMono(Spanning(es), es, x, y);
    }
    if es != [] && Connected(es, x, y) {
      var init, e := es[..|es| - 1], es[|es| - 1];
      assert es == init + [e];
      forall u, v ensures Connected(Spanning(init), u, v) <==> Connected(init, u, v) {
        SpanningConnects(init, u, v);
      }
      if Closes(init, e) {
        ClosingAddsNothing(init, e, x, y);
        assert Spanning(es) == Spanning(init);
      } else {
        SnocConnected(init, Spanning(init), e, x, y);
      }
    }
  }

  // ---- counting ----

  function Roots(m: Partition): set<string> {
    set x <- m | m[x] == x
  }

  lemma TouchRoots(m: Partition, x: string)
    requires x !in m
    ensures Roots(m[x := x]) == Roots(m) + {x} && x !in Roots(m)
  {
    var after := m[x := x];
    forall y ensures y in Roots(after) <==> y in Roots(m) + {x} {
    }
  }

  lemma TouchRootCount(m: Partition, x: string)
    ensures |Touch(m, x)| - |Roots(Touch(m, x))| == |m| - |Roots(m)|
  {
    if x !in m {
      TouchRoots(m, x);
      hide Roots;
      assert m[x := x].Keys == m.Keys + {x};
    }
  }

  lemma MergeRootCount(m: Partition, ra: string, rb: string)
    requires ra in m && rb in m && m[ra] == ra && m[rb] == rb
    ensures |Merge(m, ra, rb)| == |m|
    ensures |Roots(Merge(m, ra, rb))| == |Roots(m)| - if ra == rb then 0 else 1
  {
    assert Merge(m, ra, rb).Keys == m.Keys;
    assert Roots(Merge(m, ra, rb)) == if ra == rb then Roots(m) else Roots(m) - {ra};
  }

  /** Every kept edge costs one class: names = classes + kept edges. */
  lemma {:induction false} RootCount(es: seq<Edge>)
    ensures |Nodes(es)| == |Roots(PartitionOf(es))| + |Spanning(es)|
  {
    PartitionShape(es);
    if es == [] {
      assert Roots(PartitionOf(es)) == {};
    } else {
      var init, e := es[..|es| - 1], es[|es| - 1];
      var m := PartitionOf(init);
      PartitionShape(init);
      RootCount(init);
      RootsAreComponents(init, e.0, e.1);
      TouchRootCount(m, e.0);
      TouchRootCount(Touch(m, e.0), e.1);
      AfterFinds(m, e.0, e.1);
      var t := Touch(Touch(m, e.0), e.1);
      MergeRootCount(t, t[e.0], t[e.1]);
      assert |PartitionOf(es)| == |Nodes(es)| && |m| == |Nodes(init)|;
    }
  }

  lemma {:induction false} InjectiveImage(s: set<string>, t: set<set<string>>, f: string -> set<string>)
    requires t == set x <- s :: f(x)
    requires forall x, y :: x in s && y in s && f(x) == f(y) ==> x == y
    ensures |t| == |s|
  {
    if s != {} {
      var x :| x in s;
      InjectiveImage(s - {x}, t - {f(x)}, f);
    }
  }

  /** The classes of the union-find are the connected components of the graph. */
  lemma ComponentCount(es: seq<Edge>)
    ensures |Components(es)| == |Roots(PartitionOf(es))|
  {
    var m := PartitionOf(es);
    PartitionShape(es);
    forall x, y ensures Root(m, x) == Root(m, y) <==> Connected(es, x, y) {
      RootsAreComponents(es, x, y);
    }
    var component := x => Component(es, x);
    forall x | x in m ensures m[x] in Roots(m) && Component(es, x) == Component(es, m[x]) {
      assert RootIsFixed(m, x);
      forall y ensures Connected(es, x, y) <==> Connected(es, m[x], y) {
        assert Root(m, x) == Root(m, m[x]);
      }
    }
    assert Components(es) == set x <- Roots(m) :: component(x);
    forall x, y | x in Roots(m) && y in Roots(m) && component(x) == component(y) ensures x == y {
      assert x in component(x) by { assert Root(m, x) == Root(m, x); }
      assert Connected(es, y, x);
    }
    InjectiveImage(Roots(m), Components(es), component);
  }

  lemma {:induction false} SpanningIdempotent(es: seq<Edge>)
    ensures Spanning(Spanning(es)) == Spanning(es)
  {
    if es != [] {
      var init, e := es[..|es| - 1], es[|es| - 1];
      SpanningIdempotent(init);
      SpanningConnects(init, e.0, e.1);
      var fs := Spanning(es);
      if Closes(init, e) {
        assert fs == Spanning(init);
      } else {
        assert fs[..|fs| - 1] == Spanning(init) && fs[|fs| - 1] == e;
      }
    }
  }

  lemma {:induction false} SpanningSize(es: seq<Edge>)
    ensures |Spanning(es)| <= |es|
    ensures forall e :: e in Spanning(es) ==> e.0 != e.1
  {
    if es != [] {
      var init, e := es[..|es| - 1], es[|es| - 1];
      SpanningSize(init);
      ConnectedRefl(init, e.0);
    }
  }

  lemma ConnectedEndsAreNodes(es: seq<Edge>, x: string, y: string)
    requires Connected(es, x, y) && x != y
    ensures x in Nodes(es) && y in Nodes(es)
  {
    PartitionShape(es);
    RootsAreComponents(es, x, y);
    assert RootIsFixed(PartitionOf(es), x) && RootIsFixed(PartitionOf(es), y);
  }

  /** A list with an edge that is not a bridge keeps fewer edges than it has. */
  lemma NonBridgeIsDropped(es: seq<Edge>, i: nat)
    requires i < |es| && es[i].0 != es[i].1 && !IsBridge(es, i)
    ensures |Spanning(es)| < |es|
  {
    var e, rest := es[i], es[..i] + es[i + 1..];
    forall f ensures f in es <==> f in rest + [e] {
      assert es == es[..i] + [e] + es[i + 1..];
    }
    forall x, y ensures Connected(es, x, y) <==> Connected(rest, x, y) {
      if Connected(es, x, y) {
        ConnectedMono(es, rest + [e], x, y);
        ClosingAddsNothing(rest, e, x, y);
      }
      if Connected(rest, x, y) {
        ConnectedMono(rest, es, x, y);
      }
    }
    ConnectedEndsAreNodes(rest, e.0, e.1);
    assert Nodes(es) == Nodes(rest);
    forall x ensures Component(es, x) == Component(rest, x) {}
    assert Components(es) == Components(rest);
    ComponentCount(es);
    ComponentCount(rest);
    RootCount(es);
    RootCount(rest);
    SpanningSize(rest);
  }

  /** The kept edges are a forest: dropping any one of them disconnects its ends. */
  lemma SpanningIsForest(es: seq<Edge>)
    ensures IsForest(Spanning(es))
  {
    var fs := Spanning(es);
    SpanningIdempotent(es);
    SpanningSize(es);
    forall i | 0 <= i < |fs| ensures IsBridge(fs, i) {
      if !IsBridge(fs, i) {
        NonBridgeIsDropped(fs, i);
      }
    }
  }

  // ---- on relations ----

  ghost function CyclesIn(rels: seq<AutoRelation>): seq<AutoRelation> {
    if rels == [] then []
    else
      var init, r := rels[..|rels| - 1], rels[|rels| - 1];
      CyclesIn(init) + if Closes(EdgesOf(init), EdgeOf(r)) then [r] else []
  }

  ghost function KeptIn(rels: seq<AutoRelation>): seq<AutoRelation> {
    if rels == [] then []
    else
      var init, r := rels[..|rels| - 1], rels[|rels| - 1];
      KeptIn(init) + if Closes(EdgesOf(init), EdgeOf(r)) then [] else [r]
  }

  lemma {:induction false} KeptEdges(rels: seq<AutoRelation>)
    ensures EdgesOf(KeptIn(rels)) == Spanning(EdgesOf(rels))
  {
    hide Closes, EdgesOf, EdgeOf;
    if rels != [] {
      var init, r := rels[..|rels| - 1], rels[|rels| - 1];
      KeptEdges(init);
      LastEdge(rels);
      EdgesSnoc(KeptIn(init), r);
    } else {
      NoEdges();
    }
  }

  lemma {:induction false} KeptAndCycles(rels: seq<AutoRelation>)
    ensures multiset(rels) == multiset(KeptIn(rels)) + multiset(CyclesIn(rels))
  {
    if rels == [] {
      NoParts();
    } else {
      hide KeptIn, CyclesIn, ClosesCycle;
      var init, r := rels[..|rels| - 1], rels[|rels| - 1];
      KeptAndCycles(init);
      assert rels == init + [r];
      KeptLast(init, r);
      CyclesLast(init, r);
      SplitSnoc(rels, init, r, KeptIn(init), CyclesIn(init));
    }
  }

  lemma NoParts()
    ensures KeptIn([]) == [] && CyclesIn([]) == []
  {
  }

  ghost predicate ClosesCycle(init: seq<AutoRelation>, r: AutoRelation) {
    Closes(EdgesOf(init), EdgeOf(r))
  }

  lemma KeptLast(init: seq<AutoRelation>, r: AutoRelation)
    ensures KeptIn(init + [r]) == KeptIn(init) + if ClosesCycle(init, r) then [] else [r]
  {
    hide Closes, EdgesOf, EdgeOf, CyclesIn;
    assert (init + [r])[..|init|] == init;
  }

  lemma CyclesLast(init: seq<AutoRelation>, r: AutoRelation)
    ensures CyclesIn(init + [r]) == CyclesIn(init) + if ClosesCycle(init, r) then [r] else []
  {
    hide Closes, EdgesOf, EdgeOf, KeptIn;
    assert (init + [r])[..|init|] == init;
  }

  lemma NoEdges()
    ensures EdgesOf([]) == []
  {
  }

  lemma LastEdge(rels: seq<AutoRelation>)
    requires rels != []
    ensures
      var (init, es) := (rels[..|rels| - 1], EdgesOf(rels));
      es != [] && es[..|es| - 1] == EdgesOf(init) && es[|es| - 1] == EdgeOf(rels[|rels| - 1])
  {
    hide EdgeOf;
  }

  lemma EdgesSnoc(rels: seq<AutoRelation>, r: AutoRelation)
    ensures EdgesOf(rels + [r]) == EdgesOf(rels) + [EdgeOf(r)] && EdgesOf(rels + []) == EdgesOf(rels)
  {
    hide EdgeOf;
    assert rels + [] == rels;
  }

  /** One more relation goes to one of the two parts. */
  lemma SplitSnoc(rels: seq<AutoRelation>, init: seq<AutoRelation>, r: AutoRelation, kept: seq<AutoRelation>, cycles: seq<AutoRelation>)
    requires rels == init + [r] && multiset(init) == multiset(kept) + multiset(cycles)
    ensures multiset(rels) == multiset(kept + [r]) + multiset(cycles + []) == multiset(kept + []) + multiset(cycles + [r])
  {
    assert kept + [] == kept && cycles + [] == cycles;
  }

  /** For every relation list in any order: what is not returned is a spanning forest. */
  lemma KeptIsSpanningForest(rels: seq<AutoRelation>)
    ensures IsForest(EdgesOf(KeptIn(rels)))
    ensures forall x, y :: Connected(EdgesOf(KeptIn(rels)), x, y) <==> Connected(EdgesOf(rels), x, y)
    ensures multiset(rels) == multiset(KeptIn(rels)) + multiset(CyclesIn(rels))
  {
    KeptEdges(rels);
    KeptAndCycles(rels);
    SpanningIsForest(EdgesOf(rels));
    forall x, y ensures Connected(EdgesOf(KeptIn(rels)), x, y) <==> Connected(EdgesOf(rels), x, y) {
      SpanningConnects(EdgesOf(rels), x, y);
    }
  }

  /** The cycle count of the statistics: relations minus nodes plus components. */
  lemma CycleCount(rels: seq<AutoRelation>)
    ensures |CyclesIn(rels)| == |rels| - |Nodes(EdgesOf(rels))| + |Components(EdgesOf(rels))|
  {
    KeptEdges(rels);
    KeptAndCycles(rels);
    assert |multiset(rels)| == |multiset(KeptIn(rels))| + |multiset(CyclesIn(rels))|;
    assert |EdgesOf(KeptIn(rels))| == |KeptIn(rels)|;
    RootCount(EdgesOf(rels));
    ComponentCount(EdgesOf(rels));
  }

  /** So every processing order of the same relations reports the same number of cycles. */
  lemma CycleCountIgnoresOrder(rels: seq<AutoRelation>, ordered: seq<AutoRelation>)
    requires multiset(rels) == multiset(ordered)
    ensures |CyclesIn(rels)| == |CyclesIn(ordered)|
  {
    var es, fs := EdgesOf(rels), EdgesOf(ordered);
    forall e ensures e in es <==> e in fs {
      if e in es { EdgeFromMember(rels, ordered, e); }
      if e in fs { EdgeFromMember(ordered, rels, e); }
    }
    forall x, y ensures Connected(es, x, y) <==> Connected(fs, x, y) {
      if Connected(es, x, y) { ConnectedMono(es, fs, x, y); }
      if Connected(fs, x, y) { ConnectedMono(fs, es, x, y); }
    }
    assert Nodes(es) == Nodes(fs);
    forall x ensures Component(es, x) == Component(fs, x) {}
    assert Components(es) == Components(fs);
    CycleCount(rels);
    CycleCount(ordered);
    assert |multiset(rels)| == |multiset(ordered)|;
  }

  lemma EdgeFromMember(rels: seq<AutoRelation>, ordered: seq<AutoRelation>, e: Edge)
    requires multiset(rels) == multiset(ordered) && e in EdgesOf(rels)
    ensures e in EdgesOf(ordered)
  {
    var i :| 0 <= i < |rels| && EdgesOf(rels)[i] == e;
    assert rels[i] in multiset(ordered);
    var j :| 0 <= j < |ordered| && ordered[j] == rels[i];
    assert EdgesOf(ordered)[j] == e;
  }

  predicate SeenBefore(r: AutoRelation, s: AutoRelation) {
    r.firstSeen < s.firstSeen
  }

  /** Oldest first; the library sort promises no order among equal times. */
  method SortByFirstSeen(rels: seq<AutoRelation>) returns (ordered: seq<AutoRelation>)
    ensures multiset(ordered) == multiset(rels)
    ensures forall i, j :: 0 <= i < j < |ordered| ==> ordered[i].firstSeen <= ordered[j].firstSeen
  {
    Sorting.StableSortCorrect(rels, SeenBefore);
    return Sorting.StableSort(rels, SeenBefore);
  }

  /** One turn of the loop: what union reports for the next relation. */
  lemma NextRelation(rels: seq<AutoRelation>, i: nat)
    requires i < |rels|
    ensures
      var (m, e) := (PartitionOf(EdgesOf(rels[..i])), EdgeOf(rels[i]));
      && PartitionOf(EdgesOf(rels[..i + 1])) == UnionOf(m, e.0, e.1)
      && CyclesIn(rels[..i + 1]) == CyclesIn(rels[..i]) +
           if Root(m, e.0) == Root(m, e.1) then [rels[i]] else []
  {
    var init, r := rels[..i], rels[i];
    assert rels[..i + 1] == init + [r] && (init + [r])[..i] == init;
    assert EdgesOf(init + [r]) == EdgesOf(init) + [EdgeOf(r)];
    assert (EdgesOf(init) + [EdgeOf(r)])[..i] == EdgesOf(init);
    RootsAreComponents(EdgesOf(init), EdgeOf(r).0, EdgeOf(r).1);
  }

  method FindCycles(rels: seq<AutoRelation>) returns (cycles: seq<AutoRelation>, ghost ordered: seq<AutoRelation>)
    ensures multiset(ordered) == multiset(rels)
    ensures forall i, j :: 0 <= i < j < |ordered| ==> ordered[i].firstSeen <= ordered[j].firstSeen
    ensures cycles == CyclesIn(ordered)
    ensures |cycles| == |rels| - |Nodes(EdgesOf(rels))| + |Components(EdgesOf(rels))|
  {
    var sorted := SortByFirstSeen(rels);
    ordered := sorted;
    var uf := new UnionFind();
    cycles := [];
    for i := 0 to |sorted|
      invariant uf.Valid() && fresh(uf)
      invariant uf.rep == PartitionOf(EdgesOf(sorted[..i]))
      invariant cycles == CyclesIn(sorted[..i])
    {
      NextRelation(sorted, i);
      var r := sorted[i];
      var closes := uf.Union(NodeKey(Doc, r.docId), NodeKey(User, r.userId));
      if closes {
        cycles := cycles + [r];
      }
    }
    assert sorted[..|sorted|] == sorted;
    CycleCount(rels);
    CycleCountIgnoresOrder(rels, sorted);
  }
}
