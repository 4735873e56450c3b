/** The union-find of relations_auto_graph.go: a parent map that find rewrites while it
    reads it, specified by the partition of the names it has seen. */
module UnionFinding {

  type Edge = (string, string)

  // ---- undirected connectivity: the meaning everything below is measured against ----

  predicate Adjacent(es: seq<Edge>, x: string, y: string) {
    (x, y) in es || (y, x) in es
  }

  predicate Hop(es: seq<Edge>, p: seq<string>, i: int)
    requires 1 <= i < |p|
  {
    Adjacent(es, p[i - 1], p[i])
  }

  ghost predicate IsPath(es: seq<Edge>, p: seq<string>) {
    |p| >= 1 && forall i :: 1 <= i < |p| ==> Hop(es, p, i)
  }

  ghost predicate Joins(es: seq<Edge>, p: seq<string>, x: string, y: string) {
    IsPath(es, p) && p[0] == x && p[|p| - 1] == y
  }

  ghost predicate Connected(es: seq<Edge>, x: string, y: string) {
    exists p :: Joins(es, p, x, y)
  }

  function Nodes(es: seq<Edge>): set<string> {
    (set e <- es :: e.0) + (set e <- es :: e.1)
  }

  ghost function Component(es: seq<Edge>, x: string): set<string> {
    set y <- Nodes(es) | Connected(es, x, y)
  }

  ghost function Components(es: seq<Edge>): set<set<string>> {
    set x <- Nodes(es) :: Component(es, x)
  }

  lemma ConnectedRefl(es: seq<Edge>, x: string)
    ensures Connected(es, x, x)
  {
    assert Joins(es, [x], x, x);
  }

  lemma ConnectedTrans(es: seq<Edge>, x: string, y: string, z: string)
    requires Connected(es, x, y) && Connected(es, y, z)
    ensures Connected(es, x, z)
  {
    var p :| Joins(es, p, x, y);
    var q :| Joins(es, q, y, z);
    var r := p + q[1..];
    forall i | 1 <= i < |r| ensures Hop(es, r, i) {
      if i < |p| {
        assert Hop(es, p, i);
      } else {
        assert Hop(es, q, i - |p| + 1);
      }
    }
    assert Joins(es, r, x, z);
  }

  lemma ConnectedSym(es: seq<Edge>, x: string, y: string)
    requires Connected(es, x, y)
    ensures Connected(es, y, x)
  {
    var p :| Joins(es, p, x, y);
    var q := seq(|p|, i requires 0 <= i < |p| => p[|p| - 1 - i]);
    forall i | 1 <= i < |q| ensures Hop(es, q, i) {
      assert Hop(es, p, |p| - i);
    }
    assert Joins(es, q, y, x);
  }

  lemma ConnectedMono(es: seq<Edge>, fs: seq<Edge>, x: string, y: string)
    requires Connected(es, x, y) && forall e :: e in es ==> e in fs
    ensures Connected(fs, x, y)
  {
    var p :| Joins(es, p, x, y);
    forall i | 1 <= i < |p| ensures Hop(fs, p, i) {
      assert Hop(es, p, i);
    }
    assert Joins(fs, p, x, y);
  }

  // ---- the partition as a map from each name to the root of its class ----

  type Partition = map<string, string>

  function Root(m: Partition, x: string): string {
    if x in m then m[x] else x
  }

  predicate RootIsFixed(m: Partition, x: string) {
    x in m ==> m[x] in m && m[m[x]] == m[x]
  }

  ghost predicate IsPartition(m: Partition) {
    forall x :: RootIsFixed(m, x)
  }

  function Touch(m: Partition, x: string): Partition {
    if x in m then m else m[x := x]
  }

  function Merge(m: Partition, ra: string, rb: string): Partition {
    map x <- m :: if m[x] == ra then rb else m[x]
  }

  /** What one call of union does to the partition. */
  function UnionOf(m: Partition, a: string, b: string): Partition {
    var t := Touch(Touch(m, a), b);
    Merge(t, Root(t, a), Root(t, b))
  }

  function PartitionOf(es: seq<Edge>): Partition {
    if es == [] then map[]
    else UnionOf(PartitionOf(es[..|es| - 1]), es[|es| - 1].0, es[|es| - 1].1)
  }

  lemma TouchShape(m: Partition, x: string)
    requires IsPartition(m)
    ensures IsPartition(Touch(m, x)) && Touch(m, x).Keys == m.Keys + {x}
  {
    forall y ensures RootIsFixed(Touch(m, x), y) { assert RootIsFixed(m, y); }
  }

  lemma MergeShape(m: Partition, ra: string, rb: string)
    requires IsPartition(m) && rb in m && m[rb] == rb
    ensures IsPartition(Merge(m, ra, rb)) && Merge(m, ra, rb).Keys == m.Keys
  {
    forall y ensures RootIsFixed(Merge(m, ra, rb), y) { assert RootIsFixed(m, y); }
  }

  lemma UnionShape(m: Partition, a: string, b: string)
    requires IsPartition(m)
    ensures IsPartition(UnionOf(m, a, b)) && UnionOf(m, a, b).Keys == m.Keys + {a, b}
  {
    var t := Touch(Touch(m, a), b);
    TouchShape(m, a);
    TouchShape(Touch(m, a), b);
    assert RootIsFixed(t, b);
    MergeShape(t, Root(t, a), Root(t, b));
  }

  lemma NodesSnoc(es: seq<Edge>, e: Edge)
    ensures Nodes(es + [e]) == Nodes(es) + {e.0, e.1}
  {
    forall x ensures x in Nodes(es + [e]) <==> x in Nodes(es) + {e.0, e.1} {
      forall f ensures f in es + [e] <==> f in es || f == e {}
    }
  }

  lemma {:induction false} PartitionShape(es: seq<Edge>)
    ensures IsPartition(PartitionOf(es))
    ensures PartitionOf(es).Keys == Nodes(es)
  {
    if es != [] {
      var init, e := es[..|es| - 1], es[|es| - 1];
      PartitionShape(init);
      assert es == init + [e];
      NodesSnoc(init, e);
      UnionShape(PartitionOf(init), e.0, e.1);
    }
  }

  lemma UnionRoots(m: Partition, a: string, b: string, x: string, y: string)
    requires IsPartition(m)
    ensures Root(UnionOf(m, a, b), x) == Root(UnionOf(m, a, b), y) <==>
              || Root(m, x) == Root(m, y)
              || (Root(m, x) == Root(m, a) && Root(m, y) == Root(m, b))
              || (Root(m, x) == Root(m, b) && Root(m, y) == Root(m, a))
  {
    assert RootIsFixed(m, x) && RootIsFixed(m, y) && RootIsFixed(m, a) && RootIsFixed(m, b);
  }

  /** find/union compute exactly the equivalence generated by the unioned pairs. */
  lemma {:induction false} RootsAreComponents(es: seq<Edge>, x: string, y: string)
    ensures Root(PartitionOf(es), x) == Root(PartitionOf(es), y) <==> Connected(es, x, y)
  {
    if Root(PartitionOf(es), x) == Root(PartitionOf(es), y) {
      SameRootConnected(es, x, y);
    }
    if Connected(es, x, y) {
      var p :| Joins(es, p, x, y);
      PathKeepsRoot(es, p);
    }
  }

  lemma {:induction false} SameRootConnected(es: seq<Edge>, x: string, y: string)
    requires Root(PartitionOf(es), x) == Root(PartitionOf(es), y)
    ensures Connected(es, x, y)
    decreases |es|
  {
    if es == [] {
      ConnectedRefl(es, x);
    } else {
      var init, e := es[..|es| - 1], es[|es| - 1];
      var m := PartitionOf(init);
      PartitionShape(init);
      UnionRoots(m, e.0, e.1, x, y);
      assert Joins(es, [e.0, e.1], e.0, e.1);
      if Root(m, x) == Root(m, y) {
        SameRootConnected(init, x, y);
        ConnectedMono(init, es, x, y);
      } else {
        ConnectedSym(es, e.0, e.1);
        var (u, v) := if Root(m, x) == Root(m, e.0) then e else (e.1, e.0);
        SameRootConnected(init, x, u);
        SameRootConnected(init, v, y);
        ConnectedMono(init, es, x, u);
        ConnectedMono(init, es, v, y);
        ConnectedTrans(es, x, u, v);
        ConnectedTrans(es, x, v, y);
      }
    }
  }

  lemma {:induction false} EdgeSameRoot(es: seq<Edge>, i: nat)
    requires i < |es|
    ensures Root(PartitionOf(es), es[i].0) == Root(PartitionOf(es), es[i].1)
  {
    var init, e := es[..|es| - 1], es[|es| - 1];
    PartitionShape(init);
    if i < |es| - 1 { EdgeSameRoot(init, i); }
    UnionRoots(PartitionOf(init), e.0, e.1, es[i].0, es[i].1);
  }

  lemma {:induction false} PathKeepsRoot(es: seq<Edge>, p: seq<string>)
    requires IsPath(es, p)
    ensures Root(PartitionOf(es), p[0]) == Root(PartitionOf(es), p[|p| - 1])
    decreases |p|
  {
    if |p| > 1 {
      var q := p[..|p| - 1];
      forall i | 1 <= i < |q| ensures Hop(es, q, i) {
        assert Hop(es, p, i);
      }
      PathKeepsRoot(es, q);
      var u, v := p[|p| - 2], p[|p| - 1];
      assert Hop(es, p, |p| - 1);
      var i :| 0 <= i < |es| && (es[i] == (u, v) || es[i] == (v, u));
      EdgeSameRoot(es, i);
    }
  }

  // ---- the class ----

  /** One name's entry: its link stays inside the class and climbs in rank up to the root. */
  ghost predicate LinkOk(parent: map<string, string>, rep: Partition, rank: map<string, nat>, x: string)
    requires parent.Keys == rep.Keys == rank.Keys
  {
    x in parent ==>
      && parent[x] in parent && rep[parent[x]] == rep[x] && rep[x] in parent
      && (parent[x] == x <==> rep[x] == x)
      && (parent[x] != x ==> rank[x] < rank[parent[x]])
      && (rep[x] != x ==> rank[x] < rank[rep[x]])
  }

  ghost predicate Represents(parent: map<string, string>, rep: Partition, rank: map<string, nat>) {
    && parent.Keys == rep.Keys == rank.Keys
    && IsPartition(rep)
    && forall x :: LinkOk(parent, rep, rank, x)
  }

  ghost predicate Below(rank: map<string, nat>, top: nat) {
    forall x <- rank :: rank[x] <= top
  }

  lemma RegisterRepresents(parent: map<string, string>, rep: Partition, rank: map<string, nat>, x: string)
    requires Represents(parent, rep, rank) && x !in parent
    ensures Represents(parent[x := x], rep[x := x], rank[x := 0])
  {
    TouchShape(rep, x);
    var parent', rep', rank' := parent[x := x], rep[x := x], rank[x := 0];
    forall y ensures LinkOk(parent', rep', rank', y) {
      assert LinkOk(parent, rep, rank, y);
    }
  }

  lemma CompressRepresents(parent: map<string, string>, rep: Partition, rank: map<string, nat>, x: string)
    requires Represents(parent, rep, rank) && x in parent
    ensures Represents(parent[x := rep[x]], rep, rank)
  {
    assert RootIsFixed(rep, x);
    var parent' := parent[x := rep[x]];
    forall y ensures LinkOk(parent', rep, rank, y) {
      assert LinkOk(parent, rep, rank, y);
    }
  }

  /** The ranks after linking root ra below root rb: rb's class is lifted above ra. */
  ghost function Lifted(rep: Partition, rank: map<string, nat>, ra: string, rb: string): map<string, nat>
    requires rep.Keys == rank.Keys && ra in rank
  {
    map x <- rank :: if rep[x] == rb then rank[x] + rank[ra] + 1 else rank[x]
  }

  lemma LinkRepresents(parent: map<string, string>, rep: Partition, rank: map<string, nat>, ra: string, rb: string)
    requires Represents(parent, rep, rank)
    requires ra in rep && rb in rep && rep[ra] == ra && rep[rb] == rb && ra != rb
    ensures Represents(parent[ra := rb], Merge(rep, ra, rb), Lifted(rep, rank, ra, rb))
  {
    MergeShape(rep, ra, rb);
    var parent', rep', rank' := parent[ra := rb], Merge(rep, ra, rb), Lifted(rep, rank, ra, rb);
    assert parent'.Keys == rep'.Keys == rank'.Keys;
    forall y ensures LinkOk(parent', rep', rank', y) {
      assert LinkOk(parent, rep, rank, y);
    }
  }

  lemma LiftedBelow(rep: Partition, rank: map<string, nat>, ra: string, rb: string, top: nat)
    requires rep.Keys == rank.Keys && ra in rank && Below(rank, top)
    ensures Below(Lifted(rep, rank, ra, rb), top + rank[ra] + 1)
  {
  }

  /** The partition between the two finds of a union and the linking of their roots. */
  lemma AfterFinds(m: Partition, a: string, b: string)
    requires IsPartition(m)
    ensures
      var t := Touch(Touch(m, a), b);
      && a in t && b in t && t[a] == Root(m, a) && t[b] == Root(m, b)
      && t[a] in t && t[b] in t && t[t[a]] == t[a] && t[t[b]] == t[b]
      && a in Touch(m, a) && Touch(m, a)[a] == t[a]
      && UnionOf(m, a, b) == Merge(t, t[a], t[b])
      && (t[a] == t[b] ==> UnionOf(m, a, b) == t)
  {
    var t := Touch(Touch(m, a), b);
    TouchShape(m, a);
    TouchShape(Touch(m, a), b);
    assert RootIsFixed(t, a) && RootIsFixed(t, b) && RootIsFixed(m, a) && RootIsFixed(m, b);
  }

  class UnionFind {
    var parent: map<string, string>
    ghost var rep: Partition            // the root each name leads to
    ghost var rank: map<string, nat>    // grows along parent links: why find terminates
    ghost var top: nat

    ghost predicate Valid()
      reads this
    {
      Represents(parent, rep, rank) && Below(rank, top)
    }

    constructor ()
      ensures Valid() && rep == map[]
    {
      parent, rep, rank, top := map[], map[], map[], 0;
    }

    /** Registers an unseen name as its own root; otherwise compresses the path it walked. */
    method Find(x: string) returns (r: string)
      requires Valid()
      modifies this
      ensures Valid()
      ensures rep == Touch(old(rep), x) && r == rep[x]
      ensures x in old(parent) ==> rank == old(rank) && top == old(top)
      decreases if x in parent then top - rank[x] else 0
    {
      if x !in parent {
        RegisterRepresents(parent, rep, rank, x);
        parent := parent[x := x];
        rep, rank := rep[x := x], rank[x := 0];
        return x;
      }
      assert LinkOk(parent, rep, rank, x);
      if parent[x] != x {
        var root := Find(parent[x]);
        CompressRepresents(parent, rep, rank, x);
        parent := parent[x := root];
      }
      return parent[x];
    }

    /** Returns true iff a and b were already in one class; otherwise links the roots. */
    method Union(a: string, b: string) returns (formedCycle: bool)
      requires Valid()
      modifies this
      ensures Valid()
      ensures formedCycle <==> Root(old(rep), a) == Root(old(rep), b)
      ensures rep == UnionOf(old(rep), a, b)
    {
      AfterFinds(rep, a, b);
      hide Represents, Below, Merge, UnionOf, Touch, Root, IsPartition;
      var ra := Find(a);
      var rb := Find(b);
      if ra == rb {
        return true;
      }
      Link(ra, rb);
      return false;
    }

    /** Hangs one root below the other. */
    method Link(ra: string, rb: string)
      requires Valid() && ra in rep && rb in rep && rep[ra] == ra && rep[rb] == rb && ra != rb
      modifies this
      ensures Valid() && rep == Merge(old(rep), ra, rb)
    {
      LinkRepresents(parent, rep, rank, ra, rb);
      LiftedBelow(rep, rank, ra, rb, top);
      hide LinkOk, IsPartition, Below, Merge, Lifted;
      parent := parent[ra := rb];
      top := top + rank[ra] + 1;
      rank, rep := Lifted(rep, rank, ra, rb), Merge(rep, ra, rb);
    }
  }
}
