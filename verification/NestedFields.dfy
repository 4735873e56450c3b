/** Dotted field paths of nested_fields.go and the update operations of ops_update.go. */
module NestedFields {
  import opened JsonValues
  import opened Text
  import Sorting = StableSorting

  // ---- paths: split at the first dot ----

  function DotAt(path: string): (i: nat)
    ensures i <= |path| && (i < |path| ==> path[i] == '.')
    ensures forall j :: 0 <= j < i ==> path[j] != '.'
  {
    if path == "" || path[0] == '.' then 0 else 1 + DotAt(path[1..])
  }

  function Head(path: string): string {
    path[..DotAt(path)]
  }

  predicate HasTail(path: string) {
    DotAt(path) < |path|
  }

  function Tail(path: string): string
    requires HasTail(path)
    ensures |Tail(path)| < |path|
  {
    path[DotAt(path) + 1..]
  }

  /** q is p itself or lies below it. */
  predicate Under(p: string, q: string) {
    p == q || HasPrefix(q, p + ".")
  }

  predicate Incomparable(p: string, q: string) {
    !Under(p, q) && !Under(q, p)
  }

  lemma DotUnique(path: string, i: nat)
    requires i <= |path| && (forall j :: 0 <= j < i ==> path[j] != '.') && (i < |path| ==> path[i] == '.')
    ensures DotAt(path) == i
  {
  }

  lemma PathParts(p: string)
    ensures p == Head(p) + if HasTail(p) then "." + Tail(p) else ""
  {
  }

  lemma UnderStep(p: string, q: string)
    requires Under(p, q) && p != q
    ensures Head(p) == Head(q) && HasTail(q) && (HasTail(p) ==> Under(Tail(p), Tail(q)))
  {
    var i := DotAt(p);
    assert q[..|p| + 1] == p + ".";
    assert forall j :: 0 <= j <= |p| ==> q[j] == (p + ".")[j];
    DotUnique(q, i);
    if HasTail(p) {
      assert (p + ".")[i + 1..] == Tail(p) + ".";
      assert Tail(q)[..|Tail(p)| + 1] == Tail(p) + ".";
    }
  }

  lemma UnderBack(p: string, q: string)
    requires Head(p) == Head(q) && (HasTail(p) ==> HasTail(q) && Under(Tail(p), Tail(q)))
    ensures Under(p, q)
  {
    PathParts(p);
    PathParts(q);
    if HasTail(p) && Tail(p) != Tail(q) {
      assert Tail(q)[..|Tail(p)| + 1] == Tail(p) + ".";
      assert q[..|p| + 1] == p + ".";
    } else if HasTail(q) {
      assert p == q || q[..|p| + 1] == p + ".";
    }
  }

  /** Lying below, one path component at a time. */
  lemma UnderByHeads(p: string, q: string)
    ensures Under(p, q) <==> Head(p) == Head(q) && (HasTail(p) ==> HasTail(q) && Under(Tail(p), Tail(q)))
  {
    if Under(p, q) && p != q { UnderStep(p, q); }
    if Head(p) == Head(q) && (HasTail(p) ==> HasTail(q) && Under(Tail(p), Tail(q))) { UnderBack(p, q); }
  }

  // ---- reading and writing ----

  function SubOf(data: Data, head: string): Data {
    if head in data && data[head].Obj? then data[head].fields else map[]
  }

  /** A missing field reads as null, like a null one. */
  function GetNested(data: Data, path: string): Json
    decreases |path|
  {
    var head := Head(path);
    if head !in data then Null
    else if !HasTail(path) then data[head]
    else if !data[head].Obj? then Null
    else GetNested(data[head].fields, Tail(path))
  }

  /** A missing or non-object step on the way is replaced by a fresh object. */
  function SetNested(data: Data, path: string, value: Json): Data
    decreases |path|
  {
    var head := Head(path);
    if !HasTail(path) then data[head := value]
    else
      data[head := Obj(SetNested(SubOf(data, head), Tail(path), value))]
  }

  lemma {:induction false} PutGet(data: Data, p: string, v: Json)
    ensures GetNested(SetNested(data, p, v), p) == v
    decreases |p|
  {
    if HasTail(p) {
      PutGet(SubOf(data, Head(p)), Tail(p), v);
    }
  }

  lemma SetTwice(data: Data, head: string, v: Json, w: Json)
    ensures data[head := v][head := w] == data[head := w]
  {
  }

  lemma {:induction false} PutPut(data: Data, p: string, v: Json, w: Json)
    ensures SetNested(SetNested(data, p, v), p, w) == SetNested(data, p, w)
    decreases |p|
  {
    var head := Head(p);
    if HasTail(p) {
      var sub := SubOf(data, head);
      var inner := SetNested(sub, Tail(p), v);
      PutPut(sub, Tail(p), v, w);
      assert SubOf(data[head := Obj(inner)], head) == inner;
      SetTwice(data, head, Obj(inner), Obj(SetNested(inner, Tail(p), w)));
    } else {
      SetTwice(data, head, v, w);
    }
  }

  /** Is every step of the path there, as an object, down to the last? */
  predicate Present(data: Data, path: string)
    decreases |path|
  {
    var head := Head(path);
    head in data && (HasTail(path) ==> data[head].Obj? && Present(data[head].fields, Tail(path)))
  }

  /** Writing back what was read changes nothing exactly when the path was there. */
  lemma {:induction false} GetPut(data: Data, p: string)
    ensures SetNested(data, p, GetNested(data, p)) == data <==> Present(data, p)
    decreases |p|
  {
    var head := Head(p);
    if HasTail(p) && head in data && data[head].Obj? {
      GetPut(data[head].fields, Tail(p));
      var updated := SetNested(data, p, GetNested(data, p));
      assert updated[head] == Obj(SetNested(data[head].fields, Tail(p), GetNested(data[head].fields, Tail(p))));
      assert updated == data <==> updated[head] == data[head];
    } else {
      assert head in SetNested(data, p, GetNested(data, p));
    }
  }

  /** Frame law: writing at one path leaves what an incomparable path reads. */
  lemma {:induction false} Frame(data: Data, p: string, v: Json, q: string)
    requires Incomparable(p, q)
    ensures GetNested(SetNested(data, p, v), q) == GetNested(data, q)
    decreases |p|
  {
    UnderByHeads(p, q);
    UnderByHeads(q, p);
    if Head(p) == Head(q) {
      var sub := SubOf(data, Head(p));
      Frame(sub, Tail(p), v, Tail(q));
      assert GetNested(map[], Tail(q)) == Null;
    }
  }

  lemma SetBoth(data: Data, h1: string, v: Json, h2: string, w: Json)
    requires h1 != h2
    ensures data[h1 := v][h2 := w] == data[h2 := w][h1 := v]
    ensures SubOf(data[h1 := v], h2) == SubOf(data, h2)
  {
  }

  /** Writes at incomparable paths commute. */
  lemma {:induction false} Commute(data: Data, p: string, v: Json, q: string, w: Json)
    requires Incomparable(p, q)
    ensures SetNested(SetNested(data, p, v), q, w) == SetNested(SetNested(data, q, w), p, v)
    decreases |p|
  {
    UnderByHeads(p, q);
    UnderByHeads(q, p);
    var h := Head(p);
    if h == Head(q) {
      var sub := SubOf(data, h);
      Commute(sub, Tail(p), v, Tail(q), w);
      var mv, mw := SetNested(sub, Tail(p), v), SetNested(sub, Tail(q), w);
      SetTwice(data, h, Obj(mv), Obj(SetNested(mv, Tail(q), w)));
      SetTwice(data, h, Obj(mw), Obj(SetNested(mw, Tail(p), v)));
    } else {
      var nv := if HasTail(p) then Obj(SetNested(SubOf(data, h), Tail(p), v)) else v;
      var nw := if HasTail(q) then Obj(SetNested(SubOf(data, Head(q)), Tail(q), w)) else w;
      SetBoth(data, h, nv, Head(q), nw);
      SetBoth(data, Head(q), nw, h, nv);
    }
  }

  /** And only those do: for comparable paths some document and values depend on the order. */
  lemma CommuteOnlyIncomparable(p: string, q: string)
    ensures Incomparable(p, q) <==>
              forall data, v, w :: SetNested(SetNested(data, p, v), q, w) == SetNested(SetNested(data, q, w), p, v)
  {
    if Incomparable(p, q) {
      forall data, v, w ensures SetNested(SetNested(data, p, v), q, w) == SetNested(SetNested(data, q, w), p, v) {
        Commute(data, p, v, q, w);
      }
    } else {
      var v, w := Bool(true), Bool(false);
      if Under(p, q) {
        OrderShows(p, v, q, w);
      } else {
        OrderShows(q, w, p, v);
      }
      var empty: Data := map[];
      assert SetNested(SetNested(empty, p, v), q, w) != SetNested(SetNested(empty, q, w), p, v);
    }
  }

  /** Writing a scalar at p erases what lies below; writing below turns it into an object again. */
  lemma OrderShows(p: string, v: Json, q: string, w: Json)
    requires Under(p, q) && v != w && !v.Obj? && !w.Obj?
    ensures SetNested(SetNested(map[], p, v), q, w) != SetNested(SetNested(map[], q, w), p, v)
  {
    PutGet(SetNested(map[], q, w), p, v);
    PutGet(SetNested(map[], p, v), q, w);
    if p != q {
      ReadAbove(SetNested(map[], p, v), p, q, w);
    }
  }

  lemma {:induction false} ReadAbove(data: Data, p: string, q: string, w: Json)
    requires Under(p, q) && p != q
    ensures GetNested(SetNested(data, q, w), p).Obj?
    decreases |p|
  {
    UnderByHeads(p, q);
    UnderByHeads(q, p);
    if HasTail(p) {
      assert Tail(p) != Tail(q) by {
        assert p == Head(p) + "." + Tail(p) && q == Head(q) + "." + Tail(q);
      }
      ReadAbove(SubOf(data, Head(p)), Tail(p), Tail(q), w);
    } else {
      assert HasTail(q);
    }
  }

  // ---- one update operation at one path ----

  /** The rewrites UPDATE offers, each of the value found at its path. */
  datatype Change = SetTo(value: Json) | Inc(amount: real) | Dec(amount: real) | Push(item: Json) | Pull(item: Json)

  /** Number and text of a value, as the host language converts them. */
  datatype Conversions = Conversions(toF64: Json -> real, sprint: Json -> string)

  function ItemsOf(v: Json): seq<Json> {
    if v.Arr? then v.items else []
  }

  function Without(conv: Conversions, items: seq<Json>, item: Json): seq<Json> {
    if items == [] then []
    else (if conv.sprint(items[0]) != conv.sprint(item) then [items[0]] else []) + Without(conv, items[1..], item)
  }

  function Rewrite(conv: Conversions, change: Change, v: Json): Json {
    match change
    case SetTo(value) => value
    case Inc(amount) => Num(conv.toF64(v) + amount)
    case Dec(amount) => Num(conv.toF64(v) - amount)
    case Push(item) => Arr(ItemsOf(v) + [item])
    case Pull(item) => Arr(Without(conv, ItemsOf(v), item))
  }

  function Apply(conv: Conversions, data: Data, path: string, change: Change): Data {
    SetNested(data, path, Rewrite(conv, change, GetNested(data, path)))
  }

  lemma ApplyCommute(conv: Conversions, data: Data, p: string, c: Change, q: string, d: Change)
    requires Incomparable(p, q)
    ensures Apply(conv, Apply(conv, data, p, c), q, d) == Apply(conv, Apply(conv, data, q, d), p, c)
  {
    Frame(data, p, Rewrite(conv, c, GetNested(data, p)), q);
    Frame(data, q, Rewrite(conv, d, GetNested(data, q)), p);
    Commute(data, p, Rewrite(conv, c, GetNested(data, p)), q, Rewrite(conv, d, GetNested(data, q)));
  }

  // ---- a whole map of operations, in any order ----

  ghost predicate PairwiseIncomparable(paths: set<string>) {
    forall p, q :: p in paths && q in paths && p != q ==> Incomparable(p, q)
  }

  /** The operations applied in the order listed. */
  function ApplyAll(conv: Conversions, data: Data, changes: map<string, Change>, order: seq<string>): Data
    requires forall p :: p in order ==> p in changes
    decreases |order|
  {
    if order == [] then data
    else ApplyAll(conv, Apply(conv, data, order[0], changes[order[0]]), changes, order[1..])
  }

  predicate Repeats(order: seq<string>) {
    exists i, j :: 0 <= i < j < |order| && order[i] == order[j]
  }

  lemma WithoutOne(s: seq<string>, i: nat)
    requires i < |s| && !Repeats(s)
    ensures !Repeats(s[..i] + s[i + 1..])
    ensures forall p :: p in s[..i] + s[i + 1..] <==> p in s && p != s[i]
  {
    var rest := s[..i] + s[i + 1..];
    forall p ensures p in rest <==> p in s && p != s[i] {
      if p in s && p != s[i] {
        var k :| 0 <= k < |s| && s[k] == p;
        assert rest[if k < i then k else k - 1] == p;
      }
    }
  }

  /** An operation anywhere in the order may as well go first. */
  lemma {:induction false} BringForward(conv: Conversions, data: Data, changes: map<string, Change>, order: seq<string>, i: nat)
    requires i < |order| && PairwiseIncomparable(changes.Keys)
    requires forall p :: p in order ==> p in changes
    requires !Repeats(order)
    ensures ApplyAll(conv, data, changes, order) ==
            ApplyAll(conv, Apply(conv, data, order[i], changes[order[i]]), changes, order[..i] + order[i + 1..])
    decreases i
  {
    var x, rest := order[i], order[..i] + order[i + 1..];
    if i == 0 {
      assert rest == order[1..];
    } else {
      var y := order[0];
      var moved := Apply(conv, data, y, changes[y]);
      BringForward(conv, moved, changes, order[1..], i - 1);
      assert order[1..][..i - 1] + order[1..][i..] == rest[1..] && rest[0] == y;
      ApplyCommute(conv, data, y, changes[y], x, changes[x]);
    }
  }

  /** Whatever order the map is walked in, pairwise incomparable paths give one document. */
  lemma {:induction false} OrderIrrelevant(conv: Conversions, data: Data, changes: map<string, Change>,
                                           a: seq<string>, b: seq<string>)
    requires PairwiseIncomparable(changes.Keys)
    requires forall p :: p in a ==> p in changes
    requires forall p :: p in a <==> p in b
    requires !Repeats(a) && !Repeats(b)
    ensures ApplyAll(conv, data, changes, a) == ApplyAll(conv, data, changes, b)
    decreases |a|
  {
    if |a| + |b| > 0 {
      var w := (a + b)[0];
      assert w in a && w in b;
      var x := a[0];
      assert x in b;
      var i :| 0 <= i < |b| && b[i] == x;
      BringForward(conv, data, changes, b, i);
      WithoutOne(a, 0);
      WithoutOne(b, i);
      var rest := b[..i] + b[i + 1..];
      assert a[..0] + a[1..] == a[1..];
      forall p ensures p in a[1..] <==> p in rest {
        assert p in a[..0] + a[1..] <==> p in a && p != x;
      }
      OrderIrrelevant(conv, Apply(conv, data, x, changes[x]), changes, a[1..], rest);
    }
  }

  // ---- applyUpdateOp: five maps, each walked in an order the host language picks ----

  datatype UpdateOp = UpdateOp(sets: map<string, Json>, incs: map<string, real>, decs: map<string, real>,
                               pushes: map<string, Json>, pulls: map<string, Json>)

  function Stages(op: UpdateOp): seq<map<string, Change>> {
    [map k <- op.sets :: SetTo(op.sets[k]), map k <- op.incs :: Inc(op.incs[k]), map k <- op.decs :: Dec(op.decs[k]),
     map k <- op.pushes :: Push(op.pushes[k]), map k <- op.pulls :: Pull(op.pulls[k])]
  }

  ghost predicate Enumerates(order: seq<string>, paths: set<string>) {
    !Repeats(order) && forall p :: p in order <==> p in paths
  }

  /** One map applied in some order. */
  ghost predicate StageResult(conv: Conversions, before: Data, changes: map<string, Change>, after: Data) {
    exists order :: Enumerates(order, changes.Keys) && after == ApplyAll(conv, before, changes, order)
  }

  ghost predicate StagesResult(conv: Conversions, before: Data, stages: seq<map<string, Change>>, after: Data)
    decreases |stages|
  {
    if stages == [] then after == before
    else exists mid :: StageResult(conv, before, stages[0], mid) && StagesResult(conv, mid, stages[1..], after)
  }

  /** If the paths within each map are pairwise incomparable, the update has one outcome. */
  lemma {:induction false} UpdateDeterministic(conv: Conversions, before: Data, stages: seq<map<string, Change>>,
                                               x: Data, y: Data)
    requires forall m :: m in stages ==> PairwiseIncomparable(m.Keys)
    requires StagesResult(conv, before, stages, x) && StagesResult(conv, before, stages, y)
    ensures x == y
    decreases |stages|
  {
    if stages != [] {
      var changes := stages[0];
      var mx :| StageResult(conv, before, changes, mx) && StagesResult(conv, mx, stages[1..], x);
      var my :| StageResult(conv, before, changes, my) && StagesResult(conv, my, stages[1..], y);
      var a :| Enumerates(a, changes.Keys) && mx == ApplyAll(conv, before, changes, a);
      var b :| Enumerates(b, changes.Keys) && my == ApplyAll(conv, before, changes, b);
      OrderIrrelevant(conv, before, changes, a, b);
      UpdateDeterministic(conv, mx, stages[1..], x, y);
    }
  }

  lemma {:induction false} ApplyLast(conv: Conversions, data: Data, changes: map<string, Change>, order: seq<string>, p: string)
    requires p in changes && forall q :: q in order ==> q in changes
    ensures ApplyAll(conv, data, changes, order + [p]) ==
            Apply(conv, ApplyAll(conv, data, changes, order), p, changes[p])
    decreases |order|
  {
    if order != [] {
      ApplyLast(conv, Apply(conv, data, order[0], changes[order[0]]), changes, order[1..], p);
      assert (order + [p])[1..] == order[1..] + [p];
    }
  }

  lemma {:induction false} StageLast(conv: Conversions, before: Data, stages: seq<map<string, Change>>, mid: Data,
                                     changes: map<string, Change>, after: Data)
    requires StagesResult(conv, before, stages, mid) && StageResult(conv, mid, changes, after)
    ensures StagesResult(conv, before, stages + [changes], after)
    decreases |stages|
  {
    hide StageResult;
    var all := stages + [changes];
    if stages == [] {
      assert all[1..] == [] && StagesResult(conv, after, [], after);
    } else {
      var first :| StageResult(conv, before, stages[0], first) && StagesResult(conv, first, stages[1..], mid);
      StageLast(conv, first, stages[1..], mid, changes, after);
      assert all[1..] == stages[1..] + [changes];
    }
  }

  // ---- what an update leaves at one path ----

  /** Every other path of the operation lies neither above nor below p. */
  ghost predicate Apart(op: UpdateOp, p: string) {
    forall q :: q in op.sets.Keys + op.incs.Keys + op.decs.Keys + op.pushes.Keys + op.pulls.Keys && q != p ==> Incomparable(p, q)
  }

  ghost predicate ApartFrom(paths: set<string>, p: string) {
    forall q :: q in paths && q != p ==> Incomparable(p, q)
  }

  lemma {:induction false} ApplyAllReads(conv: Conversions, data: Data, changes: map<string, Change>, order: seq<string>, p: string)
    requires (forall q :: q in order ==> q in changes) && !Repeats(order) && ApartFrom(changes.Keys, p)
    ensures GetNested(ApplyAll(conv, data, changes, order), p) ==
            if p in order then Rewrite(conv, changes[p], GetNested(data, p)) else GetNested(data, p)
    decreases |order|
  {
    hide Rewrite, GetNested, SetNested, Incomparable;
    if order != [] {
      var q, rest := order[0], order[1..];
      var v := Rewrite(conv, changes[q], GetNested(data, q));
      ApplyAllReads(conv, SetNested(data, q, v), changes, rest, p);
      if q == p {
        PutGet(data, p, v);
        assert p !in rest;
      } else {
        Symmetric(p, q);
        Frame(data, q, v, p);
      }
    }
  }

  lemma Symmetric(p: string, q: string)
    requires Incomparable(p, q)
    ensures Incomparable(q, p)
  {
  }

  lemma StageReads(conv: Conversions, before: Data, changes: map<string, Change>, after: Data, p: string)
    requires StageResult(conv, before, changes, after) && ApartFrom(changes.Keys, p)
    ensures GetNested(after, p) == if p in changes then Rewrite(conv, changes[p], GetNested(before, p)) else GetNested(before, p)
  {
    hide Rewrite, GetNested;
    var order :| Enumerates(order, changes.Keys) && after == ApplyAll(conv, before, changes, order);
    ApplyAllReads(conv, before, changes, order, p);
  }

  /** The stages one after the other. */
  function RewriteAll(conv: Conversions, stages: seq<map<string, Change>>, p: string, v: Json): Json
    decreases |stages|
  {
    if stages == [] then v
    else RewriteAll(conv, stages[1..], p, if p in stages[0] then Rewrite(conv, stages[0][p], v) else v)
  }

  lemma {:induction false} StagesRead(conv: Conversions, before: Data, stages: seq<map<string, Change>>, after: Data, p: string)
    requires StagesResult(conv, before, stages, after) && forall m :: m in stages ==> ApartFrom(m.Keys, p)
    ensures GetNested(after, p) == RewriteAll(conv, stages, p, GetNested(before, p))
    decreases |stages|
  {
    hide Rewrite, GetNested, StageResult, ApartFrom;
    if stages != [] {
      var mid :| StageResult(conv, before, stages[0], mid) && StagesResult(conv, mid, stages[1..], after);
      StageReads(conv, before, stages[0], mid, p);
      StagesRead(conv, mid, stages[1..], after, p);
    }
  }

  function OtherText(conv: Conversions, item: Json): Json -> bool {
    x => conv.sprint(x) != conv.sprint(item)
  }

  lemma {:induction false} WithoutSelects(conv: Conversions, items: seq<Json>, item: Json)
    ensures Without(conv, items, item) == Sorting.Select(items, OtherText(conv, item))
  {
    if items != [] {
      WithoutSelects(conv, items[1..], item);
    }
  }

  /** SET, then INC, DEC, PUSH and PULL, each where the operation has the path. */
  lemma UpdateReads(conv: Conversions, before: Data, op: UpdateOp, after: Data, p: string)
    requires StagesResult(conv, before, Stages(op), after) && Apart(op, p)
    ensures
      var v0 := GetNested(before, p);
      var v1 := if p in op.sets then op.sets[p] else v0;
      var v2 := if p in op.incs then Num(conv.toF64(v1) + op.incs[p]) else v1;
      var v3 := if p in op.decs then Num(conv.toF64(v2) - op.decs[p]) else v2;
      var v4 := if p in op.pushes then Arr((if v3.Arr? then v3.items else []) + [op.pushes[p]]) else v3;
      GetNested(after, p) == if p in op.pulls then
        Arr(Sorting.Select(if v4.Arr? then v4.items else [], OtherText(conv, op.pulls[p])))
      else v4
  {
    hide GetNested, StagesResult, Apart, Stages, RewriteAll, OtherText, Sorting.Select;
    StagesApart(op, p);
    StagesRead(conv, before, Stages(op), after, p);
    FiveStages(conv, op, p, GetNested(before, p));
  }

  lemma StagesApart(op: UpdateOp, p: string)
    requires Apart(op, p)
    ensures forall m :: m in Stages(op) ==> ApartFrom(m.Keys, p)
  {
    hide Incomparable;
  }

  lemma FiveStages(conv: Conversions, op: UpdateOp, p: string, v0: Json)
    ensures
      var v1 := if p in op.sets then op.sets[p] else v0;
      var v2 := if p in op.incs then Num(conv.toF64(v1) + op.incs[p]) else v1;
      var v3 := if p in op.decs then Num(conv.toF64(v2) - op.decs[p]) else v2;
      var v4 := if p in op.pushes then Arr((if v3.Arr? then v3.items else []) + [op.pushes[p]]) else v3;
      RewriteAll(conv, Stages(op), p, v0) == if p in op.pulls then
        Arr(Sorting.Select(if v4.Arr? then v4.items else [], OtherText(conv, op.pulls[p])))
      else v4
  {
    var v1 := if p in op.sets then op.sets[p] else v0;
    var v2 := if p in op.incs then Num(conv.toF64(v1) + op.incs[p]) else v1;
    var v3 := if p in op.decs then Num(conv.toF64(v2) - op.decs[p]) else v2;
    var v4 := if p in op.pushes then Arr((if v3.Arr? then v3.items else []) + [op.pushes[p]]) else v3;
    FirstStages(conv, op, p, v0, v1, v2, v3);
    LastStages(conv, op, p, v3, v4);
    hide Rewrite, Stages, OtherText, RewriteAll;
  }

  lemma FirstStages(conv: Conversions, op: UpdateOp, p: string, v0: Json, v1: Json, v2: Json, v3: Json)
    requires v1 == if p in op.sets then op.sets[p] else v0
    requires v2 == if p in op.incs then Num(conv.toF64(v1) + op.incs[p]) else v1
    requires v3 == if p in op.decs then Num(conv.toF64(v2) - op.decs[p]) else v2
    ensures |Stages(op)| == 5 && RewriteAll(conv, Stages(op), p, v0) == RewriteAll(conv, Stages(op)[3..], p, v3)
  {
    var all := Stages(op);
    StageShapes(conv, op, p);
    RewriteShapes(conv, v0, v1, v2, v3, v3, op, p);
    hide Rewrite, Stages, OtherText;
    StageStep(conv, all, 0, p, v0, v1);
    StageStep(conv, all, 1, p, v1, v2);
    StageStep(conv, all, 2, p, v2, v3);
    assert all[0..] == all;
  }

  lemma LastStages(conv: Conversions, op: UpdateOp, p: string, v3: Json, v4: Json)
    requires v4 == if p in op.pushes then Arr((if v3.Arr? then v3.items else []) + [op.pushes[p]]) else v3
    ensures |Stages(op)| == 5
    ensures RewriteAll(conv, Stages(op)[3..], p, v3) ==
              if p in op.pulls then Arr(Sorting.Select(if v4.Arr? then v4.items else [], OtherText(conv, op.pulls[p]))) else v4
  {
    var v5 := if p in op.pulls then Arr(Sorting.Select(ItemsOf(v4), OtherText(conv, op.pulls[p]))) else v4;
    var all := Stages(op);
    StageShapes(conv, op, p);
    RewriteShapes(conv, v3, v3, v3, v3, v4, op, p);
    hide Rewrite, Stages, OtherText;
    StageStep(conv, all, 3, p, v3, v4);
    StageStep(conv, all, 4, p, v4, v5);
    assert all[5..] == [];
  }

  lemma StageShapes(conv: Conversions, op: UpdateOp, p: string)
    ensures |Stages(op)| == 5
    ensures (p in Stages(op)[0] <==> p in op.sets) && (p in op.sets ==> Stages(op)[0][p] == SetTo(op.sets[p]))
    ensures (p in Stages(op)[1] <==> p in op.incs) && (p in op.incs ==> Stages(op)[1][p] == Inc(op.incs[p]))
    ensures (p in Stages(op)[2] <==> p in op.decs) && (p in op.decs ==> Stages(op)[2][p] == Dec(op.decs[p]))
    ensures (p in Stages(op)[3] <==> p in op.pushes) && (p in op.pushes ==> Stages(op)[3][p] == Push(op.pushes[p]))
    ensures (p in Stages(op)[4] <==> p in op.pulls) && (p in op.pulls ==> Stages(op)[4][p] == Pull(op.pulls[p]))
  {
  }

  lemma RewriteShapes(conv: Conversions, v0: Json, v1: Json, v2: Json, v3: Json, v4: Json, op: UpdateOp, p: string)
    ensures p in op.sets ==> Rewrite(conv, SetTo(op.sets[p]), v0) == op.sets[p]
    ensures p in op.incs ==> Rewrite(conv, Inc(op.incs[p]), v1) == Num(conv.toF64(v1) + op.incs[p])
    ensures p in op.decs ==> Rewrite(conv, Dec(op.decs[p]), v2) == Num(conv.toF64(v2) - op.decs[p])
    ensures p in op.pushes ==> Rewrite(conv, Push(op.pushes[p]), v3) == Arr((if v3.Arr? then v3.items else []) + [op.pushes[p]])
    ensures p in op.pulls ==> Rewrite(conv, Pull(op.pulls[p]), v4) == Arr(Sorting.Select(ItemsOf(v4), OtherText(conv, op.pulls[p])))
  {
    if p in op.pulls { WithoutSelects(conv, ItemsOf(v4), op.pulls[p]); }
  }

  lemma StageStep(conv: Conversions, stages: seq<map<string, Change>>, i: nat, p: string, v: Json, w: Json)
    requires i < |stages| && w == if p in stages[i] then Rewrite(conv, stages[i][p], v) else v
    ensures RewriteAll(conv, stages[i..], p, v) == RewriteAll(conv, stages[i + 1..], p, w)
  {
    assert stages[i..][0] == stages[i] && stages[i..][1..] == stages[i + 1..];
  }

  lemma NoStages(conv: Conversions, data: Data, stages: seq<map<string, Change>>)
    ensures StagesResult(conv, data, stages[..0], data) && StagesResult(conv, data, [], data)
  {
  }

  class Document {
    var data: Data

    constructor (data: Data)
      ensures this.data == data
    {
      this.data := data;
    }

    method ApplyStage(conv: Conversions, changes: map<string, Change>)
      modifies this
      ensures StageResult(conv, old(data), changes, data)
    {
      var todo := changes.Keys;
      ghost var order: seq<string> := [];
      while todo != {}
        invariant todo <= changes.Keys && Enumerates(order, changes.Keys - todo)
        invariant data == ApplyAll(conv, old(data), changes, order)
      {
        var p :| p in todo;
        ApplyLast(conv, old(data), changes, order, p);
        data := Apply(conv, data, p, changes[p]);
        todo := todo - {p};
        order := order + [p];
      }
    }

    method ApplyUpdateOp(conv: Conversions, op: UpdateOp)
      modifies this
      ensures StagesResult(conv, old(data), Stages(op), data)
      // at a path apart from the others: SET, then INC, DEC, PUSH and PULL, and untouched if in none of them
      ensures forall p :: Apart(op, p) ==> (
        var v0 := GetNested(old(data), p);
        var v1 := if p in op.sets then op.sets[p] else v0;
        var v2 := if p in op.incs then Num(conv.toF64(v1) + op.incs[p]) else v1;
        var v3 := if p in op.decs then Num(conv.toF64(v2) - op.decs[p]) else v2;
        var v4 := if p in op.pushes then Arr((if v3.Arr? then v3.items else []) + [op.pushes[p]]) else v3;
        GetNested(data, p) == if p in op.pulls then
          Arr(Sorting.Select(if v4.Arr? then v4.items else [], OtherText(conv, op.pulls[p])))
        else v4)
    {
      hide GetNested, Apart;
      var stages := Stages(op);
      NoStages(conv, data, stages);
      hide StagesResult, StageResult, Stages;
      for i := 0 to |stages|
        invariant StagesResult(conv, old(data), stages[..i], data)
      {
        ghost var before := data;
        ApplyStage(conv, stages[i]);
        StageLast(conv, old(data), stages[..i], before, stages[i], data);
        assert stages[..i + 1] == stages[..i] + [stages[i]];
      }
      assert stages[..|stages|] == stages;
      forall p | Apart(op, p) ensures (
        var v0 := GetNested(old(data), p);
        var v1 := if p in op.sets then op.sets[p] else v0;
        var v2 := if p in op.incs then Num(conv.toF64(v1) + op.incs[p]) else v1;
        var v3 := if p in op.decs then Num(conv.toF64(v2) - op.decs[p]) else v2;
        var v4 := if p in op.pushes then Arr((if v3.Arr? then v3.items else []) + [op.pushes[p]]) else v3;
        GetNested(data, p) == if p in op.pulls then
          Arr(Sorting.Select(if v4.Arr? then v4.items else [], OtherText(conv, op.pulls[p])))
        else v4)
      {
        UpdateReads(conv, old(data), op, data, p);
      }
    }
  }
}
