/** The key rewrite after RENAME BLOCK (block_rename_migration.go): chunked copies, then deletes,
    with a crash or write error possible between any two durable writes. */
module KeyMigration {
  import opened Keys
  import opened Text

  type Value = string
  type Store = map<string, Value>

  // ---- old names and new names ----

  /** The keys a block owns: documents, index entries and the block meta key. */
  predicate Owned(block: string, k: string) {
    HasPrefix(k, DocPrefix(block)) || HasPrefix(k, IndexBlockPrefix(block)) || k == MetaKey(block)
  }

  /** The key k of one block under the name of the other. */
  function Renamed(from: string, to: string, k: string): string {
    if HasPrefix(k, DocPrefix(from)) then DocPrefix(to) + k[|DocPrefix(from)|..]
    else if HasPrefix(k, IndexBlockPrefix(from)) then IndexBlockPrefix(to) + k[|IndexBlockPrefix(from)|..]
    else MetaKey(to)
  }

  predicate Names(from: string, to: string) {
    SlashFree(from) && SlashFree(to) && from != to
  }

  lemma PrefixParts(block: string, k: string)
    ensures HasPrefix(k, DocPrefix(block)) ==> |k| >= 2 && k[0] == 'd' && k[1] == '/' && HasPrefix(k[2..], block + "/")
    ensures HasPrefix(k, IndexBlockPrefix(block)) ==> |k| >= 2 && k[0] == 's' && k[1] == '/' && HasPrefix(k[2..], block + "/")
    ensures k == MetaKey(block) ==> |k| >= 2 && k[0] == 'm' && k[1] == '/' && k[2..] == block
  {
    if HasPrefix(k, DocPrefix(block)) {
      TaggedPrefix("d/", block, k);
    }
    if HasPrefix(k, IndexBlockPrefix(block)) {
      TaggedPrefix("s/", block, k);
    }
  }

  lemma TaggedPrefix(tag: string, block: string, k: string)
    requires |tag| == 2 && HasPrefix(k, tag + block + "/")
    ensures |k| >= 2 && k[0] == tag[0] && k[1] == tag[1] && HasPrefix(k[2..], block + "/")
  {
    var p := tag + block + "/";
    assert k[..|p|] == p;
    assert p[2..] == block + "/";
    assert k[2..][..|block| + 1] == k[..|p|][2..];
  }

  lemma SlashEndsName(a: string, b: string, s: string)
    requires SlashFree(a) && SlashFree(b) && HasPrefix(s, a + "/") && HasPrefix(s, b + "/")
    ensures a == b
  {
    assert s[|a|] == '/' && s[|b|] == '/';
    assert forall i :: 0 <= i < |a| ==> s[i] == a[i] && a[i] in a;
    assert forall i :: 0 <= i < |b| ==> s[i] == b[i] && b[i] in b;
    assert |a| == |b|;
    assert a == s[..|a|] && b == s[..|b|];
  }

  /** Slash-free distinct names: no key belongs to both blocks. */
  lemma OwnedByOne(from: string, to: string, k: string)
    requires Names(from, to)
    ensures !(Owned(from, k) && Owned(to, k))
  {
    PrefixParts(from, k);
    PrefixParts(to, k);
    if Owned(from, k) && Owned(to, k) && k[0] != 'm' {
      SlashEndsName(from, to, k[2..]);
    }
  }

  lemma RenameBack(from: string, to: string, k: string)
    requires Owned(from, k)
    ensures Owned(to, Renamed(from, to, k)) && Renamed(to, from, Renamed(from, to, k)) == k
  {
    var r := Renamed(from, to, k);
    PrefixParts(from, k);
    PrefixParts(to, r);
    if k[0] == 'd' {
      assert r[..|DocPrefix(to)|] == DocPrefix(to) && r[|DocPrefix(to)|..] == k[|DocPrefix(from)|..];
    } else if k[0] == 's' {
      assert r[..|IndexBlockPrefix(to)|] == IndexBlockPrefix(to);
      assert r[|IndexBlockPrefix(to)|..] == k[|IndexBlockPrefix(from)|..];
    }
  }

  // ---- the outcome of an uninterrupted migration ----

  function FinalKeys(from: string, to: string, s: Store): set<string> {
    (set k <- s | !Owned(from, k)) + (set k <- s | Owned(from, k) :: Renamed(from, to, k))
  }

  /** Every old key under its new name, everything else as it was. */
  function Final(from: string, to: string, s: Store): Store {
    map k <- FinalKeys(from, to, s) :: ValueAt(from, to, s, k)
  }

  function ValueAt(from: string, to: string, s: Store, k: string): Value {
    if Owned(to, k) && Renamed(to, from, k) in s then s[Renamed(to, from, k)]
    else if k in s then s[k] else ""
  }

  /** Nothing original is lost, nothing foreign appears, bystanders keep their values. */
  ghost predicate Lossless(from: string, to: string, s0: Store, s: Store) {
    && (forall k :: k in s0 && Owned(from, k) ==>
          (k in s && s[k] == s0[k]) || (Renamed(from, to, k) in s && s[Renamed(from, to, k)] == s0[k]))
    && (forall k :: k in s0 && !Owned(from, k) && !(Owned(to, k) && Renamed(to, from, k) in s0) ==>
          k in s && s[k] == s0[k])
    && (forall k :: k in s ==> k in s0 || (Owned(to, k) && Renamed(to, from, k) in s0))
    && (forall k :: k in s && Owned(from, k) ==> k in s0 && s[k] == s0[k])
  }

  /** The state a migration may stop in: no loss so far, and the same outcome ahead. */
  ghost predicate Kept(from: string, to: string, s0: Store, s: Store) {
    Lossless(from, to, s0, s) && Final(from, to, s) == Final(from, to, s0)
  }

  lemma KeptRefl(from: string, to: string, s: Store)
    ensures Kept(from, to, s, s)
  {
  }

  lemma KeptTrans(from: string, to: string, s0: Store, s1: Store, s2: Store)
    requires Names(from, to) && Kept(from, to, s0, s1) && Kept(from, to, s1, s2)
    ensures Kept(from, to, s0, s2)
  {
    forall k | k in s0 && Owned(from, k)
      ensures (k in s2 && s2[k] == s0[k]) ||
              (Renamed(from, to, k) in s2 && s2[Renamed(from, to, k)] == s0[k])
    {
      var r := Renamed(from, to, k);
      RenameBack(from, to, k);
      OwnedByOne(from, to, r);
    }
    forall k | k in s0 && !Owned(from, k) && !(Owned(to, k) && Renamed(to, from, k) in s0)
      ensures k in s2 && s2[k] == s0[k]
    {
      if Owned(to, k) { RenameBack(to, from, k); }
    }
    forall k | k in s2 ensures k in s0 || (Owned(to, k) && Renamed(to, from, k) in s0) {
      if Owned(to, k) { RenameBack(to, from, k); }
    }
  }

  lemma SameOutcome(from: string, to: string, s0: Store, s: Store)
    requires Kept(from, to, s0, s)
    ensures Final(from, to, s) == Final(from, to, s0)
  {
  }

  lemma FinalMember(from: string, to: string, s: Store, k: string)
    requires Names(from, to)
    ensures k in FinalKeys(from, to, s) <==>
              (k in s && !Owned(from, k)) || (Owned(to, k) && Renamed(to, from, k) in s)
  {
    if Owned(to, k) && Renamed(to, from, k) in s {
      RenameBack(to, from, k);
      assert k == Renamed(from, to, Renamed(to, from, k));
    }
    if o :| o in s && Owned(from, o) && k == Renamed(from, to, o) {
      RenameBack(from, to, o);
    }
  }

  /** Writing an old key's value under its new name. */
  lemma CopyKept(from: string, to: string, s: Store, k: string)
    requires Names(from, to) && k in s && Owned(from, k)
    ensures Kept(from, to, s, s[Renamed(from, to, k) := s[k]])
  {
    var r := Renamed(from, to, k);
    var t := s[r := s[k]];
    RenameBack(from, to, k);
    OwnedByOne(from, to, r);
    OwnedByOne(from, to, k);
    forall x ensures x in FinalKeys(from, to, t) <==> x in FinalKeys(from, to, s) {
      FinalMember(from, to, s, x);
      FinalMember(from, to, t, x);
      if Owned(to, x) {
        RenameBack(to, from, x);
        OwnedByOne(from, to, Renamed(to, from, x));
      }
    }
    forall x | x in FinalKeys(from, to, s) ensures ValueAt(from, to, t, x) == ValueAt(from, to, s, x) {
      if Owned(to, x) {
        RenameBack(to, from, x);
        OwnedByOne(from, to, Renamed(to, from, x));
      }
    }
  }

  /** Deleting an old key whose value is stored under its new name. */
  lemma RemoveKept(from: string, to: string, s: Store, k: string)
    requires Names(from, to) && k in s && Owned(from, k)
    requires Renamed(from, to, k) in s && s[Renamed(from, to, k)] == s[k]
    ensures Kept(from, to, s, s - {k})
  {
    var r := Renamed(from, to, k);
    var t := s - {k};
    RenameBack(from, to, k);
    OwnedByOne(from, to, r);
    OwnedByOne(from, to, k);
    forall x ensures x in FinalKeys(from, to, t) <==> x in FinalKeys(from, to, s) {
      FinalMember(from, to, s, x);
      FinalMember(from, to, t, x);
      if Owned(to, x) { RenameBack(to, from, x); }
    }
    forall x | x in FinalKeys(from, to, s) ensures ValueAt(from, to, t, x) == ValueAt(from, to, s, x) {
      FinalMember(from, to, s, x);
      if Owned(to, x) { RenameBack(to, from, x); }
    }
  }

  /** With no old key left, the store is its own outcome. */
  lemma FinalDone(from: string, to: string, s: Store)
    requires Names(from, to) && forall k :: k in s ==> !Owned(from, k)
    ensures Final(from, to, s) == s
  {
    forall k ensures k in FinalKeys(from, to, s) <==> k in s {
      FinalMember(from, to, s, k);
      if Owned(to, k) { RenameBack(to, from, k); }
    }
    forall k | k in s ensures ValueAt(from, to, s, k) == s[k] {
      if Owned(to, k) { RenameBack(to, from, k); }
    }
  }

  // ---- what that means key by key ----

  /** A document key becomes the document key under the new name, an index key the index key, the meta key
      the meta key. */
  lemma RenamedKeys(from: string, to: string, x: string)
    ensures Owned(from, DocPrefix(from) + x) && Renamed(from, to, DocPrefix(from) + x) == DocPrefix(to) + x
    ensures Owned(from, IndexBlockPrefix(from) + x) && Renamed(from, to, IndexBlockPrefix(from) + x) == IndexBlockPrefix(to) + x
    ensures Owned(from, MetaKey(from)) && Renamed(from, to, MetaKey(from)) == MetaKey(to)
  {
    var d, i := DocPrefix(from) + x, IndexBlockPrefix(from) + x;
    assert d[..|DocPrefix(from)|] == DocPrefix(from) && d[|DocPrefix(from)|..] == x;
    assert i[..|IndexBlockPrefix(from)|] == IndexBlockPrefix(from) && i[|IndexBlockPrefix(from)|..] == x;
    assert d[0] == 'd' && i[0] == 's';
  }

  lemma IndexKeySuffix(block: string, field: string, value: string, id: string)
    ensures IndexKey(block, field, value, id) == IndexBlockPrefix(block) + (field + "/" + value + "/" + id)
  {
  }

  /** At any stop, each original value is under its own key or the corresponding one. */
  lemma KeptKeys(from: string, to: string, s0: Store, s: Store, x: string)
    requires Kept(from, to, s0, s)
    ensures DocPrefix(from) + x in s0 ==> Under(s, s0[DocPrefix(from) + x], DocPrefix(from) + x, DocPrefix(to) + x)
    ensures IndexBlockPrefix(from) + x in s0 ==>
              Under(s, s0[IndexBlockPrefix(from) + x], IndexBlockPrefix(from) + x, IndexBlockPrefix(to) + x)
    ensures MetaKey(from) in s0 ==> Under(s, s0[MetaKey(from)], MetaKey(from), MetaKey(to))
  {
    RenamedKeys(from, to, x);
    hide Renamed, Owned, Final;
  }

  predicate Under(s: Store, v: Value, oldKey: string, newKey: string) {
    (oldKey in s && s[oldKey] == v) || (newKey in s && s[newKey] == v)
  }

  /** The outcome: nothing is left under the old name, and what was there is under the new one. */
  lemma FinalKeyByKey(from: string, to: string, s0: Store, x: string)
    requires Names(from, to)
    ensures var s := Final(from, to, s0);
      && DocPrefix(from) + x !in s && IndexBlockPrefix(from) + x !in s && MetaKey(from) !in s
      && (DocPrefix(from) + x in s0 ==> DocPrefix(to) + x in s && s[DocPrefix(to) + x] == s0[DocPrefix(from) + x])
      && (IndexBlockPrefix(from) + x in s0 ==>
            IndexBlockPrefix(to) + x in s && s[IndexBlockPrefix(to) + x] == s0[IndexBlockPrefix(from) + x])
      && (MetaKey(from) in s0 ==> MetaKey(to) in s && s[MetaKey(to)] == s0[MetaKey(from)])
  {
    RenamedKeys(from, to, x);
    FinalOf(from, to, s0, DocPrefix(from) + x);
    FinalOf(from, to, s0, IndexBlockPrefix(from) + x);
    FinalOf(from, to, s0, MetaKey(from));
    hide Renamed, Owned, Final;
  }

  lemma FinalOf(from: string, to: string, s0: Store, k: string)
    requires Names(from, to) && Owned(from, k)
    ensures var (s, r) := (Final(from, to, s0), Renamed(from, to, k));
      k !in s && (k in s0 ==> r in s && s[r] == s0[k])
  {
    var r := Renamed(from, to, k);
    RenameBack(from, to, k);
    OwnedByOne(from, to, k);
    FinalMember(from, to, s0, k);
    FinalMember(from, to, s0, r);
    hide Renamed, Owned;
  }

  lemma StaysKept(block: string, s: Store)
    ensures forall x :: DocPrefix(block) + x in s ==> Under(s, s[DocPrefix(block) + x], DocPrefix(block) + x, DocPrefix(block) + x)
    ensures forall x :: IndexBlockPrefix(block) + x in s ==>
              Under(s, s[IndexBlockPrefix(block) + x], IndexBlockPrefix(block) + x, IndexBlockPrefix(block) + x)
  {
  }

  lemma KeptEverywhere(from: string, to: string, s0: Store, s: Store)
    requires Kept(from, to, s0, s)
    ensures forall x :: DocPrefix(from) + x in s0 ==> Under(s, s0[DocPrefix(from) + x], DocPrefix(from) + x, DocPrefix(to) + x)
    ensures forall x :: IndexBlockPrefix(from) + x in s0 ==>
              Under(s, s0[IndexBlockPrefix(from) + x], IndexBlockPrefix(from) + x, IndexBlockPrefix(to) + x)
    ensures MetaKey(from) in s0 ==> Under(s, s0[MetaKey(from)], MetaKey(from), MetaKey(to))
  {
    hide Kept, Under, DocPrefix, IndexBlockPrefix, MetaKey;
    KeptKeys(from, to, s0, s, "");
    forall x | DocPrefix(from) + x in s0 ensures Under(s, s0[DocPrefix(from) + x], DocPrefix(from) + x, DocPrefix(to) + x) {
      KeptKeys(from, to, s0, s, x);
    }
    forall x | IndexBlockPrefix(from) + x in s0
      ensures Under(s, s0[IndexBlockPrefix(from) + x], IndexBlockPrefix(from) + x, IndexBlockPrefix(to) + x)
    {
      KeptKeys(from, to, s0, s, x);
    }
  }

  lemma FinalEverywhere(from: string, to: string, s0: Store)
    requires Names(from, to)
    ensures var s := Final(from, to, s0);
      && MetaKey(from) !in s && (forall x :: DocPrefix(from) + x !in s) && (forall x :: IndexBlockPrefix(from) + x !in s)
      && (forall x :: DocPrefix(from) + x in s0 ==> DocPrefix(to) + x in s && s[DocPrefix(to) + x] == s0[DocPrefix(from) + x])
      && (forall x :: IndexBlockPrefix(from) + x in s0 ==>
            IndexBlockPrefix(to) + x in s && s[IndexBlockPrefix(to) + x] == s0[IndexBlockPrefix(from) + x])
      && (MetaKey(from) in s0 ==> MetaKey(to) in s && s[MetaKey(to)] == s0[MetaKey(from)])
  {
    hide Final, DocPrefix, IndexBlockPrefix, MetaKey;
    FinalKeyByKey(from, to, s0, "");
    forall x ensures DocPrefix(from) + x !in Final(from, to, s0) {
      FinalKeyByKey(from, to, s0, x);
    }
    forall x ensures IndexBlockPrefix(from) + x !in Final(from, to, s0) {
      FinalKeyByKey(from, to, s0, x);
    }
    forall x | DocPrefix(from) + x in s0
      ensures DocPrefix(to) + x in Final(from, to, s0) && Final(from, to, s0)[DocPrefix(to) + x] == s0[DocPrefix(from) + x]
    {
      FinalKeyByKey(from, to, s0, x);
    }
    forall x | IndexBlockPrefix(from) + x in s0
      ensures IndexBlockPrefix(to) + x in Final(from, to, s0) &&
              Final(from, to, s0)[IndexBlockPrefix(to) + x] == s0[IndexBlockPrefix(from) + x]
    {
      FinalKeyByKey(from, to, s0, x);
    }
  }

  // ---- how many writes it takes ----

  /** Two for every document and index key, one for the meta key. */
  function Writes(from: string, s: Store): nat {
    2 * |set k <- s | HasPrefix(k, DocPrefix(from))| + 2 * |set k <- s | HasPrefix(k, IndexBlockPrefix(from))| +
    if MetaKey(from) in s then 1 else 0
  }

  /** At most so many writes are made, and none is refused if they can all be made. */
  predicate Spends(before: nat, after: nat, writes: nat, ok: bool) {
    && after <= before
    && (ok ==> before <= after + writes)
    && (!ok ==> before < writes)
  }

  lemma {:induction false} SetSize<T>(s: seq<T>, all: set<T>)
    requires forall x :: x in all <==> x in s
    ensures |all| <= |s|
  {
    if s != [] {
      SetSize(s[1..], set x <- s[1..]);
      assert all == {s[0]} + set x <- s[1..];
    } else {
      assert all == {};
    }
  }

  lemma {:induction false} FirstsSize(s: seq<Pair>, all: set<string>)
    requires all == set p <- s :: p.0
    ensures |all| <= |s|
  {
    if s != [] {
      FirstsSize(s[1..], set p <- s[1..] :: p.0);
      assert all == {s[0].0} + set p <- s[1..] :: p.0;
    }
  }

  lemma {:induction false} FirstsCount(s: seq<Pair>)
    requires forall i, j :: 0 <= i < j < |s| ==> s[i].0 != s[j].0
    ensures |set p <- s :: p.0| == |s|
  {
    if s != [] {
      FirstsCount(s[1..]);
      assert (set p <- s :: p.0) == {s[0].0} + set p <- s[1..] :: p.0;
      assert s[0].0 !in set p <- s[1..] :: p.0;
    }
  }

  lemma PairCount(pairs: seq<Pair>, s: Store, prefix: string)
    requires forall p :: p in pairs <==> p.0 in s && HasPrefix(p.0, prefix) && p.1 == s[p.0]
    requires forall i, j :: 0 <= i < j < |pairs| ==> pairs[i].0 != pairs[j].0
    ensures |pairs| == |set k <- s | HasPrefix(k, prefix)|
  {
    FirstsCount(pairs);
    forall k | k in s && HasPrefix(k, prefix) ensures k in set p <- pairs :: p.0 {
      var p: Pair := (k, s[k]);
      assert p in pairs;
    }
    assert (set p <- pairs :: p.0) == set k <- s | HasPrefix(k, prefix);
  }

  lemma FewerLeft(from: string, s: Store, t: Store, prefix: string)
    requires prefix == DocPrefix(from) || prefix == IndexBlockPrefix(from)
    requires forall k :: k in t && Owned(from, k) ==> k in s
    ensures |set k <- t | HasPrefix(k, prefix)| <= |set k <- s | HasPrefix(k, prefix)|
  {
    SubsetSize(set k <- t | HasPrefix(k, prefix), set k <- s | HasPrefix(k, prefix));
  }

  lemma SubsetSize(a: set<string>, b: set<string>)
    requires a <= b
    ensures |a| <= |b|
  {
    assert a + (b - a) == b;
  }

  lemma FewerWrites(from: string, s: Store, t: Store)
    requires forall k :: k in t && Owned(from, k) ==> k in s
    ensures Writes(from, t) <= Writes(from, s)
  {
    FewerLeft(from, s, t, DocPrefix(from));
    FewerLeft(from, s, t, IndexBlockPrefix(from));
    assert Owned(from, MetaKey(from));
  }

  // ---- the migration ----

  type Pair = (string, Value)

  class BlockStore {
    const from: string
    const to: string
    var data: Store
    var budget: nat     // durable writes left before the crash

    constructor (from: string, to: string, data: Store, budget: nat)
      ensures this.from == from && this.to == to && this.data == data && this.budget == budget
    {
      this.from, this.to, this.data, this.budget := from, to, data, budget;
    }

    /** One write batch of new keys; a crash leaves any part of it written. */
    method WriteNew(batch: seq<Pair>) returns (ok: bool)
      requires Names(from, to)
      requires forall p :: p in batch ==> Owned(from, p.0) && p.0 in data && data[p.0] == p.1
      modifies this
      ensures Kept(from, to, old(data), data)
      ensures forall k :: Owned(from, k) ==> (k in data <==> k in old(data)) && (k in data ==> data[k] == old(data)[k])
      ensures ok ==> forall p :: p in batch ==> Renamed(from, to, p.0) in data && data[Renamed(from, to, p.0)] == p.1
      ensures Spends(old(budget), budget, |batch|, ok)
    {
      hide Kept, Owned, Renamed;
      var todo := set p <- batch;
      ghost var all := |todo|;
      SetSize(batch, todo);
      KeptRefl(from, to, data);
      while todo != {}
        invariant forall p :: p in todo ==> p in batch
        invariant Kept(from, to, old(data), data) && budget + all == old(budget) + |todo|
        invariant forall k :: Owned(from, k) ==>
                    (k in data <==> k in old(data)) && (k in data ==> data[k] == old(data)[k])
        invariant forall p :: p in batch && p !in todo ==>
                    Renamed(from, to, p.0) in data && data[Renamed(from, to, p.0)] == p.1
        decreases todo
      {
        if budget == 0 { return false; }
        var p :| p in todo;
        todo := todo - {p};
        CopyKept(from, to, data, p.0);
        RenameBack(from, to, p.0);
        OwnedByOne(from, to, Renamed(from, to, p.0));
        ghost var before := data;
        data, budget := data[Renamed(from, to, p.0) := p.1], budget - 1;
        KeptTrans(from, to, old(data), before, data);
        forall q | q in batch && Renamed(from, to, q.0) == Renamed(from, to, p.0) ensures q.1 == p.1 {
          RenameBack(from, to, q.0);
        }
      }
      return true;
    }

    /** The matching deletes, once the copies are written; again a crash leaves any part done. */
    method DeleteOld(batch: seq<Pair>) returns (ok: bool)
      requires Names(from, to)
      requires forall p :: p in batch ==> Owned(from, p.0) && p.0 in data && data[p.0] == p.1
      requires forall p :: p in batch ==> Renamed(from, to, p.0) in data && data[Renamed(from, to, p.0)] == p.1
      modifies this
      ensures Kept(from, to, old(data), data)
      ensures OnlyDropped(from, old(data), data, set p <- batch :: p.0)
      ensures ok ==> forall p :: p in batch ==> p.0 !in data
      ensures Spends(old(budget), budget, |batch|, ok)
    {
      hide Kept, Owned, Renamed;
      var todo := set p <- batch :: p.0;
      ghost var all := |todo|;
      FirstsSize(batch, todo);
      KeptRefl(from, to, data);
      while todo != {}
        invariant todo <= set p <- batch :: p.0
        invariant Kept(from, to, old(data), data) && budget + all == old(budget) + |todo|
        invariant OnlyDropped(from, old(data), data, (set p <- batch :: p.0) - todo)
        invariant forall p :: p in batch ==> Renamed(from, to, p.0) in data && data[Renamed(from, to, p.0)] == p.1
        invariant forall p :: p in batch && p.0 !in todo ==> p.0 !in data
        decreases todo
      {
        if budget == 0 { return false; }
        var k :| k in todo;
        todo := todo - {k};
        ghost var p :| p in batch && p.0 == k;
        RemoveKept(from, to, data, k);
        forall q | q in batch ensures Renamed(from, to, q.0) != k {
          RenameBack(from, to, q.0);
          OwnedByOne(from, to, k);
        }
        ghost var before := data;
        data, budget := data - {k}, budget - 1;
        KeptTrans(from, to, old(data), before, data);
      }
      return true;
    }

    /** Every key under one prefix, in the order an iterator happens to deliver. */
    method ScanPrefix(prefix: string) returns (pairs: seq<Pair>)
      ensures forall p :: p in pairs <==> p.0 in data && HasPrefix(p.0, prefix) && p.1 == data[p.0]
      ensures forall i, j :: 0 <= i < j < |pairs| ==> pairs[i].0 != pairs[j].0
      ensures |pairs| == |set k <- data | HasPrefix(k, prefix)|
    {
      var todo := data.Keys;
      pairs := [];
      while todo != {}
        invariant todo <= data.Keys
        invariant forall p :: p in pairs <==> p.0 in data && p.0 !in todo && HasPrefix(p.0, prefix) && p.1 == data[p.0]
        invariant forall i, j :: 0 <= i < j < |pairs| ==> pairs[i].0 != pairs[j].0
        decreases todo
      {
        var k :| k in todo;
        todo := todo - {k};
        if HasPrefix(k, prefix) {
          assert forall i :: 0 <= i < |pairs| ==> pairs[i] in pairs;
          pairs := pairs + [(k, data[k])];
        }
      }
      PairCount(pairs, data, prefix);
    }

    /** One chunk: the copies first, the deletes only once they are all written. */
    method RewriteChunk(chunk: seq<Pair>) returns (ok: bool)
      requires Names(from, to)
      requires forall p :: p in chunk ==> Owned(from, p.0) && p.0 in data && data[p.0] == p.1
      modifies this
      ensures Kept(from, to, old(data), data)
      ensures OnlyDropped(from, old(data), data, set p <- chunk :: p.0)
      ensures ok ==> forall p :: p in chunk ==> p.0 !in data
      ensures Spends(old(budget), budget, 2 * |chunk|, ok)
    {
      hide Kept, Owned, Renamed;
      ok := WriteNew(chunk);
      if !ok { return; }
      ghost var mid := data;
      ok := DeleteOld(chunk);
      KeptTrans(from, to, old(data), mid, data);
    }

    method RewriteKeyPrefix(prefix: string) returns (ok: bool)
      requires Names(from, to) && (prefix == DocPrefix(from) || prefix == IndexBlockPrefix(from))
      modifies this
      ensures Kept(from, to, old(data), data)
      ensures ok ==> forall k :: k in data ==> !HasPrefix(k, prefix)
      ensures forall k :: k in data && Owned(from, k) ==> k in old(data)
      ensures Spends(old(budget), budget, 2 * |set k <- old(data) | HasPrefix(k, prefix)|, ok)
    {
      forall k | HasPrefix(k, prefix) ensures Owned(from, k) {}
      hide Kept, Owned, Renamed, HasPrefix;
      var pairs := ScanPrefix(prefix);
      forall k | k in data && HasPrefix(k, prefix) ensures exists i :: 0 <= i < |pairs| && pairs[i].0 == k {
        var p: Pair := (k, data[k]);
        assert p in pairs;
      }
      forall i | 0 <= i < |pairs| ensures Owned(from, pairs[i].0) && pairs[i].0 in data && data[pairs[i].0] == pairs[i].1 {
        assert pairs[i] in pairs;
      }
      ok := RewritePairs(pairs);
    }

    /** The scanned pairs, a chunk at a time. */
    method RewritePairs(pairs: seq<Pair>) returns (ok: bool)
      requires Names(from, to) && Pending(from, data, data, pairs, 0)
      modifies this
      ensures Kept(from, to, old(data), data)
      ensures ok ==> forall i :: 0 <= i < |pairs| ==> pairs[i].0 !in data
      ensures forall k :: k in data && Owned(from, k) ==> k in old(data)
      ensures Spends(old(budget), budget, 2 * |pairs|, ok)
    {
      hide Kept, Owned, Renamed;
      KeptRefl(from, to, data);
      var start := 0;
      while start < |pairs|
        invariant start <= |pairs|
        invariant Kept(from, to, old(data), data)
        invariant Pending(from, old(data), data, pairs, start) && Spends(old(budget), budget, 2 * start, true)
      {
        var end := if start + 1000 < |pairs| then start + 1000 else |pairs|;
        ghost var before := data;
        ChunkPending(from, old(data), data, pairs, start, end);
        ok := RewriteChunk(pairs[start..end]);
        KeptTrans(from, to, old(data), before, data);
        PendingNext(from, old(data), before, data, pairs, start, end, ok);
        if !ok { return; }
        start := end;
      }
      ok := true;
    }

    /** The block meta key moves in one transaction, or was never there. */
    method RenameSingleKey() returns (ok: bool)
      requires Names(from, to)
      modifies this
      ensures Kept(from, to, old(data), data)
      ensures forall k :: k in data && Owned(from, k) ==> k in old(data)
      ensures ok ==> MetaKey(from) !in data
      ensures Spends(old(budget), budget, if MetaKey(from) in old(data) then 1 else 0, ok)
    {
      var k := MetaKey(from);
      KeptRefl(from, to, data);
      if k !in data { return true; }
      if budget == 0 { return false; }
      PrefixParts(from, k);
      assert Renamed(from, to, k) == MetaKey(to);
      CopyKept(from, to, data, k);
      var copied := data[MetaKey(to) := data[k]];
      RenameBack(from, to, k);
      OwnedByOne(from, to, k);
      OwnedByOne(from, to, MetaKey(to));
      RemoveKept(from, to, copied, k);
      KeptTrans(from, to, data, copied, copied - {k});
      data, budget := copied - {k}, budget - 1;
      return true;
    }

    /** The whole migration: wherever it stops, nothing is lost and the outcome ahead is unchanged;
        if it gets through, the store is that outcome. */
    method MigrateBlockKeyNames() returns (ok: bool)
      requires SlashFree(from) && SlashFree(to)
      modifies this
      ensures from == to ==> ok && data == old(data)
      ensures from != to ==> Kept(from, to, old(data), data) && (ok ==> data == Final(from, to, old(data)))
      // wherever it stops: each value under its own key or the one with the new name
      ensures forall x :: DocPrefix(from) + x in old(data) ==>
                Under(data, old(data)[DocPrefix(from) + x], DocPrefix(from) + x, DocPrefix(to) + x)
      ensures forall x :: IndexBlockPrefix(from) + x in old(data) ==>
                Under(data, old(data)[IndexBlockPrefix(from) + x], IndexBlockPrefix(from) + x, IndexBlockPrefix(to) + x)
      ensures MetaKey(from) in old(data) ==> Under(data, old(data)[MetaKey(from)], MetaKey(from), MetaKey(to))
      // it does if two writes for every document and index key can be made, and one for the meta key
      ensures old(budget) >= Writes(from, old(data)) ==> ok
      // if it gets through: each value under the key with the new name, and nothing under the old one
      ensures ok ==> forall x :: DocPrefix(from) + x in old(data) ==>
                DocPrefix(to) + x in data && data[DocPrefix(to) + x] == old(data)[DocPrefix(from) + x]
      ensures ok ==> forall x :: IndexBlockPrefix(from) + x in old(data) ==>
                IndexBlockPrefix(to) + x in data && data[IndexBlockPrefix(to) + x] == old(data)[IndexBlockPrefix(from) + x]
      ensures ok && MetaKey(from) in old(data) ==> MetaKey(to) in data && data[MetaKey(to)] == old(data)[MetaKey(from)]
      ensures ok && from != to ==> MetaKey(from) !in data && forall x :: DocPrefix(from) + x !in data
      ensures ok && from != to ==> forall x :: IndexBlockPrefix(from) + x !in data
    {
      hide Kept, Final, HasPrefix;
      ok := MigrateKeys();
      if from == to {
        StaysKept(from, data);
      } else {
        KeptEverywhere(from, to, old(data), data);
        if ok { FinalEverywhere(from, to, old(data)); }
      }
    }

    method MigrateKeys() returns (ok: bool)
      requires SlashFree(from) && SlashFree(to)
      modifies this
      ensures from == to ==> ok && data == old(data)
      ensures from != to ==> Kept(from, to, old(data), data) && (ok ==> data == Final(from, to, old(data)))
      ensures forall k :: k in data && Owned(from, k) ==> k in old(data)
      ensures old(budget) >= Writes(from, old(data)) ==> ok
    {
      if from == to { return true; }
      ghost var s0 := data;
      ok := RewriteKeyPrefix(DocPrefix(from));
      if !ok { return; }
      ghost var s1 := data;
      ok := RewriteKeyPrefix(IndexBlockPrefix(from));
      KeptTrans(from, to, s0, s1, data);
      FewerLeft(from, s0, s1, IndexBlockPrefix(from));
      if !ok { return; }
      ghost var s2 := data;
      ok := RenameSingleKey();
      KeptTrans(from, to, s0, s2, data);
      if ok {
        FinalDone(from, to, data);
      }
    }

    /** Crash after crash, each rerun started on what the last one left: nothing is ever lost, and
        the first run that gets through reaches the store of an uninterrupted migration. */
    method MigrateAcrossCrashes(budgets: seq<nat>) returns (ok: bool)
      requires Names(from, to)
      modifies this
      ensures Kept(from, to, old(data), data)
      ensures ok ==> data == Final(from, to, old(data))
      ensures budgets != [] && budgets[|budgets| - 1] >= Writes(from, old(data)) ==> ok
      ensures ok ==> forall x :: DocPrefix(from) + x in old(data) ==>
                DocPrefix(to) + x in data && data[DocPrefix(to) + x] == old(data)[DocPrefix(from) + x]
      ensures ok ==> forall x :: IndexBlockPrefix(from) + x in old(data) ==>
                IndexBlockPrefix(to) + x in data && data[IndexBlockPrefix(to) + x] == old(data)[IndexBlockPrefix(from) + x]
    {
      hide Kept, Final;
      ok := false;
      KeptRefl(from, to, data);
      for i := 0 to |budgets|
        invariant Kept(from, to, old(data), data)
        invariant ok ==> data == Final(from, to, old(data))
        invariant forall k :: k in data && Owned(from, k) ==> k in old(data)
        invariant i > 0 && budgets[i - 1] >= Writes(from, old(data)) ==> ok
      {
        budget := budgets[i];
        ghost var before := data;
        FewerWrites(from, old(data), data);
        ok := MigrateKeys();
        KeptTrans(from, to, old(data), before, data);
        if ok { SameOutcome(from, to, old(data), before); }
      }
      if ok { FinalEverywhere(from, to, old(data)); }
    }
  }

  /** Old keys only disappear, and only those among the given ones. */
  ghost predicate OnlyDropped(from: string, s: Store, t: Store, dropped: set<string>) {
    && (forall k :: Owned(from, k) && k in t ==> k in s && t[k] == s[k])
    && (forall k :: Owned(from, k) && k in s && k !in dropped ==> k in t)
  }

  /** Between chunks: the pairs before start are gone, the rest sit where the scan found them. */
  ghost predicate Pending(from: string, s0: Store, s: Store, pairs: seq<Pair>, start: nat) {
    && (forall i :: 0 <= i < |pairs| ==> Owned(from, pairs[i].0))
    && (forall i, j :: 0 <= i < j < |pairs| ==> pairs[i].0 != pairs[j].0)
    && (forall i :: start <= i < |pairs| ==> pairs[i].0 in s && s[pairs[i].0] == pairs[i].1)
    && (forall i :: 0 <= i < start && i < |pairs| ==> pairs[i].0 !in s)
    && (forall k :: k in s && Owned(from, k) ==> k in s0)
  }

  lemma ChunkPending(from: string, s0: Store, s: Store, pairs: seq<Pair>, start: nat, end: nat)
    requires Pending(from, s0, s, pairs, start) && start <= end <= |pairs|
    ensures forall p :: p in pairs[start..end] ==> Owned(from, p.0) && p.0 in s && s[p.0] == p.1
  {
    hide Owned;
  }

  lemma PendingNext(from: string, s0: Store, s: Store, t: Store, pairs: seq<Pair>, start: nat, end: nat, ok: bool)
    requires Pending(from, s0, s, pairs, start) && start <= end <= |pairs|
    requires OnlyDropped(from, s, t, set p <- pairs[start..end] :: p.0)
    requires ok ==> forall p :: p in pairs[start..end] ==> p.0 !in t
    ensures forall k :: k in t && Owned(from, k) ==> k in s0
    ensures ok ==> Pending(from, s0, t, pairs, end)
  {
    hide Owned;
    var chunk := pairs[start..end];
    if ok {
      forall i | 0 <= i < end ensures pairs[i].0 !in t {
        if start <= i { assert chunk[i - start] in chunk; }
      }
      forall i | end <= i < |pairs| ensures pairs[i].0 in t && t[pairs[i].0] == pairs[i].1 {
        forall p | p in chunk ensures p.0 != pairs[i].0 {
          var j :| 0 <= j < |chunk| && chunk[j] == p;
          assert chunk[j] == pairs[start + j];
        }
      }
    }
  }
}
