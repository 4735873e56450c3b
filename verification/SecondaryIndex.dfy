/** One block's documents and its secondary index: the transitions of ops_local.go, the key
    builders and the prefix lookup of index_secondary.go, the rebuild of block_repair.go. */
module SecondaryIndexes {
  import opened JsonValues
  import opened Keys
  import opened Text

  datatype Doc = Doc(id: string, data: Data, shardId: string)

  /** Settings and host conversions: the text of a value, byte lengths, the size of a document as
      encoded and as stored, and whether it is stored compressed. */
  datatype IndexConfig = IndexConfig(skipLarge: bool, threshold: int, byteLen: string -> int, sprint: Json -> string,
                                     rawSize: Doc -> int, storedSize: Doc -> int, packed: Doc -> bool)

  /** Oversized strings are skipped on request; arrays and objects never reach the index. */
  predicate ShouldIndex(cfg: IndexConfig, v: Json) {
    !(cfg.skipLarge && v.Str? && cfg.byteLen(v.s) > cfg.threshold)
  }

  predicate Indexed(cfg: IndexConfig, doc: Doc, field: string) {
    field in doc.data && Scalar(doc.data[field]) && ShouldIndex(cfg, doc.data[field])
  }

  function KeysFor(cfg: IndexConfig, block: string, doc: Doc): set<string> {
    set f <- doc.data | Indexed(cfg, doc, f) :: IndexKey(block, f, cfg.sprint(doc.data[f]), doc.id)
  }

  predicate Small(cfg: IndexConfig, doc: Doc) {
    cfg.rawSize(doc) < cfg.threshold
  }

  /** An update measures what it is about to store, compressed or not; an insert the encoded document. */
  predicate SizedAlike(cfg: IndexConfig, doc: Doc) {
    cfg.storedSize(doc) < cfg.threshold <==> Small(cfg, doc)
  }

  /** The keys a write stores for a document: none for a large one. */
  function SmallKeys(cfg: IndexConfig, block: string, doc: Doc): set<string> {
    if Small(cfg, doc) then KeysFor(cfg, block, doc) else {}
  }

  type Docs = map<string, Doc>

  /** The index the stored documents call for. */
  function Expected(cfg: IndexConfig, block: string, docs: Docs): set<string> {
    set id <- docs, k <- SmallKeys(cfg, block, docs[id]) :: k
  }

  /** Documents sit under their own ids, and ids and block name have no slash. */
  ghost predicate SlashFreeIds(block: string, docs: Docs) {
    SlashFree(block) && forall id <- docs :: docs[id].id == id && SlashFree(id)
  }

  /** The keys of small documents: one for every boolean, number and text, oversized texts aside. */
  lemma ExpectedKeys(cfg: IndexConfig, block: string, docs: Docs, k: string)
    ensures k in Expected(cfg, block, docs) <==> exists id, f ::
              && id in docs && cfg.rawSize(docs[id]) < cfg.threshold && f in docs[id].data
              && k == IndexKey(block, f, cfg.sprint(docs[id].data[f]), docs[id].id)
              && match docs[id].data[f]
                 case Bool(_) => true
                 case Num(_) => true
                 case Str(s) => !cfg.skipLarge || cfg.byteLen(s) <= cfg.threshold
                 case _ => false
  {
    hide IndexKey;
    if k in Expected(cfg, block, docs) {
      var id :| id in docs && k in SmallKeys(cfg, block, docs[id]);
      var f :| f in docs[id].data && Indexed(cfg, docs[id], f) && k == IndexKey(block, f, cfg.sprint(docs[id].data[f]), docs[id].id);
    }
    if id, f :|
      && id in docs && cfg.rawSize(docs[id]) < cfg.threshold && f in docs[id].data
      && k == IndexKey(block, f, cfg.sprint(docs[id].data[f]), docs[id].id)
      && match docs[id].data[f]
         case Bool(_) => true
         case Num(_) => true
         case Str(s) => !cfg.skipLarge || cfg.byteLen(s) <= cfg.threshold
         case _ => false
    {
      assert Indexed(cfg, docs[id], f);
      assert k in SmallKeys(cfg, block, docs[id]);
    }
  }

  // ---- how the expected index moves with the documents ----

  lemma KeysDisjoint(cfg: IndexConfig, block: string, d: Doc, e: Doc, k: string)
    requires SlashFree(block) && SlashFree(d.id) && SlashFree(e.id) && d.id != e.id
    ensures !(k in KeysFor(cfg, block, d) && k in KeysFor(cfg, block, e))
  {
    if k in KeysFor(cfg, block, d) && k in KeysFor(cfg, block, e) {
      var f :| f in d.data && k == IndexKey(block, f, cfg.sprint(d.data[f]), d.id);
      var g :| g in e.data && k == IndexKey(block, g, cfg.sprint(e.data[g]), e.id);
      KeysOfDifferentIds(block, f, cfg.sprint(d.data[f]), d.id, g, cfg.sprint(e.data[g]), e.id);
    }
  }

  /** Old keys out, new keys in. */
  lemma RewriteKeeps(cfg: IndexConfig, block: string, docs: Docs, id: string, doc: Doc)
    requires SlashFreeIds(block, docs) && id in docs && doc.id == docs[id].id && SizedAlike(cfg, doc)
    ensures SlashFreeIds(block, docs[id := doc])
    ensures Expected(cfg, block, docs[id := doc]) == Expected(cfg, block, docs) - KeysFor(cfg, block, docs[id]) +
              if cfg.storedSize(doc) < cfg.threshold then KeysFor(cfg, block, doc) else {}
  {
    ExpectedRemove(cfg, block, docs, id);
    ExpectedPut(cfg, block, docs, doc);
  }

  /** Deleting a document's keys, large or not, leaves exactly the keys of the others. */
  lemma ExpectedRemove(cfg: IndexConfig, block: string, docs: Docs, id: string)
    requires SlashFreeIds(block, docs) && id in docs
    ensures Expected(cfg, block, docs - {id}) == Expected(cfg, block, docs) - KeysFor(cfg, block, docs[id])
  {
    var rest := docs - {id};
    forall k ensures k in Expected(cfg, block, rest) <==>
                     k in Expected(cfg, block, docs) && k !in KeysFor(cfg, block, docs[id]) {
      if k in Expected(cfg, block, rest) {
        var other :| other in rest && k in SmallKeys(cfg, block, rest[other]);
        assert other in docs && rest[other] == docs[other];
        KeysDisjoint(cfg, block, docs[other], docs[id], k);
      }
      if k in Expected(cfg, block, docs) && k !in KeysFor(cfg, block, docs[id]) {
        var other :| other in docs && k in SmallKeys(cfg, block, docs[other]);
        assert other in rest && rest[other] == docs[other];
      }
    }
  }

  lemma ExpectedPut(cfg: IndexConfig, block: string, docs: Docs, doc: Doc)
    ensures Expected(cfg, block, docs[doc.id := doc]) ==
            Expected(cfg, block, docs - {doc.id}) + SmallKeys(cfg, block, doc)
  {
    var after, rest := docs[doc.id := doc], docs - {doc.id};
    forall k ensures k in Expected(cfg, block, after) <==>
                     k in Expected(cfg, block, rest) || k in SmallKeys(cfg, block, doc) {
      if k in Expected(cfg, block, after) {
        var id :| id in after && k in SmallKeys(cfg, block, after[id]);
        assert id != doc.id ==> id in rest && rest[id] == after[id];
      }
      if k in Expected(cfg, block, rest) {
        var id :| id in rest && k in SmallKeys(cfg, block, rest[id]);
        assert id in after && after[id] == rest[id];
      }
      if k in SmallKeys(cfg, block, doc) {
        assert doc.id in after && after[doc.id] == doc;
      }
    }
  }

  /** Inserting keeps the index exact when the id is fresh; over an id already stored, exactly
      when every key of the replaced document is stored again for the new one. */
  lemma InsertAgrees(cfg: IndexConfig, block: string, docs: Docs, doc: Doc)
    requires SlashFreeIds(block, docs) && SlashFree(doc.id)
    ensures
      var index := Expected(cfg, block, docs) + SmallKeys(cfg, block, doc);
      index == Expected(cfg, block, docs[doc.id := doc]) <==>
        doc.id !in docs || SmallKeys(cfg, block, docs[doc.id]) <= SmallKeys(cfg, block, doc)
  {
    ExpectedPut(cfg, block, docs, doc);
    if doc.id in docs {
      var stored := docs[doc.id];
      ExpectedRemove(cfg, block, docs, doc.id);
      forall k | k in SmallKeys(cfg, block, stored) ensures k in Expected(cfg, block, docs) {
        assert docs[doc.id] == stored;
      }
      forall k | k in Expected(cfg, block, docs) && k in KeysFor(cfg, block, stored)
        ensures k in SmallKeys(cfg, block, stored)
      {
        var other :| other in docs && k in SmallKeys(cfg, block, docs[other]);
        if other != doc.id {
          KeysDisjoint(cfg, block, docs[other], stored, k);
        }
      }
    } else {
      assert docs - {doc.id} == docs;
    }
  }

  // ---- the block ----

  datatype Op =
    | InsertOp(id: string, data: Data, shardId: string)
    | UpdateOp(shardId: string, matches: Doc -> bool, logged: string -> bool, rewrite: Data -> Data)
    | DeleteOp(shardId: string, matches: Doc -> bool, logged: string -> bool, commits: nat -> bool)

  /** The documents of todo as they were, the others as they will be. */
  function Partly(all: Docs, after: Docs, todo: set<string>): Docs
    requires all.Keys == after.Keys
  {
    map id <- all :: if id in todo then all[id] else after[id]
  }

  lemma PartlyEnds(all: Docs, after: Docs)
    requires all.Keys == after.Keys
    ensures Partly(all, after, all.Keys) == all && Partly(all, after, {}) == after
  {
  }

  lemma PartlyNext(all: Docs, after: Docs, todo: set<string>, id: string)
    requires all.Keys == after.Keys && id in all && id in todo
    ensures id in Partly(all, after, todo) && Partly(all, after, todo)[id] == all[id]
    ensures Partly(all, after, todo - {id}) == Partly(all, after, todo)[id := after[id]]
  {
  }

  class Block {
    const cfg: IndexConfig
    const name: string
    var docs: Docs
    var index: set<string>

    constructor (cfg: IndexConfig, name: string)
      ensures this.cfg == cfg && this.name == name && docs == map[] && index == {}
      ensures Agrees()
    {
      this.cfg, this.name, docs, index := cfg, name, map[], {};
    }

    ghost predicate Agrees()
      reads this
    {
      index == Expected(cfg, name, docs)
    }

    method BuildInto(doc: Doc)
      modifies this`index
      ensures index == old(index) + KeysFor(cfg, name, doc)
    {
      var todo := doc.data.Keys;
      while todo != {}
        invariant todo <= doc.data.Keys
        invariant index == old(index) + set f | f in doc.data.Keys - todo && Indexed(cfg, doc, f)
                                         :: IndexKey(name, f, cfg.sprint(doc.data[f]), doc.id)
      {
        var f :| f in todo;
        todo := todo - {f};
        if Indexed(cfg, doc, f) {
          index := index + {IndexKey(name, f, cfg.sprint(doc.data[f]), doc.id)};
        }
      }
    }

    method DropFrom(doc: Doc)
      modifies this`index
      ensures index == old(index) - KeysFor(cfg, name, doc)
    {
      var todo := doc.data.Keys;
      while todo != {}
        invariant todo <= doc.data.Keys
        invariant index == old(index) - set f | f in doc.data.Keys - todo && Indexed(cfg, doc, f)
                                         :: IndexKey(name, f, cfg.sprint(doc.data[f]), doc.id)
      {
        var f :| f in todo;
        todo := todo - {f};
        if Indexed(cfg, doc, f) {
          index := index - {IndexKey(name, f, cfg.sprint(doc.data[f]), doc.id)};
        }
      }
    }

    /** Stores the document under its id; a document that was there keeps its old index keys. */
    method InsertWithId(id: string, data: Data, shardId: string) returns (doc: Doc)
      modifies this
      ensures doc == Doc(id, if id != "" then data["id" := Str(id)] else data, shardId)
      ensures docs == old(docs)[id := doc]
      ensures index == old(index) + SmallKeys(cfg, name, doc)
      ensures old(Agrees()) && id !in old(docs) && SlashFreeIds(name, docs) ==> Agrees()
    {
      ghost var before := docs;
      doc := Doc(id, if id != "" then data["id" := Str(id)] else data, shardId);
      docs := docs[id := doc];
      if Small(cfg, doc) {
        BuildInto(doc);
      }
      if SlashFreeIds(name, docs) && id !in before {
        assert forall i :: i in before ==> i in docs && docs[i] == before[i];
        InsertAgrees(cfg, name, before, doc);
      }
    }

    /** Updates and deletes decode the stored bytes as they are, and so pass over compressed documents. */
    predicate Hit(d: Doc, shardId: string, matches: Doc -> bool, logged: string -> bool) {
      !cfg.packed(d) && (shardId == "" || d.shardId == shardId) && matches(d) && logged(d.id)
    }

    /** Rewrites every matching document whose log write succeeds: old keys out, new keys in. */
    method Update(shardId: string, matches: Doc -> bool, logged: string -> bool, rewrite: Data -> Data)
      modifies this
      ensures docs == map id <- old(docs) :: Rewritten(old(docs)[id], shardId, matches, logged, rewrite)
      ensures docs.Keys == old(docs).Keys && forall id :: id in docs ==>
        var d := old(docs)[id];
        docs[id] == if !cfg.packed(d) && (shardId == "" || d.shardId == shardId) && matches(d) && logged(d.id)
                    then Doc(d.id, rewrite(d.data), d.shardId) else d
      ensures old(Agrees()) && SlashFreeIds(name, old(docs)) && AllSizedAlike(docs) ==> Agrees()
      ensures SlashFreeIds(name, old(docs)) ==> SlashFreeIds(name, docs)
    {
      if SlashFreeIds(name, docs) { RewrittenIds(docs, shardId, matches, logged, rewrite); }
      EachRewritten(docs, shardId, matches, logged, rewrite);
      hide Expected, KeysFor, Small, SlashFreeIds, SizedAlike, Block.Rewritten;
      ghost var after := map id <- docs :: Rewritten(docs[id], shardId, matches, logged, rewrite);
      ghost var before, agreed := docs, Agrees() && SlashFreeIds(name, docs) && AllSizedAlike(after);
      var todo := docs.Keys;
      PartlyEnds(docs, after);
      hide Partly;
      while todo != {}
        invariant todo <= before.Keys
        invariant docs == Partly(before, after, todo)
        invariant agreed ==> Agrees() && SlashFreeIds(name, docs)
      {
        var id :| id in todo;
        PartlyNext(before, after, todo, id);
        todo := todo - {id};
        assert after[id] == Rewritten(docs[id], shardId, matches, logged, rewrite);
        UpdateOne(id, shardId, matches, logged, rewrite);
      }
    }

    lemma EachRewritten(all: Docs, shardId: string, matches: Doc -> bool, logged: string -> bool, rewrite: Data -> Data)
      ensures forall id :: id in all ==>
        var d := all[id];
        Rewritten(d, shardId, matches, logged, rewrite) ==
          if !cfg.packed(d) && (shardId == "" || d.shardId == shardId) && matches(d) && logged(d.id)
          then Doc(d.id, rewrite(d.data), d.shardId) else d
    {
    }

    /** One stored document, if it is hit. */
    method UpdateOne(id: string, shardId: string, matches: Doc -> bool, logged: string -> bool, rewrite: Data -> Data)
      requires id in docs
      modifies this
      ensures docs == old(docs)[id := Rewritten(old(docs)[id], shardId, matches, logged, rewrite)]
      ensures old(Agrees()) && SlashFreeIds(name, old(docs)) && SizedAlike(cfg, docs[id]) ==> Agrees() && SlashFreeIds(name, docs)
    {
      hide Expected, KeysFor, Small, SlashFreeIds, SizedAlike;
      var stored := docs[id];
      if Hit(stored, shardId, matches, logged) {
        RewriteDoc(id, stored.(data := rewrite(stored.data)));
      } else {
        assert docs == docs[id := stored];
      }
    }

    /** Old keys out, new document and keys in, in one transaction. */
    method RewriteDoc(id: string, doc: Doc)
      requires id in docs && doc.id == docs[id].id
      modifies this
      ensures docs == old(docs)[id := doc]
      ensures old(Agrees()) && SlashFreeIds(name, old(docs)) && SizedAlike(cfg, doc) ==> Agrees() && SlashFreeIds(name, docs)
    {
      hide Expected, KeysFor, Small, SlashFreeIds;
      if SlashFreeIds(name, docs) && SizedAlike(cfg, doc) {
        RewriteKeeps(cfg, name, docs, id, doc);
      }
      DropFrom(docs[id]);
      docs := docs[id := doc];
      if cfg.storedSize(doc) < cfg.threshold {
        BuildInto(doc);
      }
    }

    predicate AllSizedAlike(all: Docs) {
      forall id <- all :: SizedAlike(cfg, all[id])
    }

    function Rewritten(d: Doc, shardId: string, matches: Doc -> bool, logged: string -> bool, rewrite: Data -> Data): Doc {
      if Hit(d, shardId, matches, logged) then d.(data := rewrite(d.data)) else d
    }

    /** Deletes the matching documents in batches, each batch with its index keys in one commit;
        a failing commit stops the run with the batches before it deleted. */
    method Delete(shardId: string, matches: Doc -> bool, logged: string -> bool, commits: nat -> bool)
      returns (deleted: nat, ok: bool, ghost gone: set<string>)
      modifies this
      ensures gone <= HitIds(old(docs), shardId, matches, logged)
      ensures docs == old(docs) - gone
      ensures ok ==> gone == HitIds(old(docs), shardId, matches, logged) && deleted == |gone|
      ensures ok ==> forall id :: id in docs <==>
        id in old(docs) && (
          var d := old(docs)[id];
          cfg.packed(d) || (shardId != "" && d.shardId != shardId) || !matches(d) || !logged(d.id))
      // all that was asked for is gone exactly when none of it is stored compressed
      ensures ok ==> (
        (forall id | id in old(docs) :: (
           var d := old(docs)[id]; (shardId == "" || d.shardId == shardId) && matches(d) && logged(d.id) ==> id !in docs)) <==>
        (forall id | id in old(docs) :: (
           var d := old(docs)[id]; (shardId == "" || d.shardId == shardId) && matches(d) && logged(d.id) ==> !cfg.packed(d))))
      // it gets through exactly when the commit of every batch works
      ensures ok <==> forall k: nat :: k * 10000 < |HitIds(old(docs), shardId, matches, logged)| ==> commits(k)
      ensures old(Agrees()) && SlashFreeIds(name, old(docs)) ==> Agrees() && SlashFreeIds(name, docs)
    {
      hide Expected, SlashFreeIds, IdsOf, DistinctIds, Entries, Block.HitIds;
      MissedByDelete(docs, shardId, matches, logged);
      var toDelete := CollectHits(shardId, matches, logged);
      IdCount(toDelete);
      deleted, ok, gone := DeleteInBatches(toDelete, commits, Agrees() && SlashFreeIds(name, docs));
    }

    /** The batches, until one cannot be committed. */
    method DeleteInBatches(toDelete: seq<(string, set<string>)>, commits: nat -> bool, ghost agreed: bool)
      returns (deleted: nat, ok: bool, ghost gone: set<string>)
      requires Entries(cfg, name, docs, toDelete) && DistinctIds(toDelete)
      requires agreed ==> Agrees() && SlashFreeIds(name, docs)
      modifies this
      ensures gone <= IdsOf(toDelete) && docs == old(docs) - gone && deleted == |gone|
      ensures ok ==> gone == IdsOf(toDelete)
      ensures ok <==> AllCommit(commits, |toDelete|)
      ensures agreed ==> Agrees() && SlashFreeIds(name, docs)
    {
      ghost var before := docs;
      deleted, ok, gone := 0, true, {};
      var start := 0;
      var batch := 0;
      NextBatch(toDelete, 0, 0);
      NoCommits(commits, |toDelete|);
      hide AllCommit, Committed, Expected, SlashFreeIds, IdsOf, DistinctIds, Entries;
      while start < |toDelete|
        invariant 0 <= start <= |toDelete|
        invariant Committed(commits, |toDelete|, batch, start) && (start == |toDelete| ==> AllCommit(commits, |toDelete|))
        invariant gone == IdsOf(toDelete[..start]) && deleted == |gone|
        invariant docs == before - gone && (agreed ==> Agrees() && SlashFreeIds(name, docs))
      {
        var end := if start + 10000 < |toDelete| then start + 10000 else |toDelete|;
        NextBatch(toDelete, start, end);
        NextCommit(commits, |toDelete|, batch, start);
        if !commits(batch) {
          ok := false;
          IdsOfPart(toDelete, start);
          return;
        }
        StillStored(cfg, name, before, gone, toDelete, start, end);
        MinusTwice(before, gone, IdsOf(toDelete[start..end]));
        DeleteBatch(toDelete[start..end], agreed);
        deleted := deleted + (end - start);
        gone := gone + IdsOf(toDelete[start..end]);
        start, batch := end, batch + 1;
      }
      assert toDelete[..|toDelete|] == toDelete;
    }

    /** One commit: each document key together with the document's index keys. */
    method DeleteBatch(batch: seq<(string, set<string>)>, ghost agreed: bool)
      requires Entries(cfg, name, docs, batch) && DistinctIds(batch)
      requires agreed ==> Agrees() && SlashFreeIds(name, docs)
      modifies this
      ensures docs == old(docs) - IdsOf(batch)
      ensures agreed ==> Agrees() && SlashFreeIds(name, docs)
    {
      ghost var before := docs;
      for i := 0 to |batch|
        invariant docs == before - IdsOf(batch[..i])
        invariant agreed ==> Agrees() && SlashFreeIds(name, docs)
      {
        var (id, keys) := batch[i];
        NextId(batch, i);
        assert batch[i] in batch;
        if agreed {
          ExpectedRemove(cfg, name, docs, id);
        }
        docs, index := docs - {id}, index - keys;
      }
      assert batch[..|batch|] == batch;
    }

    /** The scan that pairs each matching document with the index keys to remove. */
    method CollectHits(shardId: string, matches: Doc -> bool, logged: string -> bool) returns (found: seq<(string, set<string>)>)
      ensures IdsOf(found) == HitIds(docs, shardId, matches, logged)
      ensures Entries(cfg, name, docs, found) && DistinctIds(found)
    {
      var todo := docs.Keys;
      found := [];
      while todo != {}
        invariant todo <= docs.Keys
        invariant IdsOf(found) == set id <- docs | Hit(docs[id], shardId, matches, logged) && id !in todo
        invariant forall e :: e in found ==> e.0 in docs && e.1 == KeysFor(cfg, name, docs[e.0])
        invariant DistinctIds(found)
        decreases todo
      {
        var id :| id in todo;
        todo := todo - {id};
        if Hit(docs[id], shardId, matches, logged) {
          assert forall i :: 0 <= i < |found| ==> found[i].0 in IdsOf(found);
          ghost var longer := found + [(id, KeysFor(cfg, name, docs[id]))];
          NextId(longer, |found|);
          assert longer[..|found|] == found && longer[..|found| + 1] == longer;
          found := found + [(id, KeysFor(cfg, name, docs[id]))];
        }
      }
    }

    lemma MissedByDelete(all: Docs, shardId: string, matches: Doc -> bool, logged: string -> bool)
      ensures forall id :: id in all && id !in HitIds(all, shardId, matches, logged) <==>
        id in all && (
          var d := all[id];
          cfg.packed(d) || (shardId != "" && d.shardId != shardId) || !matches(d) || !logged(d.id))
    {
    }

    lemma RewrittenIds(all: Docs, shardId: string, matches: Doc -> bool, logged: string -> bool, rewrite: Data -> Data)
      requires SlashFreeIds(name, all)
      ensures SlashFreeIds(name, map id <- all :: Rewritten(all[id], shardId, matches, logged, rewrite))
    {
    }

    function HitIds(all: Docs, shardId: string, matches: Doc -> bool, logged: string -> bool): set<string> {
      set id <- all | Hit(all[id], shardId, matches, logged)
    }

    /** Any run of fresh inserts, updates, and deletes, cut short or not, keeps the index exact when inserts and updates
        measure alike, as they do without compression. */
    method Run(ops: seq<Op>)
      requires Agrees() && SlashFreeIds(name, docs) && forall doc :: SizedAlike(cfg, doc)
      modifies this
      ensures Agrees() && SlashFreeIds(name, docs)
    {
      for i := 0 to |ops|
        invariant Agrees() && SlashFreeIds(name, docs)
      {
        Perform(ops[i]);
      }
    }

    /** One of them; an insert over a stored id or with a slash in the id is not performed. */
    method Perform(op: Op)
      requires Agrees() && SlashFreeIds(name, docs) && forall doc :: SizedAlike(cfg, doc)
      modifies this
      ensures Agrees() && SlashFreeIds(name, docs)
    {
      hide Expected, Small, SizedAlike;
      match op
      case InsertOp(id, data, shardId) =>
        if id !in docs && SlashFree(id) {
          var doc := InsertWithId(id, data, shardId);
        }
      case UpdateOp(shardId, matches, logged, rewrite) =>
        Update(shardId, matches, logged, rewrite);
      case DeleteOp(shardId, matches, logged, commits) =>
        var deleted, ok, gone := Delete(shardId, matches, logged, commits);
    }

    /** RebuildBlock: every key under the block's prefix goes, then every document that decodes as
        stored is indexed anew, large ones included. */
    method Rebuild()
      modifies this`index
      ensures index == (set k <- old(index) | !HasPrefix(k, IndexBlockPrefix(name))) + AllKeys(cfg, name, docs)
      ensures (forall k <- old(index) :: HasPrefix(k, IndexBlockPrefix(name))) && SlashFreeIds(name, docs) ==>
                (Agrees() <==> KeyedIffSmall(cfg, name, docs))
    {
      index := set k <- index | !HasPrefix(k, IndexBlockPrefix(name));
      ghost var kept := index;
      hide KeysFor, KeysOf, HasPrefix;
      assert KeysOf(cfg, name, docs, {}) == {} by { NoKeys(cfg, name, docs); }
      var todo := docs.Keys;
      assert docs.Keys - todo == {};
      while todo != {}
        invariant todo <= docs.Keys
        invariant index == kept + KeysOf(cfg, name, docs, docs.Keys - todo)
      {
        var id :| id in todo;
        KeysNext(cfg, name, docs, docs.Keys - todo, id);
        assert docs.Keys - todo + {id} == docs.Keys - (todo - {id});
        todo := todo - {id};
        if !cfg.packed(docs[id]) {
          BuildInto(docs[id]);
        }
      }
      assert docs.Keys - todo == docs.Keys;
      if SlashFreeIds(name, docs) {
        RebuildRestores(cfg, name, docs);
      }
    }

    /** Prefix scan: the id part of every key under the prefix, in the order the scan delivers them.
        An id comes back once for every key it is read from. */
    method LookupByIndex(field: string, value: string) returns (ids: seq<string>, ghost keys: seq<string>)
      ensures ReadFrom(keys, ids) && KeySet(keys) == HitKeys(index, name, field, value)
      ensures forall id :: id in ids <==> id in LookupIds(index, name, field, value)
      ensures |ids| <= |index|
    {
      var todo := index;
      ghost var done: set<string> := {};
      ids, keys := [], [];
      hide HitKeys, ReadFrom, KeySet, Split, HasPrefix, IndexPrefix, DecodeId;
      NoHits(name, field, value);
      while todo != {}
        invariant todo + done == index && todo !! done && |ids| <= |done|
        invariant ReadFrom(keys, ids) && KeySet(keys) == HitKeys(done, name, field, value) <= done
        decreases todo
      {
        var k :| k in todo;
        HitNext(done, k, name, field, value);
        TodoNext(todo, done, k);
        if HasPrefix(k, IndexPrefix(name, field, value)) && |Split(k)| >= 5 {
          ReadNext(keys, ids, k);
          ids, keys := ids + [Split(k)[4]], keys + [k];
        }
        todo, done := todo - {k}, done + {k};
      }
      assert done == index;
      DecodedIds(keys, ids);
      IdsAreSet(ids);
    }

    /** Count of a single equality: the number of keys under the prefix. */
    method CountByIndex(field: string, value: string) returns (total: nat)
      ensures total == |HitKeys(index, name, field, value)|
    {
      var ids, keys := LookupByIndex(field, value);
      total := |ids|;
      KeyCount(keys);
    }
  }

  // ---- what a prefix scan reads ----

  function HitKeys(index: set<string>, block: string, field: string, value: string): set<string> {
    set k <- index | HasPrefix(k, IndexPrefix(block, field, value)) && |Split(k)| >= 5
  }

  function Decoded(keys: set<string>): set<string> {
    set k <- keys :: DecodeId(k)
  }

  function KeySet(keys: seq<string>): set<string> {
    set k <- keys
  }

  function IdSet(ids: seq<string>): set<string> {
    set id <- ids
  }

  predicate NoRepeats(s: seq<string>) {
    forall i, j :: 0 <= i < j < |s| ==> s[i] != s[j]
  }

  /** The ids come from these keys, one key each. */
  ghost predicate ReadFrom(keys: seq<string>, ids: seq<string>) {
    && |keys| == |ids| && NoRepeats(keys)
    && forall i :: 0 <= i < |ids| ==> ids[i] == DecodeId(keys[i])
  }

  /** No id is read from two of the keys. */
  ghost predicate DecodesOnce(keys: set<string>) {
    forall k, l :: k in keys && l in keys && DecodeId(k) == DecodeId(l) ==> k == l
  }

  lemma DecodedIds(keys: seq<string>, ids: seq<string>)
    requires ReadFrom(keys, ids)
    ensures IdSet(ids) == Decoded(KeySet(keys))
    ensures DecodesOnce(KeySet(keys)) ==> NoRepeats(ids)
  {
    hide DecodeId;
    forall id ensures id in IdSet(ids) <==> id in Decoded(KeySet(keys)) {
      if id in IdSet(ids) {
        var i :| 0 <= i < |ids| && ids[i] == id;
        assert keys[i] in KeySet(keys);
      }
      if id in Decoded(KeySet(keys)) {
        var k :| k in KeySet(keys) && DecodeId(k) == id;
        var i :| 0 <= i < |keys| && keys[i] == k;
        assert ids[i] == id;
      }
    }
    if DecodesOnce(KeySet(keys)) {
      forall i, j | 0 <= i < j < |ids| ensures ids[i] != ids[j] {
        assert keys[i] in KeySet(keys) && keys[j] in KeySet(keys) && keys[i] != keys[j];
      }
    }
  }

  lemma {:induction false} KeyCount(keys: seq<string>)
    requires NoRepeats(keys)
    ensures |KeySet(keys)| == |keys|
  {
    if keys != [] {
      var init, last := keys[..|keys| - 1], keys[|keys| - 1];
      KeyCount(init);
      assert KeySet(keys) == KeySet(init) + {last};
    }
  }

  lemma TodoNext(todo: set<string>, done: set<string>, k: string)
    requires k in todo && todo !! done
    ensures todo - {k} + (done + {k}) == todo + done && todo - {k} !! done + {k} && |done + {k}| == |done| + 1
  {
  }

  lemma IdsAreSet(ids: seq<string>)
    ensures forall id :: id in ids <==> id in IdSet(ids)
  {
  }

  lemma ReadNext(keys: seq<string>, ids: seq<string>, k: string)
    requires ReadFrom(keys, ids) && k !in KeySet(keys) && |Split(k)| >= 5
    ensures ReadFrom(keys + [k], ids + [Split(k)[4]]) && KeySet(keys + [k]) == KeySet(keys) + {k}
  {
    assert forall i :: 0 <= i < |keys| ==> keys[i] in KeySet(keys);
    hide Split;
  }

  lemma NoHits(block: string, field: string, value: string)
    ensures HitKeys({}, block, field, value) == KeySet([]) == {} && ReadFrom([], [])
  {
  }

  lemma HitNext(keys: set<string>, k: string, block: string, field: string, value: string)
    ensures HitKeys(keys + {k}, block, field, value) == HitKeys(keys, block, field, value) +
              if HasPrefix(k, IndexPrefix(block, field, value)) && |Split(k)| >= 5 then {k} else {}
  {
    hide Split, IndexPrefix;
  }

  /** The keys a rebuild finds in a document: none if it cannot decode it. */
  function PlainKeys(cfg: IndexConfig, block: string, doc: Doc): set<string> {
    if cfg.packed(doc) then {} else KeysFor(cfg, block, doc)
  }

  function KeysOf(cfg: IndexConfig, block: string, docs: Docs, ids: set<string>): set<string>
    requires ids <= docs.Keys
  {
    set id <- ids, k <- PlainKeys(cfg, block, docs[id]) :: k
  }

  function AllKeys(cfg: IndexConfig, block: string, docs: Docs): set<string> {
    KeysOf(cfg, block, docs, docs.Keys)
  }

  lemma NoKeys(cfg: IndexConfig, block: string, docs: Docs)
    ensures KeysOf(cfg, block, docs, {}) == {}
  {
  }

  lemma KeysNext(cfg: IndexConfig, block: string, docs: Docs, ids: set<string>, id: string)
    requires ids <= docs.Keys && id in docs
    ensures KeysOf(cfg, block, docs, ids + {id}) == KeysOf(cfg, block, docs, ids) + PlainKeys(cfg, block, docs[id])
  {
    hide PlainKeys;
  }

  function IdsOf(entries: seq<(string, set<string>)>): set<string> {
    set e <- entries :: e.0
  }

  predicate DistinctIds(entries: seq<(string, set<string>)>) {
    forall i, j :: 0 <= i < j < |entries| ==> entries[i].0 != entries[j].0
  }

  /** Every batch of n deletes can be committed. */
  ghost predicate AllCommit(commits: nat -> bool, n: nat) {
    forall k: nat :: k * 10000 < n ==> commits(k)
  }

  /** The first so many batches, of the first start deletes, were committed. */
  ghost predicate Committed(commits: nat -> bool, n: nat, batches: nat, start: nat) {
    && start == (if 10000 * batches < n then 10000 * batches else n)
    && forall k: nat :: k < batches ==> commits(k)
  }

  lemma NoCommits(commits: nat -> bool, n: nat)
    ensures Committed(commits, n, 0, 0) && (n == 0 ==> AllCommit(commits, n))
  {
  }

  lemma NextCommit(commits: nat -> bool, n: nat, batches: nat, start: nat)
    requires Committed(commits, n, batches, start) && start < n
    ensures !commits(batches) ==> !AllCommit(commits, n)
    ensures commits(batches) ==> (
      var end := if start + 10000 < n then start + 10000 else n;
      Committed(commits, n, batches + 1, end) && (end == n ==> AllCommit(commits, n)))
  {
    assert batches * 10000 < n;
  }

  lemma {:induction false} IdCount(entries: seq<(string, set<string>)>)
    requires DistinctIds(entries)
    ensures |IdsOf(entries)| == |entries|
  {
    if entries != [] {
      var init := entries[..|entries| - 1];
      IdCount(init);
      NextId(entries, |init|);
      assert entries[..|init| + 1] == entries;
    }
  }

  lemma NextBatch(entries: seq<(string, set<string>)>, start: nat, end: nat)
    requires DistinctIds(entries) && start <= end <= |entries|
    ensures IdsOf(entries[..end]) == IdsOf(entries[..start]) + IdsOf(entries[start..end])
    ensures IdsOf(entries[..start]) !! IdsOf(entries[start..end])
    ensures |IdsOf(entries[..end])| == |IdsOf(entries[..start])| + (end - start)
    ensures DistinctIds(entries[start..end])
  {
    assert entries[..end] == entries[..start] + entries[start..end];
    IdCount(entries[..end]);
    IdCount(entries[..start]);
  }

  lemma MinusTwice<V>(m: map<string, V>, a: set<string>, b: set<string>)
    ensures m - a - b == m - (a + b)
  {
  }

  /** Each entry pairs a stored document's id with its index keys. */
  ghost predicate Entries(cfg: IndexConfig, block: string, docs: Docs, entries: seq<(string, set<string>)>) {
    forall e :: e in entries ==> e.0 in docs && e.1 == KeysFor(cfg, block, docs[e.0])
  }

  lemma StillStored(cfg: IndexConfig, block: string, docs: Docs, gone: set<string>, entries: seq<(string, set<string>)>,
                    start: nat, end: nat)
    requires start <= end <= |entries| && IdsOf(entries[start..end]) !! gone && Entries(cfg, block, docs, entries)
    ensures Entries(cfg, block, docs - gone, entries[start..end])
  {
    hide KeysFor;
    var rest := docs - gone;
    forall e | e in entries[start..end] ensures e.0 in rest && e.1 == KeysFor(cfg, block, rest[e.0]) {
      assert e.0 in IdsOf(entries[start..end]) && e in entries;
    }
  }

  lemma IdsOfPart(entries: seq<(string, set<string>)>, n: nat)
    requires n <= |entries|
    ensures IdsOf(entries[..n]) <= IdsOf(entries)
  {
    assert forall e :: e in entries[..n] ==> e in entries;
  }

  lemma NextId(entries: seq<(string, set<string>)>, i: nat)
    requires i < |entries|
    ensures IdsOf(entries[..i + 1]) == IdsOf(entries[..i]) + {entries[i].0}
    ensures (forall j :: 0 <= j < i ==> entries[j].0 != entries[i].0) ==> entries[i].0 !in IdsOf(entries[..i])
  {
    assert entries[..i + 1] == entries[..i] + [entries[i]];
  }

  lemma KeyOwner(cfg: IndexConfig, block: string, docs: Docs, id: string, k: string)
    requires SlashFreeIds(block, docs)
    requires id in docs && k in KeysFor(cfg, block, docs[id])
    ensures k in AllKeys(cfg, block, docs) <==> !cfg.packed(docs[id])
    ensures k in Expected(cfg, block, docs) <==> Small(cfg, docs[id])
  {
    if Small(cfg, docs[id]) {
      assert k in SmallKeys(cfg, block, docs[id]);
    }
    if !cfg.packed(docs[id]) {
      assert k in PlainKeys(cfg, block, docs[id]);
    }
    if k in Expected(cfg, block, docs) {
      var other :| other in docs && k in SmallKeys(cfg, block, docs[other]);
      if other != id {
        KeysDisjoint(cfg, block, docs[id], docs[other], k);
      }
    }
    if k in AllKeys(cfg, block, docs) {
      var other :| other in docs && k in PlainKeys(cfg, block, docs[other]);
      if other != id {
        KeysDisjoint(cfg, block, docs[id], docs[other], k);
      }
    }
  }

  /** Among the documents with something to index, the small ones are those stored uncompressed. */
  ghost predicate KeyedIffSmall(cfg: IndexConfig, block: string, docs: Docs) {
    forall id, k :: id in docs && k in KeysFor(cfg, block, docs[id]) ==> (Small(cfg, docs[id]) <==> !cfg.packed(docs[id]))
  }

  /** A rebuild restores what inserts store exactly then: a large document stored plain gains keys
      by it, a small one stored compressed loses them. */
  lemma RebuildRestores(cfg: IndexConfig, block: string, docs: Docs)
    requires SlashFreeIds(block, docs)
    ensures AllKeys(cfg, block, docs) == Expected(cfg, block, docs) <==> KeyedIffSmall(cfg, block, docs)
  {
    var all, expected := AllKeys(cfg, block, docs), Expected(cfg, block, docs);
    if all == expected {
      forall id, k | id in docs && k in KeysFor(cfg, block, docs[id])
        ensures Small(cfg, docs[id]) <==> !cfg.packed(docs[id])
      {
        KeyOwner(cfg, block, docs, id, k);
      }
    }
    if KeyedIffSmall(cfg, block, docs) {
      forall k ensures k in all <==> k in expected {
        if k in all {
          var id :| id in docs && k in PlainKeys(cfg, block, docs[id]);
          KeyOwner(cfg, block, docs, id, k);
        }
        if k in expected {
          var id :| id in docs && k in SmallKeys(cfg, block, docs[id]);
          KeyOwner(cfg, block, docs, id, k);
        }
      }
    }
  }

  // ---- lookups ----

  function LookupIds(index: set<string>, block: string, field: string, value: string): set<string> {
    Decoded(HitKeys(index, block, field, value))
  }

  lemma KeyHasPrefix(block: string, field: string, value: string, id: string)
    ensures HasPrefix(IndexKey(block, field, value, id), IndexPrefix(block, field, value))
  {
    var p := IndexPrefix(block, field, value);
    assert IndexKey(block, field, value, id)[..|p|] == p;
  }

  /** A lookup misses no small document that stores the value, even over a stale index. */
  lemma LookupMissesNothing(cfg: IndexConfig, block: string, docs: Docs, index: set<string>, id: string, field: string)
    requires SlashFreeIds(block, docs) && Expected(cfg, block, docs) <= index
    requires id in docs && Small(cfg, docs[id]) && Indexed(cfg, docs[id], field)
    requires SlashFree(field) && SlashFree(cfg.sprint(docs[id].data[field]))
    ensures id in LookupIds(index, block, field, cfg.sprint(docs[id].data[field]))
  {
    var value := cfg.sprint(docs[id].data[field]);
    var k := IndexKey(block, field, value, id);
    assert k in SmallKeys(cfg, block, docs[id]);
    assert k in Expected(cfg, block, docs);
    KeyHasPrefix(block, field, value, id);
    IndexKeyParts(block, field, value, id);
    DecodesSlashFree(block, field, value, id);
  }

  /** Every part of every stored key is slash-free. */
  ghost predicate SlashFreeParts(cfg: IndexConfig, docs: Docs) {
    forall id, f :: id in docs && Indexed(cfg, docs[id], f) ==> SlashFree(f) && SlashFree(cfg.sprint(docs[id].data[f]))
  }

  /** A document that stores the value in the field, among those that have keys. */
  predicate Holds(cfg: IndexConfig, doc: Doc, field: string, text: string) {
    Small(cfg, doc) && Indexed(cfg, doc, field) && cfg.sprint(doc.data[field]) == text
  }

  /** What a lookup means to return, and what the prefix of the empty text widens it to. */
  predicate Reached(cfg: IndexConfig, doc: Doc, field: string, value: string) {
    Holds(cfg, doc, field, value) || (value == "" && Small(cfg, doc) && Indexed(cfg, doc, field))
  }

  /** With an exact index and slash-free parts, a lookup reads one key for each document that holds the
      value; the lookup of the empty text reads one for each that has the field at all. */
  lemma LookupReaches(cfg: IndexConfig, block: string, docs: Docs, field: string, value: string, id: string)
    requires SlashFreeIds(block, docs) && SlashFreeParts(cfg, docs) && SlashFree(field) && SlashFree(value)
    ensures id in LookupIds(Expected(cfg, block, docs), block, field, value) <==>
              id in docs && Reached(cfg, docs[id], field, value)
  {
    var index := Expected(cfg, block, docs);
    if id in LookupIds(index, block, field, value) {
      var k :| k in HitKeys(index, block, field, value) && DecodeId(k) == id;
      HitOwner(cfg, block, docs, field, value, k);
    }
    if id in docs && Reached(cfg, docs[id], field, value) {
      var text := cfg.sprint(docs[id].data[field]);
      LookupMissesNothing(cfg, block, docs, index, id, field);
      if value == "" {
        var k :| k in HitKeys(index, block, field, text) && DecodeId(k) == id;
        EmptyTextWidens(block, field, text, k);
        assert k in HitKeys(index, block, field, "");
      }
    }
  }

  lemma EmptyTextWidens(block: string, field: string, text: string, k: string)
    requires HasPrefix(k, IndexPrefix(block, field, text))
    ensures HasPrefix(k, IndexPrefix(block, field, ""))
  {
    var p, q := IndexPrefix(block, field, ""), IndexPrefix(block, field, text);
    assert q[..|p|] == p;
    assert k[..|q|] == q;
    assert k[..|p|] == q[..|p|];
  }

  /** The key behind a hit, taken apart. */
  lemma HitOwner(cfg: IndexConfig, block: string, docs: Docs, field: string, value: string, k: string)
    requires SlashFreeIds(block, docs) && SlashFreeParts(cfg, docs) && SlashFree(field) && SlashFree(value)
    requires k in HitKeys(Expected(cfg, block, docs), block, field, value)
    ensures var id := DecodeId(k);
      && id in docs && Reached(cfg, docs[id], field, value)
      && k == IndexKey(block, field, cfg.sprint(docs[id].data[field]), id)
  {
    var id :| id in docs && k in SmallKeys(cfg, block, docs[id]);
    var f :| f in docs[id].data && Indexed(cfg, docs[id], f) && k == IndexKey(block, f, cfg.sprint(docs[id].data[f]), id);
    hide Expected, Split, IndexKey, DecodeId, IndexPrefix, SlashFree, Scalar, ShouldIndex;
    DecodesSlashFree(block, f, cfg.sprint(docs[id].data[f]), id);
    HitParts(block, f, cfg.sprint(docs[id].data[f]), id, field, value);
  }

  lemma HitParts(block: string, f: string, v: string, id: string, field: string, value: string)
    requires SlashFree(block) && SlashFree(f) && SlashFree(v) && SlashFree(id) && SlashFree(field) && SlashFree(value)
    requires HasPrefix(IndexKey(block, f, v, id), IndexPrefix(block, field, value))
    ensures f == field && (value != "" ==> v == value)
  {
    var k, p := IndexKey(block, f, v, id), IndexPrefix(block, field, value);
    var rest := k[|p|..];
    assert k == p + rest;
    hide Split, DecodeId;
    if value == "" {
      SameField(block, f, v, id, field, rest);
    } else {
      SameParts(block, f, v, id, field, value, rest);
    }
  }

  /** So no document is read twice. */
  lemma HitsDecodeOnce(cfg: IndexConfig, block: string, docs: Docs, field: string, value: string)
    requires SlashFreeIds(block, docs) && SlashFreeParts(cfg, docs) && SlashFree(field) && SlashFree(value)
    ensures DecodesOnce(HitKeys(Expected(cfg, block, docs), block, field, value))
  {
    var hits := HitKeys(Expected(cfg, block, docs), block, field, value);
    forall k, l | k in hits && l in hits && DecodeId(k) == DecodeId(l) ensures k == l {
      HitOwner(cfg, block, docs, field, value, k);
      HitOwner(cfg, block, docs, field, value, l);
    }
  }

  /** With an exact index and slash-free parts, a lookup returns exactly the ids holding the value when
      the value has a text; for the empty text exactly when no document has another text in the field. */
  lemma LookupExact(cfg: IndexConfig, block: string, docs: Docs, field: string, value: string)
    requires SlashFreeIds(block, docs) && SlashFreeParts(cfg, docs) && SlashFree(field) && SlashFree(value)
    ensures LookupIds(Expected(cfg, block, docs), block, field, value) == (set id <- docs | Holds(cfg, docs[id], field, value)) <==>
              value != "" || NoOtherText(cfg, docs, field)
  {
    hide Expected, LookupIds;
    var found := LookupIds(Expected(cfg, block, docs), block, field, value);
    var holders := set id <- docs | Holds(cfg, docs[id], field, value);
    forall id ensures id in found <==> id in docs && Reached(cfg, docs[id], field, value) {
      LookupReaches(cfg, block, docs, field, value, id);
    }
    if value == "" && !NoOtherText(cfg, docs, field) {
      var id :| id in docs && Small(cfg, docs[id]) && Indexed(cfg, docs[id], field) && cfg.sprint(docs[id].data[field]) != "";
      assert id in found && id !in holders;
    } else {
      assert found == holders;
    }
  }

  ghost predicate NoOtherText(cfg: IndexConfig, docs: Docs, field: string) {
    forall id <- docs :: Small(cfg, docs[id]) && Indexed(cfg, docs[id], field) ==> cfg.sprint(docs[id].data[field]) == ""
  }

  /** So a count by index is the number of documents the lookup reaches, the empty text included. */
  lemma CountReaches(cfg: IndexConfig, block: string, docs: Docs, field: string, value: string)
    requires SlashFreeIds(block, docs) && SlashFreeParts(cfg, docs) && SlashFree(field) && SlashFree(value)
    ensures |HitKeys(Expected(cfg, block, docs), block, field, value)| == |set id <- docs | Reached(cfg, docs[id], field, value)|
  {
    var hits := HitKeys(Expected(cfg, block, docs), block, field, value);
    HitsDecodeOnce(cfg, block, docs, field, value);
    DecodedCount(hits);
    forall id ensures id in Decoded(hits) <==> id in docs && Reached(cfg, docs[id], field, value) {
      LookupReaches(cfg, block, docs, field, value, id);
    }
    assert Decoded(hits) == set id <- docs | Reached(cfg, docs[id], field, value);
  }

  lemma {:induction false} DecodedCount(keys: set<string>)
    requires DecodesOnce(keys)
    ensures |Decoded(keys)| == |keys|
  {
    hide DecodeId;
    if keys != {} {
      var k :| k in keys;
      DecodedCount(keys - {k});
      assert Decoded(keys) == Decoded(keys - {k}) + {DecodeId(k)};
      assert DecodeId(k) !in Decoded(keys - {k});
    }
  }

  lemma SameField(block: string, f: string, v: string, id: string, field: string, rest: string)
    requires SlashFree(block) && SlashFree(f) && SlashFree(v) && SlashFree(id) && SlashFree(field)
    requires IndexKey(block, f, v, id) == "s/" + block + "/" + field + "/" + rest
    ensures f == field
  {
    IndexKeyParts(block, f, v, id);
    PrefixParts(block, field, rest);
    SplitParts(f);
    SplitParts(field);
    assert Split(IndexKey(block, f, v, id))[2] == f;
    assert Split(IndexKey(block, f, v, id))[2] == field;
  }

  lemma PrefixParts(block: string, field: string, rest: string)
    requires SlashFree(block) && SlashFree(field)
    ensures Split("s/" + block + "/" + field + "/" + rest) == ["s"] + ([block] + ([field] + Split(rest)))
  {
    hide Split;
    SplitConcat("s", block + "/" + (field + "/" + rest));
    SplitConcat(block, field + "/" + rest);
    SplitConcat(field, rest);
    SplitParts("s");
    SplitParts(block);
    SplitParts(field);
    SlashRegroup(block, field, rest);
  }

  lemma SlashRegroup(block: string, field: string, rest: string)
    ensures "s/" + block + "/" + field + "/" + rest == "s" + "/" + (block + "/" + (field + "/" + rest))
  {
    var l, r := "s/" + block + "/" + field + "/" + rest, "s" + "/" + (block + "/" + (field + "/" + rest));
    assert "s/" == "s" + "/";
    assert l == r;
  }

  lemma SameParts(block: string, f: string, v: string, id: string, field: string, value: string, rest: string)
    requires SlashFree(block) && SlashFree(f) && SlashFree(v) && SlashFree(id) && SlashFree(field) && SlashFree(value)
    requires IndexKey(block, f, v, id) == IndexKey(block, field, value, rest)
    ensures f == field && v == value && DecodeId(IndexKey(block, f, v, id)) == id
  {
    IndexKeyParts(block, f, v, id);
    IndexKeyParts(block, field, value, rest);
    SplitParts(f);
    SplitParts(v);
    SplitParts(id);
    SplitParts(field);
    SplitParts(value);
    var p := Split(IndexKey(block, f, v, id));
    assert p[2] == f && p[3] == v && p[4] == id;
    assert p[2] == field && p[3] == value;
  }
}
