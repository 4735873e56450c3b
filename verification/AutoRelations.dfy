/** The auto-relation records shared by the graph walk and the cycle finder: user U read
    document D, first seen at some time. */
module AutoRelations {

  datatype AutoRelation = AutoRelation(docId: string, userId: string, firstSeen: int)

  datatype Kind = Doc | User

  function KindName(kind: Kind): string {
    match kind
    case Doc => "doc"
    case User => "user"
  }

  /** The key under which the source tracks a node: kind, colon, id. */
  function NodeKey(kind: Kind, id: string): string {
    KindName(kind) + ":" + id
  }

  lemma NodeKeyInjective(k1: Kind, id1: string, k2: Kind, id2: string)
    requires NodeKey(k1, id1) == NodeKey(k2, id2)
    ensures k1 == k2 && id1 == id2
  {
    var key := NodeKey(k1, id1);
    assert key[0] == KindName(k1)[0] && key[0] == KindName(k2)[0];
    var n := |KindName(k1)| + 1;
    assert key[n..] == id1 && key[n..] == id2;
  }
}
