/** The key layout of keys.go: slash-separated parts under one-letter prefixes. */
module Keys {

  function DocPrefix(block: string): string {
    "d/" + block + "/"
  }

  function MetaKey(block: string): string {
    "m/" + block
  }

  function IndexBlockPrefix(block: string): string {
    "s/" + block + "/"
  }

  function IndexKey(block: string, field: string, value: string, id: string): string {
    "s/" + block + "/" + field + "/" + value + "/" + id
  }

  function IndexPrefix(block: string, field: string, value: string): string {
    if value == "" then "s/" + block + "/" + field + "/"
    else "s/" + block + "/" + field + "/" + value + "/"
  }

  predicate SlashFree(s: string) {
    '/' !in s
  }

  function Split(key: string): (parts: seq<string>)
    ensures |parts| >= 1
  {
    if key == "" then [""]
    else
      var rest := Split(key[1..]);
      if key[0] == '/' then [""] + rest else Lengthen(key[0], rest)
  }

  function Lengthen(c: char, parts: seq<string>): seq<string>
    requires parts != []
  {
    [[c] + parts[0]] + parts[1..]
  }

  lemma LengthenConcat(c: char, p: seq<string>, q: seq<string>)
    requires p != []
    ensures Lengthen(c, p + q) == Lengthen(c, p) + q
    ensures [""] + (p + q) == [""] + p + q
  {
  }

  lemma {:induction false} SplitConcat(a: string, b: string)
    ensures Split(a + "/" + b) == Split(a) + Split(b)
  {
    var key := a + "/" + b;
    if a == "" {
      assert key[1..] == b;
    } else {
      SplitConcat(a[1..], b);
      assert key[1..] == a[1..] + "/" + b;
      LengthenConcat(key[0], Split(a[1..]), Split(b));
    }
  }

  lemma {:induction false} SplitParts(s: string)
    ensures |Split(s)| == 1 <==> SlashFree(s)
    ensures SlashFree(s) ==> Split(s) == [s]
    ensures forall part :: part in Split(s) ==> SlashFree(part)
  {
    if s != "" {
      SplitParts(s[1..]);
      assert s == [s[0]] + s[1..];
      var rest := Split(s[1..]);
      assert rest[0] in rest;
      forall part | part in Split(s) ensures SlashFree(part) {
        assert part in rest || part == "" || part == [s[0]] + rest[0];
      }
    }
  }

  /** What a prefix scan takes for the id: the fifth part of the key. */
  function DecodeId(key: string): string {
    if |Split(key)| >= 5 then Split(key)[4] else ""
  }

  lemma IndexKeyNested(block: string, field: string, value: string, id: string)
    ensures IndexKey(block, field, value, id) == "s" + "/" + (block + "/" + (field + "/" + value + "/" + id))
  {
    var l, r := IndexKey(block, field, value, id), "s" + "/" + (block + "/" + (field + "/" + value + "/" + id));
    assert "s/" == "s" + "/";
    assert l == r;
  }

  lemma SplitText(field: string, value: string, id: string)
    ensures Split(field + "/" + value + "/" + id) == Split(field) + Split(value) + Split(id)
  {
    SplitConcat(field + "/" + value, id);
    SplitConcat(field, value);
  }

  lemma IndexKeyParts(block: string, field: string, value: string, id: string)
    requires SlashFree(block)
    ensures Split(IndexKey(block, field, value, id)) == ["s"] + ([block] + (Split(field) + Split(value) + Split(id)))
  {
    hide Split, IndexKey;
    IndexKeyNested(block, field, value, id);
    var text := field + "/" + value + "/" + id;
    SplitConcat("s", block + "/" + text);
    SplitConcat(block, text);
    SplitText(field, value, id);
    SplitParts("s");
    SplitParts(block);
  }

  lemma DecodesSlashFree(block: string, field: string, value: string, id: string)
    requires SlashFree(block) && SlashFree(field) && SlashFree(value) && SlashFree(id)
    ensures DecodeId(IndexKey(block, field, value, id)) == id
  {
    IndexKeyParts(block, field, value, id);
    SplitParts(field);
    SplitParts(value);
    SplitParts(id);
  }

  /** A field and value give every id back exactly when neither contains a slash. */
  lemma DecodesAllIds(block: string, field: string, value: string)
    requires SlashFree(block)
    ensures (forall id :: SlashFree(id) ==> DecodeId(IndexKey(block, field, value, id)) == id) <==>
              SlashFree(field) && SlashFree(value)
  {
    if SlashFree(field) && SlashFree(value) {
      forall id | SlashFree(id) ensures DecodeId(IndexKey(block, field, value, id)) == id {
        DecodesSlashFree(block, field, value, id);
      }
    } else {
      hide DecodeId, IndexKey;
      var id := ThirdPart(block, field, value);
    }
  }

  /** With a slash in either, the third of their parts passes for the id. */
  lemma ThirdPart(block: string, field: string, value: string) returns (id: string)
    requires SlashFree(block) && !(SlashFree(field) && SlashFree(value))
    ensures SlashFree(id) && DecodeId(IndexKey(block, field, value, id)) != id
  {
    hide Split, IndexKey;
    SplitParts(field);
    SplitParts(value);
    var fixed := Split(field) + Split(value);
    assert |fixed| > 2;
    id := fixed[2] + "x";
    assert fixed[2] in Split(field) || fixed[2] in Split(value);
    IndexKeyParts(block, field, value, id);
    assert DecodeId(IndexKey(block, field, value, id)) == fixed[2];
    assert |id| == |fixed[2]| + 1;
  }

  /** Index keys of different slash-free ids never collide, whatever the fields and values are. */
  lemma KeysOfDifferentIds(block: string, f1: string, v1: string, id1: string, f2: string, v2: string, id2: string)
    requires SlashFree(block) && SlashFree(id1) && SlashFree(id2) && id1 != id2
    ensures IndexKey(block, f1, v1, id1) != IndexKey(block, f2, v2, id2)
  {
    IndexKeyParts(block, f1, v1, id1);
    IndexKeyParts(block, f2, v2, id2);
    SplitParts(id1);
    SplitParts(id2);
    var p1, p2 := Split(IndexKey(block, f1, v1, id1)), Split(IndexKey(block, f2, v2, id2));
    assert p1[|p1| - 1] == id1 && p2[|p2| - 1] == id2;
  }
}
