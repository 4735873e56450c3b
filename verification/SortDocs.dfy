/** The mixed ordering of sort_utils.go: numbers where a number is seen, text where both sides
    count as zero, several keys with DESC flips, sorted stably. */
module SortDocs {
  import opened JsonValues
  import opened NestedFields
  import opened QueryFilter
  import opened Text
  import Sorting = StableSorting

  /** Floating-point values up to rounding: a text such as "NaN" or "inf" converts to the special ones. */
  datatype Float = NaN | NegInf | Fin(r: real) | PosInf

  predicate Below(x: Float, y: Float) {
    match (x, y)
    case (Fin(a), Fin(b)) => a < b
    case (NegInf, Fin(_)) => true
    case (NegInf, PosInf) => true
    case (Fin(_), PosInf) => true
    case _ => false
  }

  /** What the comparison looks at: the number a value converts to, and its text. */
  datatype SortKey = SortKey(num: Float, text: string)

  function CompareKeys(a: SortKey, b: SortKey): int {
    if a.num != Fin(0.0) || b.num != Fin(0.0) then
      if Below(a.num, b.num) then -1 else if Below(b.num, a.num) then 1 else 0
    else if TextBelow(a.text, b.text) then -1 else if TextBelow(b.text, a.text) then 1 else 0
  }

  /** Less-or-equal by the comparison is transitive on the set, and its sign flips with the arguments. */
  ghost predicate TotalPreorder(keys: set<SortKey>) {
    && (forall a, b :: a in keys && b in keys ==> CompareKeys(a, b) == -CompareKeys(b, a))
    && (forall a, b, c :: a in keys && b in keys && c in keys && CompareKeys(a, b) <= 0 && CompareKeys(b, c) <= 0 ==>
          CompareKeys(a, c) <= 0)
  }

  lemma CompareFlips(a: SortKey, b: SortKey)
    ensures CompareKeys(a, b) == -CompareKeys(b, a)
  {
    TextTotal(a.text, b.text);
  }

  lemma CompareTransitive(a: SortKey, b: SortKey, c: SortKey)
    requires a.num != NaN && b.num != NaN && c.num != NaN
    requires CompareKeys(a, b) <= 0 && CompareKeys(b, c) <= 0
    ensures CompareKeys(a, c) <= 0
  {
    if a.num == b.num == c.num == Fin(0.0) {
      TextTotal(a.text, c.text);
      TextTotal(a.text, b.text);
      TextTotal(b.text, c.text);
      if TextBelow(c.text, a.text) {
        if TextBelow(a.text, b.text) { TextTransitive(c.text, a.text, b.text); }
      }
    }
  }

  /** The mixed comparison orders a set of values consistently exactly when none of them is NaN,
      or all that are not compare equal. */
  lemma PreorderIffNoNaN(keys: set<SortKey>)
    ensures TotalPreorder(keys) <==>
              || (forall k :: k in keys ==> k.num != NaN)
              || (forall a, b :: a in keys && b in keys && a.num != NaN && b.num != NaN ==> CompareKeys(a, b) == 0)
  {
    forall a, b | a in keys && b in keys ensures CompareKeys(a, b) == -CompareKeys(b, a) {
      CompareFlips(a, b);
    }
    if forall k :: k in keys ==> k.num != NaN {
      forall a, b, c | a in keys && b in keys && c in keys && CompareKeys(a, b) <= 0 && CompareKeys(b, c) <= 0
        ensures CompareKeys(a, c) <= 0
      {
        CompareTransitive(a, b, c);
      }
    } else if exists a, b :: a in keys && b in keys && a.num != NaN && b.num != NaN && CompareKeys(a, b) != 0 {
      var n :| n in keys && n.num == NaN;
      var a, b :| a in keys && b in keys && a.num != NaN && b.num != NaN && CompareKeys(a, b) != 0;
      var (hi, lo) := if CompareKeys(a, b) > 0 then (a, b) else (b, a);
      assert CompareKeys(hi, n) == 0 && CompareKeys(n, lo) == 0 && CompareKeys(hi, lo) > 0;
    } else {
      forall a, b | a in keys && b in keys ensures CompareKeys(a, b) == 0 {
      }
    }
  }

  /** Where no NaN occurs this is the comparison the filters use. */
  lemma CompareAgrees(m: Matching, conv: Conversion, a: Json, b: Json)
    requires conv.sprint == m.sprint && (forall v :: conv.toF64(v) == Fin(m.toF64(v)))
    ensures CompareNumbers(m, a, b) == CompareKeys(SortKey(conv.toF64(a), conv.sprint(a)), SortKey(conv.toF64(b), conv.sprint(b)))
  {
  }

  // ---- several keys ----

  datatype SortField = SortField(field: string, desc: bool)

  /** The host's number and text of a value. */
  datatype Conversion = Conversion(toF64: Json -> Float, sprint: Json -> string)

  function KeyOf(conv: Conversion, data: Data, field: string): SortKey {
    var v := GetNested(data, field);
    SortKey(conv.toF64(v), conv.sprint(v))
  }

  /** The comparator of sortDocs: the first key that differs decides, the other way round if DESC. */
  predicate Before(conv: Conversion, sorts: seq<SortField>, a: Data, b: Data) {
    if sorts == [] then false
    else
      var cmp := CompareKeys(KeyOf(conv, a, sorts[0].field), KeyOf(conv, b, sorts[0].field));
      if cmp != 0 then (if sorts[0].desc then cmp > 0 else cmp < 0)
      else Before(conv, sorts[1..], a, b)
  }

  ghost predicate NaNFree(conv: Conversion) {
    forall v :: conv.toF64(v) != NaN
  }

  lemma {:induction false} BeforeAsymmetric(conv: Conversion, sorts: seq<SortField>, a: Data, b: Data)
    ensures !(Before(conv, sorts, a, b) && Before(conv, sorts, b, a))
  {
    if sorts != [] {
      CompareFlips(KeyOf(conv, a, sorts[0].field), KeyOf(conv, b, sorts[0].field));
      BeforeAsymmetric(conv, sorts[1..], a, b);
    }
  }

  /** If a goes before c, every b is after a or before c: ties are an equivalence. */
  lemma {:induction false} BeforeWeak(conv: Conversion, sorts: seq<SortField>, a: Data, b: Data, c: Data)
    requires NaNFree(conv) && !Before(conv, sorts, a, b) && !Before(conv, sorts, b, c)
    ensures !Before(conv, sorts, a, c)
  {
    if sorts != [] {
      var f := sorts[0].field;
      var ka, kb, kc := KeyOf(conv, a, f), KeyOf(conv, b, f), KeyOf(conv, c, f);
      CompareFlips(ka, kb);
      CompareFlips(kb, kc);
      CompareFlips(ka, kc);
      if CompareKeys(kc, kb) <= 0 && CompareKeys(kb, ka) <= 0 { CompareTransitive(kc, kb, ka); }
      if CompareKeys(ka, kb) <= 0 && CompareKeys(kb, kc) <= 0 { CompareTransitive(ka, kb, kc); }
      if CompareKeys(ka, kc) <= 0 && CompareKeys(kc, kb) <= 0 { CompareTransitive(ka, kc, kb); }
      if CompareKeys(kb, kc) <= 0 && CompareKeys(kc, ka) <= 0 { CompareTransitive(kb, kc, ka); }
      if CompareKeys(kb, ka) <= 0 && CompareKeys(ka, kc) <= 0 { CompareTransitive(kb, ka, kc); }
      if CompareKeys(kc, ka) <= 0 && CompareKeys(ka, kb) <= 0 { CompareTransitive(kc, ka, kb); }
      if CompareKeys(ka, kb) == 0 && CompareKeys(kb, kc) == 0 {
        BeforeWeak(conv, sorts[1..], a, b, c);
      }
    }
  }

  function Comparator(conv: Conversion, sorts: seq<SortField>): (Data, Data) -> bool {
    (a, b) => Before(conv, sorts, a, b)
  }

  /** For any key list, the comparator is a strict weak order when no value converts to NaN. */
  lemma ComparatorIsStrictWeak(conv: Conversion, sorts: seq<SortField>)
    requires NaNFree(conv)
    ensures Sorting.StrictWeakOrder(Comparator(conv, sorts))
  {
    var less := Comparator(conv, sorts);
    forall x ensures !less(x, x) {
      BeforeAsymmetric(conv, sorts, x, x);
    }
    forall x, y, z | less(x, z) ensures less(x, y) || less(y, z) {
      if !less(x, y) && !less(y, z) { BeforeWeak(conv, sorts, x, y, z); }
    }
    forall x, y, z | less(x, y) && less(y, z) ensures less(x, z) {
      BeforeAsymmetric(conv, sorts, y, z);
      if !less(x, z) { BeforeWeak(conv, sorts, x, z, y); }
    }
  }

  // ---- the sort ----

  /** The same conversion with NaN read as zero: it agrees with the host wherever no NaN occurs. */
  function Cleaned(conv: Conversion): Conversion {
    Conversion(v => if conv.toF64(v) == NaN then Fin(0.0) else conv.toF64(v), conv.sprint)
  }

  ghost predicate KeysNaNFree(conv: Conversion, sorts: seq<SortField>, docs: seq<Data>) {
    forall d, s :: d in docs && s in sorts ==> KeyOf(conv, d, s.field).num != NaN
  }

  lemma {:induction false} CleanedAgrees(conv: Conversion, sorts: seq<SortField>, docs: seq<Data>, a: Data, b: Data)
    requires KeysNaNFree(conv, sorts, docs) && a in docs && b in docs
    ensures Before(Cleaned(conv), sorts, a, b) == Before(conv, sorts, a, b)
  {
    if sorts != [] {
      assert sorts[0] in sorts;
      assert KeysNaNFree(conv, sorts[1..], docs);
      CleanedAgrees(conv, sorts[1..], docs, a, b);
    }
  }

  /** Of two documents the first of which need not stand behind the other: where all earlier keys tie, key k
      is in order, from the smaller number to the greater or, under DESC, the other way round; by text where
      both numbers are zero. */
  lemma {:induction false} KeyInOrder(conv: Conversion, sorts: seq<SortField>, a: Data, b: Data, k: nat)
    requires k < |sorts| && !Before(conv, sorts, b, a)
    ensures
      (forall e :: 0 <= e < k ==>
         var (v, w) := (GetNested(a, sorts[e].field), GetNested(b, sorts[e].field));
         conv.toF64(v) == conv.toF64(w) && (conv.toF64(v) == Fin(0.0) ==> conv.sprint(v) == conv.sprint(w))) ==>
      var (v, w) := (GetNested(a, sorts[k].field), GetNested(b, sorts[k].field));
      var (lo, hi) := if sorts[k].desc then (w, v) else (v, w);
      && (conv.toF64(lo).Fin? && conv.toF64(hi).Fin? ==> conv.toF64(lo).r <= conv.toF64(hi).r)
      && (conv.toF64(lo) == PosInf ==> conv.toF64(hi) in {PosInf, NaN}) && (conv.toF64(hi) == NegInf ==> conv.toF64(lo) in {NegInf, NaN})
      && (conv.toF64(lo) == conv.toF64(hi) == Fin(0.0) ==>
            conv.sprint(lo) == conv.sprint(hi) || TextBelow(conv.sprint(lo), conv.sprint(hi)))
  {
    var (p, q) := (KeyOf(conv, a, sorts[0].field), KeyOf(conv, b, sorts[0].field));
    NotGreater(p, q);
    NotGreater(q, p);
    CompareFlips(p, q);
    hide GetNested, TextBelow, CompareKeys;
    if k > 0 && CompareKeys(q, p) == 0 {
      var rest := sorts[1..];
      assert forall e :: 0 <= e < |rest| ==> rest[e] == sorts[e + 1];
      KeyInOrder(conv, rest, a, b, k - 1);
      assert rest[k - 1] == sorts[k];
    }
  }

  lemma NotGreater(p: SortKey, q: SortKey)
    ensures p.num == q.num && (p.num == Fin(0.0) ==> p.text == q.text) ==> CompareKeys(q, p) == 0
    ensures CompareKeys(q, p) >= 0 ==>
      && (p.num.Fin? && q.num.Fin? ==> p.num.r <= q.num.r)
      && (p.num == PosInf ==> q.num in {PosInf, NaN}) && (q.num == NegInf ==> p.num in {NegInf, NaN})
      && (p.num == q.num == Fin(0.0) ==> p.text == q.text || TextBelow(p.text, q.text))
  {
    TextTotal(p.text, q.text);
  }

  /** sortDocs when no sort key is NaN: sorted by the comparator, and the only stable
      rearrangement that is. */
  method SortDocuments(conv: Conversion, sorts: seq<SortField>, docs: seq<Data>) returns (sorted: seq<Data>)
    ensures multiset(sorted) == multiset(docs)
    ensures KeysNaNFree(conv, sorts, docs) ==> Sorting.Sorted(sorted, Comparator(conv, sorts))
    ensures KeysNaNFree(conv, sorts, docs) ==>
              forall other :: Sorting.StablySorted(docs, other, Comparator(Cleaned(conv), sorts)) <==> other == sorted
    // the first key two documents differ in decides: ascending by number, or by text where both numbers are zero
    ensures KeysNaNFree(conv, sorts, docs) ==> forall i, j, k ::
              0 <= i < j < |sorted| && 0 <= k < |sorts| &&
              (forall e :: 0 <= e < k ==>
                 var (v, w) := (GetNested(sorted[i], sorts[e].field), GetNested(sorted[j], sorts[e].field));
                 conv.toF64(v) == conv.toF64(w) && (conv.toF64(v) == Fin(0.0) ==> conv.sprint(v) == conv.sprint(w))) ==>
              var (v, w) := (GetNested(sorted[i], sorts[k].field), GetNested(sorted[j], sorts[k].field));
              var (lo, hi) := if sorts[k].desc then (w, v) else (v, w);
              && (conv.toF64(lo).Fin? && conv.toF64(hi).Fin? ==> conv.toF64(lo).r <= conv.toF64(hi).r)
              && (conv.toF64(lo) == conv.toF64(hi) == Fin(0.0) ==>
                    conv.sprint(lo) == conv.sprint(hi) || TextBelow(conv.sprint(lo), conv.sprint(hi)))
  {
    var less := Comparator(conv, sorts);
    sorted := Sorting.StableSort(docs, less);
    Sorting.StableSortElements(docs, less);
    if KeysNaNFree(conv, sorts, docs) {
      OnlyStableSort(conv, sorts, docs);
      hide Before, GetNested, TextBelow, KeysNaNFree;
      forall i, j, k | 0 <= i < j < |sorted| && 0 <= k < |sorts| {
        KeyInOrder(conv, sorts, sorted[i], sorted[j], k);
      }
    }
  }

  lemma OnlyStableSort(conv: Conversion, sorts: seq<SortField>, docs: seq<Data>)
    requires KeysNaNFree(conv, sorts, docs)
    ensures
      var sorted := Sorting.StableSort(docs, Comparator(conv, sorts));
      && Sorting.Sorted(sorted, Comparator(conv, sorts))
      && forall other :: Sorting.StablySorted(docs, other, Comparator(Cleaned(conv), sorts)) <==> other == sorted
  {
    var less, clean := Comparator(conv, sorts), Comparator(Cleaned(conv), sorts);
    var sorted := Sorting.StableSort(docs, less);
    forall a, b | a in docs && b in docs ensures less(a, b) == clean(a, b) {
      CleanedAgrees(conv, sorts, docs, a, b);
    }
    ComparatorIsStrictWeak(Cleaned(conv), sorts);
    Sorting.StableSortCongruent(docs, less, clean);
    Sorting.StableSortCorrect(docs, clean);
    forall i, j | 0 <= i < j < |sorted| ensures !less(sorted[j], sorted[i]) {
      assert sorted[i] in multiset(docs) && sorted[j] in multiset(docs);
      assert !clean(sorted[j], sorted[i]);
    }
    forall other | Sorting.StablySorted(docs, other, clean) ensures other == sorted {
      Sorting.SortedUnique(other, sorted, clean);
    }
  }
}
