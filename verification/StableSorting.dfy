/** What a stable sort returns, for any comparison: a rearrangement that keeps, class by
    class, the order in which equivalent elements arrived. */
module StableSorting {

  ghost predicate StrictWeakOrder<T(!new)>(less: (T, T) -> bool) {
    && (forall x :: !less(x, x))
    && (forall x, y, z :: less(x, y) && less(y, z) ==> less(x, z))
    && (forall x, y, z :: less(x, z) ==> less(x, y) || less(y, z))
  }

  predicate Equivalent<T>(less: (T, T) -> bool, x: T, y: T) {
    !less(x, y) && !less(y, x)
  }

  predicate Sorted<T>(s: seq<T>, less: (T, T) -> bool) {
    forall i, j :: 0 <= i < j < |s| ==> !less(s[j], s[i])
  }

  function Select<T>(s: seq<T>, keep: T -> bool): seq<T> {
    if s == [] then []
    else (if keep(s[0]) then [s[0]] else []) + Select(s[1..], keep)
  }

  function ClassOf<T>(less: (T, T) -> bool, x: T): T -> bool {
    y => Equivalent(less, x, y)
  }

  /** t holds the elements of s, and within each class in the order s has them. */
  ghost predicate StableRearrangement<T(!new)>(s: seq<T>, t: seq<T>, less: (T, T) -> bool) {
    && multiset(s) == multiset(t)
    && forall x :: Select(s, ClassOf(less, x)) == Select(t, ClassOf(less, x))
  }

  ghost predicate StablySorted<T(!new)>(s: seq<T>, t: seq<T>, less: (T, T) -> bool) {
    Sorted(t, less) && StableRearrangement(s, t, less)
  }

  lemma Regroup<T>(a: seq<T>, b: seq<T>, c: seq<T>)
    ensures a + (b + c) == (a + b) + c
  {
  }

  lemma {:induction false} SelectAppend<T>(s: seq<T>, t: seq<T>, keep: T -> bool)
    ensures Select(s + t, keep) == Select(s, keep) + Select(t, keep)
  {
    if s == [] {
      assert s + t == t;
    } else {
      assert (s + t)[1..] == s[1..] + t;
      SelectAppend(s[1..], t, keep);
      Regroup(if keep(s[0]) then [s[0]] else [], Select(s[1..], keep), Select(t, keep));
    }
  }

  lemma {:induction false} SelectMember<T>(s: seq<T>, keep: T -> bool, x: T)
    ensures x in Select(s, keep) <==> x in s && keep(x)
  {
    if s != [] {
      SelectMember(s[1..], keep, x);
      assert s == [s[0]] + s[1..];
    }
  }

  /** Puts x behind every element it is not strictly before: insertion keeps arrival order. */
  function Insert<T>(s: seq<T>, x: T, less: (T, T) -> bool): seq<T> {
    if s == [] then [x]
    else if less(x, s[|s| - 1]) then Insert(s[..|s| - 1], x, less) + [s[|s| - 1]]
    else s + [x]
  }

  function StableSort<T>(s: seq<T>, less: (T, T) -> bool): seq<T> {
    if s == [] then [] else Insert(StableSort(s[..|s| - 1], less), s[|s| - 1], less)
  }

  lemma LastElement<T>(s: seq<T>)
    requires s != []
    ensures multiset(s) == multiset(s[..|s| - 1]) + multiset{s[|s| - 1]}
  {
    assert s == s[..|s| - 1] + [s[|s| - 1]];
  }

  lemma {:induction false} InsertKeepsElements<T>(s: seq<T>, x: T, less: (T, T) -> bool)
    ensures multiset(Insert(s, x, less)) == multiset(s) + multiset{x}
  {
    if s != [] && less(x, s[|s| - 1]) {
      InsertKeepsElements(s[..|s| - 1], x, less);
      LastElement(s);
    }
  }

  lemma {:induction false} InsertKeepsClass<T>(s: seq<T>, x: T, c: T, less: (T, T) -> bool)
    requires forall y :: y in s && less(x, y) ==> !(Equivalent(less, c, x) && Equivalent(less, c, y))
    ensures Select(Insert(s, x, less), ClassOf(less, c)) == Select(s + [x], ClassOf(less, c))
  {
    if s != [] && less(x, s[|s| - 1]) {
      var init, last := s[..|s| - 1], s[|s| - 1];
      var p := ClassOf(less, c);
      InsertKeepsClass(init, x, c, less);
      assert s + [x] == init + ([last] + [x]);
      SelectAppend(Insert(init, x, less), [last], p);
      SelectAppend(init, [x], p);
      SelectAppend(init, [last] + [x], p);
      SelectAppend([last], [x], p);
      assert Select([x], p) == [] || Select([last], p) == [];
    }
  }

  lemma {:induction false} InsertKeepsSorted<T>(s: seq<T>, x: T, less: (T, T) -> bool)
    requires Sorted(s, less)
    requires forall y, z :: y in s && z in s && !less(z, y) && !less(x, z) ==> !less(x, y)
    requires forall y :: y in s && less(x, y) ==> !less(y, x)
    ensures Sorted(Insert(s, x, less), less)
  {
    if s != [] && less(x, s[|s| - 1]) {
      var init, last := s[..|s| - 1], s[|s| - 1];
      InsertKeepsSorted(init, x, less);
      var r := Insert(init, x, less);
      InsertKeepsElements(init, x, less);
      forall i | 0 <= i < |r| ensures !less(last, r[i]) {
        assert r[i] in multiset(init) + multiset{x};
      }
    } else if s != [] {
      forall i | 0 <= i < |s| ensures !less(x, s[i]) {
        assert i < |s| - 1 ==> !less(s[|s| - 1], s[i]);
      }
    }
  }

  lemma InsertKeeps<T(!new)>(s: seq<T>, x: T, less: (T, T) -> bool)
    requires StrictWeakOrder(less)
    ensures StableRearrangement(s + [x], Insert(s, x, less), less)
    ensures Sorted(s, less) ==> Sorted(Insert(s, x, less), less)
  {
    InsertKeepsElements(s, x, less);
    forall c ensures Select(s + [x], ClassOf(less, c)) == Select(Insert(s, x, less), ClassOf(less, c)) {
      InsertKeepsClass(s, x, c, less);
    }
    if Sorted(s, less) {
      InsertKeepsSorted(s, x, less);
    }
  }

  /** The stable sort of the library delivers a stably sorted sequence for any strict weak order. */
  lemma {:induction false} StableSortCorrect<T(!new)>(s: seq<T>, less: (T, T) -> bool)
    requires StrictWeakOrder(less)
    ensures StablySorted(s, StableSort(s, less), less)
  {
    if s != [] {
      var init, last := s[..|s| - 1], s[|s| - 1];
      StableSortCorrect(init, less);
      var r := StableSort(init, less);
      InsertKeeps(r, last, less);
      assert s == init + [last];
      forall c ensures Select(s, ClassOf(less, c)) == Select(r + [last], ClassOf(less, c)) {
        SelectAppend(init, [last], ClassOf(less, c));
        SelectAppend(r, [last], ClassOf(less, c));
        assert Select(init, ClassOf(less, c)) == Select(r, ClassOf(less, c));
      }
    }
  }

  lemma {:induction false} StableSortElements<T>(s: seq<T>, less: (T, T) -> bool)
    ensures multiset(StableSort(s, less)) == multiset(s)
  {
    if s != [] {
      hide Insert;
      StableSortElements(s[..|s| - 1], less);
      InsertKeepsElements(StableSort(s[..|s| - 1], less), s[|s| - 1], less);
      LastElement(s);
    }
  }

  /** Two comparisons that agree on the elements sort them alike. */
  lemma {:induction false} StableSortCongruent<T>(s: seq<T>, less: (T, T) -> bool, other: (T, T) -> bool)
    requires forall x, y :: x in s && y in s ==> less(x, y) == other(x, y)
    ensures StableSort(s, less) == StableSort(s, other)
  {
    if s != [] {
      var init, last := s[..|s| - 1], s[|s| - 1];
      StableSortCongruent(init, less, other);
      StableSortElements(init, less);
      var r := StableSort(init, less);
      forall y | y in r ensures y in s {
        assert y in multiset(init);
      }
      InsertCongruent(r, last, less, other);
    }
  }

  lemma {:induction false} InsertCongruent<T>(s: seq<T>, x: T, less: (T, T) -> bool, other: (T, T) -> bool)
    requires forall y :: y in s ==> less(x, y) == other(x, y)
    ensures Insert(s, x, less) == Insert(s, x, other)
  {
    if s != [] {
      InsertCongruent(s[..|s| - 1], x, less, other);
    }
  }

  /** Two sorted sequences that agree class by class are the same sequence. */
  lemma {:induction false} SortedUnique<T(!new)>(s: seq<T>, t: seq<T>, less: (T, T) -> bool)
    requires StrictWeakOrder(less) && Sorted(s, less) && Sorted(t, less)
    requires forall x :: Select(s, ClassOf(less, x)) == Select(t, ClassOf(less, x))
    ensures s == t
    decreases |s|
  {
    if |s| + |t| > 0 {
      var w := (s + t)[0];
      assert Select(s, ClassOf(less, w)) == Select(t, ClassOf(less, w));
      SelectMember(s, ClassOf(less, w), w);
      SelectMember(t, ClassOf(less, w), w);
      var x, y := s[0], t[0];
      var cx, cy := ClassOf(less, x), ClassOf(less, y);
      assert Select(s, cx) == Select(t, cx) && Select(s, cy) == Select(t, cy);
      SelectMember(s, cx, x);
      SelectMember(t, cx, x);
      SelectMember(t, cy, y);
      SelectMember(s, cy, y);
      assert !less(x, y) && !less(y, x);
      assert Select(s, cx)[0] == x && Select(t, cx)[0] == y;
      forall z ensures Select(s[1..], ClassOf(less, z)) == Select(t[1..], ClassOf(less, z)) {
        var cz := ClassOf(less, z);
        assert Select(s, cz) == Select(t, cz);
        var n := if cz(x) then 1 else 0;
        assert Select(s, cz)[n..] == Select(s[1..], cz);
        assert Select(t, cz)[n..] == Select(t[1..], cz);
      }
      SortedUnique(s[1..], t[1..], less);
    }
  }
}
