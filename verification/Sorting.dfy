/** A stable sort by a strict order on keys, as `sorted` and `list.sort` are. */
module Sorting {

  /** A strict order in which any two elements that are not ordered rank alike. */
  ghost predicate Ranks<T(!new)>(less: (T, T) -> bool) {
    && (forall x :: !less(x, x))
    && (forall x, y, z :: less(x, y) && less(y, z) ==> less(x, z))
    && (forall x, y, z :: !less(x, y) && !less(y, z) ==> !less(x, z))
  }

  ghost predicate Sorted<T(!new)>(s: seq<T>, less: (T, T) -> bool) {
    forall i, j | 0 <= i < j < |s| :: !less(s[j], s[i])
  }

  /** Puts `x` behind the elements that it does not precede. */
  function Place<T>(s: seq<T>, x: T, less: (T, T) -> bool): (r: seq<T>)
    ensures |r| == |s| + 1
  {
    if s == [] || !less(x, s[|s| - 1]) then s + [x]
    else Place(s[..|s| - 1], x, less) + [s[|s| - 1]]
  }

  function StableSort<T>(s: seq<T>, less: (T, T) -> bool): (r: seq<T>)
    ensures |r| == |s|
  {
    if s == [] then [] else Place(StableSort(s[..|s| - 1], less), s[|s| - 1], less)
  }

  lemma {:induction false} PlaceKeepsElements<T>(s: seq<T>, x: T, less: (T, T) -> bool)
    ensures multiset(Place(s, x, less)) == multiset(s) + multiset{x}
  {
    if s != [] && less(x, s[|s| - 1]) {
      PlaceKeepsElements(s[..|s| - 1], x, less);
      assert s == s[..|s| - 1] + [s[|s| - 1]];
    }
  }

  lemma {:induction false} SortKeepsElements<T>(s: seq<T>, less: (T, T) -> bool)
    ensures multiset(StableSort(s, less)) == multiset(s)
  {
    if s != [] {
      SortKeepsElements(s[..|s| - 1], less);
      PlaceKeepsElements(StableSort(s[..|s| - 1], less), s[|s| - 1], less);
      assert s == s[..|s| - 1] + [s[|s| - 1]];
    }
  }

  lemma SameElements<T>(s: seq<T>, less: (T, T) -> bool, x: T)
    ensures x in StableSort(s, less) <==> x in s
  {
    SortKeepsElements(s, less);
    assert x in StableSort(s, less) <==> x in multiset(StableSort(s, less));
    assert x in s <==> x in multiset(s);
  }

  lemma {:induction false} PlaceSorts<T(!new)>(s: seq<T>, x: T, less: (T, T) -> bool)
    requires Ranks(less) && Sorted(s, less)
    ensures Sorted(Place(s, x, less), less)
  {
    if s != [] && less(x, s[|s| - 1]) {
      var last := s[|s| - 1];
      PlaceSorts(s[..|s| - 1], x, less);
      var front := Place(s[..|s| - 1], x, less);
      forall i | 0 <= i < |front| ensures !less(last, front[i]) {
        PlaceKeepsElements(s[..|s| - 1], x, less);
        assert front[i] in multiset(front);
        assert front[i] in s[..|s| - 1] || front[i] == x;
      }
    } else if s != [] {
      forall i | 0 <= i < |s| ensures !less(x, s[i]) {
        assert i < |s| - 1 ==> !less(s[|s| - 1], s[i]);
      }
    }
  }

  lemma {:induction false} SortSorts<T(!new)>(s: seq<T>, less: (T, T) -> bool)
    requires Ranks(less)
    ensures Sorted(StableSort(s, less), less)
  {
    if s != [] {
      SortSorts(s[..|s| - 1], less);
      PlaceSorts(StableSort(s[..|s| - 1], less), s[|s| - 1], less);
    }
  }

  /** A sorted sequence stays as it is. */
  lemma {:induction false} SortedStays<T(!new)>(s: seq<T>, less: (T, T) -> bool)
    requires Sorted(s, less)
    ensures StableSort(s, less) == s
  {
    if s != [] {
      SortedStays(s[..|s| - 1], less);
      assert |s| > 1 ==> !less(s[|s| - 1], s[|s| - 2]);
    }
  }

  /** The elements of one rank keep their order: those that satisfy `p`, if no two of them are ordered. */
  function Only<T>(s: seq<T>, p: T -> bool): seq<T> {
    if s == [] then [] else Only(s[..|s| - 1], p) + if p(s[|s| - 1]) then [s[|s| - 1]] else []
  }

  lemma {:induction false} PlaceIsStable<T(!new)>(s: seq<T>, x: T, less: (T, T) -> bool, p: T -> bool)
    requires forall a, b | p(a) && p(b) :: !less(a, b)
    ensures Only(Place(s, x, less), p) == Only(s, p) + if p(x) then [x] else []
  {
    if s != [] && less(x, s[|s| - 1]) {
      PlaceIsStable(s[..|s| - 1], x, less, p);
      assert Place(s, x, less)[..|s|] == Place(s[..|s| - 1], x, less);
    } else {
      assert (s + [x])[..|s|] == s;
    }
  }

  lemma {:induction false} SortIsStable<T(!new)>(s: seq<T>, less: (T, T) -> bool, p: T -> bool)
    requires forall a, b | p(a) && p(b) :: !less(a, b)
    ensures Only(StableSort(s, less), p) == Only(s, p)
  {
    if s != [] {
      SortIsStable(s[..|s| - 1], less, p);
      PlaceIsStable(StableSort(s[..|s| - 1], less), s[|s| - 1], less, p);
    }
  }

  lemma OnlyOfSum<T>(s: seq<T>, x: T, p: T -> bool)
    ensures Only(s + [x], p) == Only(s, p) + if p(x) then [x] else []
  {
    assert (s + [x])[..|s|] == s;
  }

  lemma {:induction false} OnlyFromFront<T>(s: seq<T>, p: T -> bool)
    requires s != []
    ensures Only(s, p) == (if p(s[0]) then [s[0]] else []) + Only(s[1..], p)
  {
    var last := |s| - 1;
    OnlyOfSum(s[..last], s[last], p);
    assert s == s[..last] + [s[last]];
    if last == 0 {
      assert s[..0] == [] && s[1..] == [];
      assert Only([], p) == [];
    } else {
      OnlyFromFront(s[..last], p);
      OnlyOfSum(s[1..last], s[last], p);
      assert s[1..] == s[1..last] + [s[last]] && s[..last][1..] == s[1..last];
    }
    hide Only;
  }

  lemma {:induction false} OnlyMembers<T(!new)>(s: seq<T>, p: T -> bool, x: T)
    ensures x in Only(s, p) <==> x in s && p(x)
  {
    if s != [] {
      OnlyMembers(s[..|s| - 1], p, x);
      assert s == s[..|s| - 1] + [s[|s| - 1]];
    }
  }
}
