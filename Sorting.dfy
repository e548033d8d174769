/** List.sort with a card comparator. The source relies on the library's stable
    sort; since each comparator returns 0 only for equal cards, every list has
    exactly one permutation sorted by it (SortedUnique), so insertion sort
    specifies the library call exactly. */
module Sorting {
  import opened Cards
  import opened Comparators

  /** No card sorts after a later one. */
  predicate Sorted(c: Comparator, s: seq<Card>)
  {
    forall i, j :: 0 <= i < j < |s| ==> Compare(c, s[i], s[j]) <= 0
  }

  /** Inserts `x` before the first card it does not sort after. */
  function Insert(c: Comparator, x: Card, s: seq<Card>): (r: seq<Card>)
    ensures multiset(r) == multiset(s) + multiset{x}
    ensures |r| == |s| + 1
  {
    if s == [] then [x]
    else if Compare(c, x, s[0]) <= 0 then [x] + s
    else
      assert s == [s[0]] + s[1..];
      [s[0]] + Insert(c, x, s[1..])
  }

  /** A card that sorts no later than every card of `s` is a lower bound of `s`. */
  ghost predicate LowerBound(c: Comparator, x: Card, s: seq<Card>)
  {
    forall j :: 0 <= j < |s| ==> Compare(c, x, s[j]) <= 0
  }

  lemma LowerBoundOfSorted(c: Comparator, x: Card, s: seq<Card>)
    requires Sorted(c, s) && s != [] && Compare(c, x, s[0]) <= 0
    ensures LowerBound(c, x, s)
  {
    forall j | 0 <= j < |s| ensures Compare(c, x, s[j]) <= 0 {
      if j > 0 { CompareTransitive(c, x, s[0], s[j]); }
    }
  }

  lemma LowerBoundOfMultiset(c: Comparator, x: Card, s: seq<Card>, t: seq<Card>)
    requires LowerBound(c, x, s) && multiset(t) <= multiset(s)
    ensures LowerBound(c, x, t)
  {
    forall j | 0 <= j < |t| ensures Compare(c, x, t[j]) <= 0 {
      assert t[j] in multiset(t);
      var k :| 0 <= k < |s| && s[k] == t[j];
    }
  }

  /** Insertion keeps a list sorted. */
  lemma {:induction false} InsertSorted(c: Comparator, x: Card, s: seq<Card>)
    requires Sorted(c, s)
    ensures Sorted(c, Insert(c, x, s))
  {
    if s != [] && Compare(c, x, s[0]) > 0 {
      SortedTail(c, s);
      InsertSorted(c, x, s[1..]);
      InsertAfterHead(c, x, s);
    } else if s != [] {
      LowerBoundOfSorted(c, x, s);
      SortedCons(c, x, s);
    }
  }

  lemma SortedTail(c: Comparator, s: seq<Card>)
    requires Sorted(c, s) && s != []
    ensures Sorted(c, s[1..])
  {
    var t := s[1..];
    forall i, j | 0 <= i < j < |t| ensures Compare(c, t[i], t[j]) <= 0 {
      assert t[i] == s[i + 1] && t[j] == s[j + 1];
    }
  }

  /** A card that sorts after the head goes into the tail, behind the head. */
  lemma InsertAfterHead(c: Comparator, x: Card, s: seq<Card>)
    requires Sorted(c, s) && s != [] && Compare(c, x, s[0]) > 0
    requires Sorted(c, Insert(c, x, s[1..]))
    ensures Sorted(c, Insert(c, x, s))
  {
    var rest := Insert(c, x, s[1..]);
    HeadBoundsRest(c, x, s);
    assert multiset(rest) == multiset([x] + s[1..]);
    LowerBoundOfMultiset(c, s[0], [x] + s[1..], rest);
    assert Insert(c, x, s) == [s[0]] + rest;
    SortedCons(c, s[0], rest);
  }

  lemma HeadBoundsRest(c: Comparator, x: Card, s: seq<Card>)
    requires Sorted(c, s) && s != [] && Compare(c, x, s[0]) > 0
    ensures LowerBound(c, s[0], [x] + s[1..])
  {
    CompareAntisymmetric(c, x, s[0]);
    var u := [x] + s[1..];
    forall j | 0 <= j < |u| ensures Compare(c, s[0], u[j]) <= 0 {
      if j > 0 {
        assert u[j] == s[j];
      }
    }
  }

  /** A lower bound put in front of a sorted list keeps it sorted. */
  lemma SortedCons(c: Comparator, y: Card, r: seq<Card>)
    requires Sorted(c, r) && LowerBound(c, y, r)
    ensures Sorted(c, [y] + r)
  {
    var s := [y] + r;
    forall i, j | 0 <= i < j < |s| ensures Compare(c, s[i], s[j]) <= 0 {
      if i > 0 {
        assert s[i] == r[i - 1] && s[j] == r[j - 1];
      } else {
        assert s[j] == r[j - 1];
      }
    }
  }

  /** Insertion sort: the unique sorted permutation of `s`. */
  function Sort(c: Comparator, s: seq<Card>): (r: seq<Card>)
    ensures multiset(r) == multiset(s)
    ensures |r| == |s|
  {
    if s == [] then []
    else
      assert s == [s[0]] + s[1..];
      Insert(c, s[0], Sort(c, s[1..]))
  }

  /** Insertion sort sorts. */
  lemma {:induction false} SortSorted(c: Comparator, s: seq<Card>)
    ensures Sorted(c, Sort(c, s))
  {
    if s != [] {
      SortSorted(c, s[1..]);
      InsertSorted(c, s[0], Sort(c, s[1..]));
    }
  }

  /** The head of a sorted list is a lower bound of everything in it. */
  lemma SortedHeadFirst(c: Comparator, a: seq<Card>, y: Card)
    requires Sorted(c, a) && y in multiset(a)
    ensures Compare(c, a[0], y) <= 0
  {
    var j :| 0 <= j < |a| && a[j] == y;
    if j == 0 { CompareZeroIffEqual(c, a[0], y); }
  }

  /** Two sorted lists holding the same cards start with the same card. */
  lemma SortedHeadsEqual(c: Comparator, a: seq<Card>, b: seq<Card>)
    requires Sorted(c, a) && Sorted(c, b) && a != []
    requires multiset(a) == multiset(b)
    ensures b != [] && a[0] == b[0]
  {
    assert a[0] in multiset(a);
    SortedHeadFirst(c, b, a[0]);
    SortedHeadFirst(c, a, b[0]);
    CompareAntisymmetric(c, a[0], b[0]);
    CompareZeroIffEqual(c, a[0], b[0]);
  }

  /** Two sorted lists holding the same cards are equal. */
  lemma {:induction false} SortedUnique(c: Comparator, a: seq<Card>, b: seq<Card>)
    requires Sorted(c, a) && Sorted(c, b)
    requires multiset(a) == multiset(b)
    ensures a == b
  {
    if a == [] {
      assert |multiset(b)| == |b|;
    } else {
      SortedHeadsEqual(c, a, b);
      assert a == [a[0]] + a[1..] && b == [b[0]] + b[1..];
      assert multiset(a) == multiset{a[0]} + multiset(a[1..]);
      assert multiset(b) == multiset{b[0]} + multiset(b[1..]);
      assert multiset(a[1..]) == multiset(a) - multiset{a[0]};
      assert multiset(b[1..]) == multiset(b) - multiset{b[0]};
      SortedUnique(c, a[1..], b[1..]);
    }
  }

  /** Sorting what is already sorted changes nothing. */
  lemma SortOfSorted(c: Comparator, s: seq<Card>)
    requires Sorted(c, s)
    ensures Sort(c, s) == s
  {
    SortSorted(c, s);
    SortedUnique(c, Sort(c, s), s);
  }

  /** The sorted list depends only on which cards are given, not on their order. */
  lemma SortPermutation(c: Comparator, a: seq<Card>, b: seq<Card>)
    requires multiset(a) == multiset(b)
    ensures Sort(c, a) == Sort(c, b)
  {
    SortSorted(c, a);
    SortSorted(c, b);
    SortedUnique(c, Sort(c, a), Sort(c, b));
  }
}
