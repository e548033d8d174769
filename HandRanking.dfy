/** The standard poker categories, defined by how many cards of each rank a
    hand holds and whether all suits agree, independently of any card order.
    The lemmas show that HandEvaluator's detector chain computes exactly these
    categories for every five-card hand. */
module HandRanking {
  import opened Cards
  import opened Comparators
  import opened Sorting
  import opened HandEvaluator

  /** How many cards of `h` have rank `r`. */
  function RankCount(h: seq<Card>, r: Rank): (n: nat)
    ensures n <= |h|
  {
    if h == [] then 0
    else (if h[0].rank == r then 1 else 0) + RankCount(h[1..], r)
  }

  /** 1 for true, 0 for false. */
  function Ind(b: bool): nat { if b then 1 else 0 }

  /** The rank count of a hand is the number of its copies of the four cards of that rank. */
  lemma {:induction false} RankCountMultiset(h: seq<Card>, r: Rank)
    ensures RankCount(h, r) == multiset(h)[Card(r, Clubs)] + multiset(h)[Card(r, Diamonds)]
                               + multiset(h)[Card(r, Hearts)] + multiset(h)[Card(r, Spades)]
  {
    if h != [] {
      RankCountMultiset(h[1..], r);
      assert h == [h[0]] + h[1..];
      assert multiset(h) == multiset{h[0]} + multiset(h[1..]);
    }
  }

  /** Rank counts do not depend on the order of the cards. */
  lemma RankCountPermutation(a: seq<Card>, b: seq<Card>, r: Rank)
    requires multiset(a) == multiset(b)
    ensures RankCount(a, r) == RankCount(b, r)
  {
    RankCountMultiset(a, r);
    RankCountMultiset(b, r);
  }

  /** The rank count of a five-card hand, position by position. */
  lemma RankCount5(h: seq<Card>, r: Rank)
    requires |h| == HandSize
    ensures RankCount(h, r) == Ind(h[0].rank == r) + Ind(h[1].rank == r) + Ind(h[2].rank == r)
                               + Ind(h[3].rank == r) + Ind(h[4].rank == r)
  {
    assert h[1..][1..] == h[2..];
    assert h[2..][1..] == h[3..];
    assert h[3..][1..] == h[4..];
    assert h[4..][1..] == [];
    assert RankCount(h[4..], r) == Ind(h[4].rank == r);
    assert RankCount(h[3..], r) == Ind(h[3].rank == r) + RankCount(h[4..], r);
    assert RankCount(h[2..], r) == Ind(h[2].rank == r) + RankCount(h[3..], r);
    assert RankCount(h[1..], r) == Ind(h[1].rank == r) + RankCount(h[2..], r);
  }

  lemma AllRankCounts5(h: seq<Card>)
    requires |h| == HandSize
    ensures forall r: Rank :: RankCount(h, r) == Ind(h[0].rank == r) + Ind(h[1].rank == r)
              + Ind(h[2].rank == r) + Ind(h[3].rank == r) + Ind(h[4].rank == r)
  {
    forall r: Rank
      ensures RankCount(h, r) == Ind(h[0].rank == r) + Ind(h[1].rank == r)
              + Ind(h[2].rank == r) + Ind(h[3].rank == r) + Ind(h[4].rank == r)
    {
      RankCount5(h, r);
    }
  }

  // ---------------------------------------------------------------- categories

  ghost predicate IsFourOfAKind(h: seq<Card>) { exists r: Rank :: RankCount(h, r) >= 4 }

  ghost predicate IsThreeOfAKind(h: seq<Card>) { exists r: Rank :: RankCount(h, r) >= 3 }

  ghost predicate IsPair(h: seq<Card>) { exists r: Rank :: RankCount(h, r) >= 2 }

  /** Three cards of one rank and two of another. */
  ghost predicate IsFullHouse(h: seq<Card>)
  {
    exists r: Rank, q: Rank :: r != q && RankCount(h, r) >= 3 && RankCount(h, q) >= 2
  }

  /** Two cards each of two different ranks. */
  ghost predicate IsTwoPair(h: seq<Card>)
  {
    exists r: Rank, q: Rank :: r != q && RankCount(h, r) >= 2 && RankCount(h, q) >= 2
  }

  /** All cards share one suit. */
  ghost predicate IsFlush(h: seq<Card>)
  {
    forall c, d :: c in h && d in h ==> c.suit == d.suit
  }

  /** One card each of the five consecutive ranks lo .. lo+4. */
  ghost predicate FiveInARow(h: seq<Card>, lo: int)
  {
    0 <= lo <= Ten
    && RankCount(h, lo) == 1 && RankCount(h, lo + 1) == 1 && RankCount(h, lo + 2) == 1
    && RankCount(h, lo + 3) == 1 && RankCount(h, lo + 4) == 1
  }

  /** One card each of ace, five, four, three and deuce: the ace plays low. */
  ghost predicate IsWheel(h: seq<Card>)
  {
    RankCount(h, Ace) == 1 && RankCount(h, Five) == 1 && RankCount(h, Four) == 1
    && RankCount(h, Three) == 1 && RankCount(h, Deuce) == 1
  }

  ghost predicate IsStraight(h: seq<Card>)
  {
    (exists lo :: FiveInARow(h, lo)) || IsWheel(h)
  }

  /** The standard category of a hand: the best pattern it contains. */
  ghost function ReferenceValue(h: seq<Card>): HandValue
  {
    if IsStraight(h) && IsFlush(h) then StraightFlush
    else if IsFourOfAKind(h) then FourOfAKind
    else if IsFullHouse(h) then FullHouse
    else if IsFlush(h) then Flush
    else if IsStraight(h) then Straight
    else if IsThreeOfAKind(h) then ThreeOfAKind
    else if IsTwoPair(h) then TwoPair
    else if IsPair(h) then Pair
    else HighCard
  }

  /** The standard category depends only on which cards are held. */
  lemma ReferencePermutation(a: seq<Card>, b: seq<Card>)
    requires multiset(a) == multiset(b)
    ensures ReferenceValue(a) == ReferenceValue(b)
  {
    forall r: Rank ensures RankCount(a, r) == RankCount(b, r) {
      RankCountPermutation(a, b, r);
    }
    forall c ensures c in a <==> c in b {
      assert c in a <==> c in multiset(a);
      assert c in b <==> c in multiset(b);
    }
    assert IsFlush(a) == IsFlush(b);
    assert IsWheel(a) == IsWheel(b);
    assert forall lo :: FiveInARow(a, lo) == FiveInARow(b, lo);
    assert IsStraight(a) == IsStraight(b);
    assert IsFourOfAKind(a) == IsFourOfAKind(b);
    assert IsThreeOfAKind(a) == IsThreeOfAKind(b);
    assert IsPair(a) == IsPair(b);
    assert IsFullHouse(a) == IsFullHouse(b);
    assert IsTwoPair(a) == IsTwoPair(b);
  }

  // ---------------------------------------------------------------- sorted hands

  /** Ranks of a five-card hand in non-increasing order. */
  predicate Descending5(s: seq<Card>)
  {
    |s| == HandSize
    && s[0].rank >= s[1].rank && s[1].rank >= s[2].rank
    && s[2].rank >= s[3].rank && s[3].rank >= s[4].rank
  }

  /** Sorting by CardRankComparator puts higher ranks first. */
  lemma SortedByRankDescends(h: seq<Card>)
    requires |h| == HandSize
    ensures Descending5(Sort(RankComparator, h))
  {
    var s := Sort(RankComparator, h);
    SortSorted(RankComparator, h);
    assert Compare(RankComparator, s[0], s[1]) <= 0;
    assert Compare(RankComparator, s[1], s[2]) <= 0;
    assert Compare(RankComparator, s[2], s[3]) <= 0;
    assert Compare(RankComparator, s[3], s[4]) <= 0;
  }

  /** hasFourOfAKind on a sorted hand finds a quad exactly when four cards share a rank. */
  lemma FourOfAKindMatches(s: seq<Card>)
    requires Descending5(s)
    ensures HasFourOfAKind(s) != -1 <==> IsFourOfAKind(s)
  {
    AllRankCounts5(s);
    if HasFourOfAKind(s) != -1 {
      var k := HasFourOfAKind(s);
      assert s[k + 1].rank == s[k].rank && s[k + 2].rank == s[k].rank && s[k + 3].rank == s[k].rank;
      assert RankCount(s, s[k].rank) >= 4;
    }
    if IsFourOfAKind(s) {
      var r: Rank :| RankCount(s, r) >= 4;
      if s[0].rank == r && s[3].rank == r {
        assert Run(s, 0, 4);
      } else {
        assert Run(s, 1, 4);
      }
    }
  }

  /** hasThreeOfAKind on a sorted hand finds a triple exactly when three cards share a rank. */
  lemma ThreeOfAKindMatches(s: seq<Card>)
    requires Descending5(s)
    ensures HasThreeOfAKind(s) != -1 <==> IsThreeOfAKind(s)
  {
    AllRankCounts5(s);
    if HasThreeOfAKind(s) != -1 {
      var k := HasThreeOfAKind(s);
      assert s[k + 1].rank == s[k].rank && s[k + 2].rank == s[k].rank;
      assert RankCount(s, s[k].rank) >= 3;
    }
    if IsThreeOfAKind(s) {
      var r: Rank :| RankCount(s, r) >= 3;
      if s[0].rank == r && s[2].rank == r {
        assert Run(s, 0, 3);
      } else if s[1].rank == r && s[3].rank == r {
        assert Run(s, 1, 3);
      } else {
        assert Run(s, 2, 3);
      }
    }
  }

  /** A sorted hand holding two cards of rank r holds them side by side. */
  lemma PairPosition(s: seq<Card>, r: Rank) returns (a: nat)
    requires Descending5(s) && RankCount(s, r) >= 2
    ensures a + 2 <= HandSize && s[a].rank == r && Run(s, a, 2)
  {
    RankCount5(s, r);
    if s[0].rank == r && s[1].rank == r { a := 0; }
    else if s[1].rank == r && s[2].rank == r { a := 1; }
    else if s[2].rank == r && s[3].rank == r { a := 2; }
    else { a := 3; }
  }

  /** hasPair on a sorted hand finds a pair exactly when two cards share a rank. */
  lemma PairMatches(s: seq<Card>)
    requires Descending5(s)
    ensures HasPair(s) != -1 <==> IsPair(s)
  {
    if HasPair(s) != -1 {
      var k := HasPair(s);
      RankCount5(s, s[k].rank);
      assert s[k + 1].rank == s[k].rank;
    }
    if IsPair(s) {
      var r: Rank :| RankCount(s, r) >= 2;
      var a := PairPosition(s, r);
    }
  }

  /** hasTwoPair on a sorted hand without a quad finds two pairs exactly when
      two different ranks are each held twice. */
  lemma TwoPairMatches(s: seq<Card>)
    requires Descending5(s) && !IsFourOfAKind(s)
    ensures HasTwoPair(s) != -1 <==> IsTwoPair(s)
  {
    var p := HasPair(s);
    if HasTwoPair(s) != -1 {
      var j := RunFrom(s, 2, p + 2);
      assert s[p + 1].rank == s[p].rank && s[j + 1].rank == s[j].rank;
      RankCount5(s, s[p].rank);
      RankCount5(s, s[j].rank);
      assert RankCount(s, s[p].rank) >= 2 && RankCount(s, s[j].rank) >= 2;
    }
    if IsTwoPair(s) {
      var r: Rank, q: Rank :| r != q && RankCount(s, r) >= 2 && RankCount(s, q) >= 2;
      var a := PairPosition(s, r);
      var b := PairPosition(s, q);
      PairMatches(s);
      assert p <= a && p <= b;
      if a < b {
        assert b >= a + 2;
        assert Run(s, b, 2);
      } else {
        assert a >= b + 2;
        assert Run(s, a, 2);
      }
    }
  }

  /** hasFullHouse on a sorted hand without a quad finds a full house exactly
      when one rank is held three times and another twice. */
  lemma FullHouseMatches(s: seq<Card>)
    requires Descending5(s) && !IsFourOfAKind(s)
    ensures HasFullHouse(s) != -1 <==> IsFullHouse(s)
  {
    AllRankCounts5(s);
    var t := HasThreeOfAKind(s);
    if HasFullHouse(s) != -1 {
      var rest := RemoveRun(s, t, 3);
      var k := HasPair(rest);
      assert s[t + 1].rank == s[t].rank && s[t + 2].rank == s[t].rank;
      assert rest[0].rank == rest[1].rank;
      assert RankCount(s, s[t].rank) >= 3;
      assert RankCount(s, rest[0].rank) >= 2;
    }
    if IsFullHouse(s) {
      var r: Rank, q: Rank :| r != q && RankCount(s, r) >= 3 && RankCount(s, q) >= 2;
      var rest: seq<Card>;
      if r > q {
        assert Run(s, 0, 3);
        rest := RemoveRun(s, 0, 3);
      } else {
        assert !Run(s, 0, 3) && !Run(s, 1, 3) && Run(s, 2, 3);
        rest := RemoveRun(s, 2, 3);
      }
      assert rest == RemoveRun(s, t, 3);
      assert Run(rest, 0, 2);
    }
  }

  /** hasFlush finds a flush exactly when all cards share one suit. */
  lemma FlushMatches(h: seq<Card>)
    ensures HasFlush(h) != -1 <==> IsFlush(h)
  {
    var s := Sort(SuitComparator, h);
    forall c ensures c in h <==> c in s {
      assert c in h <==> c in multiset(h);
      assert c in s <==> c in multiset(s);
    }
    if AdjacentSuitsEqual(s) {
      AdjacentSuitsAll(s);
    } else {
      var i :| 0 <= i < |s| - 1 && s[i].suit != s[i + 1].suit;
      assert s[i] in h && s[i + 1] in h;
    }
  }

  /** Equal adjacent suits mean one suit throughout. */
  lemma {:induction false} AdjacentSuitsAll(s: seq<Card>)
    requires AdjacentSuitsEqual(s)
    ensures forall i :: 0 <= i < |s| ==> s[i].suit == s[0].suit
  {
    if |s| > 1 {
      AdjacentSuitsAll(s[1..]);
      assert forall i :: 1 <= i < |s| ==> s[i] == s[1..][i - 1];
    }
  }

  /** hasStraight on a sorted hand finds a straight exactly when the hand holds
      five consecutive ranks, with the ace either above the king or below the deuce. */
  lemma StraightMatches(s: seq<Card>)
    requires Descending5(s)
    ensures HasStraight(s) != -1 <==> IsStraight(s)
  {
    AllRankCounts5(s);
    var wheel := s[0].rank == Ace && s[1].rank == Five && s[2].rank == Four
                 && s[3].rank == Three && s[4].rank == Deuce;
    var rising := s[0].rank == s[4].rank + 4 && s[1].rank == s[4].rank + 3
                  && s[2].rank == s[4].rank + 2 && s[3].rank == s[4].rank + 1;
    assert DescendingByOne(s, 0) <==> rising;
    assert HasStraight(s) != -1 <==> rising || wheel;
    if rising {
      assert FiveInARow(s, s[4].rank);
    }
    if IsWheel(s) {
      assert wheel;
    }
    if lo :| FiveInARow(s, lo) {
      assert s[4].rank == lo;
      assert rising;
    }
  }

  /** evaluate's chain on a sorted hand computes the standard category. */
  lemma ClassifyMatchesReference(s: seq<Card>)
    requires Descending5(s)
    ensures Classify(s) == ReferenceValue(s)
  {
    StraightMatches(s);
    FlushMatches(s);
    FourOfAKindMatches(s);
    ThreeOfAKindMatches(s);
    PairMatches(s);
    if !IsFourOfAKind(s) {
      FullHouseMatches(s);
      TwoPairMatches(s);
    }
  }

  /** evaluate returns the standard poker category of every five-card hand. */
  lemma EvaluateIsStandard(h: seq<Card>)
    requires |h| == HandSize
    ensures HandValueOf(h) == ReferenceValue(h)
  {
    var s := Sort(RankComparator, h);
    SortedByRankDescends(h);
    ClassifyMatchesReference(s);
    ReferencePermutation(s, h);
  }

  /** evaluate's result does not depend on the order the cards are given in. */
  lemma EvaluateOrderIndependent(a: seq<Card>, b: seq<Card>)
    requires |a| == HandSize && multiset(a) == multiset(b)
    ensures |b| == HandSize && HandValueOf(a) == HandValueOf(b)
  {
    assert |multiset(a)| == |a| && |multiset(b)| == |b|;
    SortPermutation(RankComparator, a, b);
  }

  /** Five cards forming a straight hold five different ranks. */
  lemma StraightCountsAtMostOne(h: seq<Card>, r: Rank)
    requires |h| == HandSize && IsStraight(h)
    ensures RankCount(h, r) <= 1
  {
    RankCount5(h, r);
    if lo :| FiveInARow(h, lo) {
      RankCount5(h, lo);
      RankCount5(h, lo + 1);
      RankCount5(h, lo + 2);
      RankCount5(h, lo + 3);
      RankCount5(h, lo + 4);
    } else {
      RankCount5(h, Ace);
      RankCount5(h, Five);
      RankCount5(h, Four);
      RankCount5(h, Three);
      RankCount5(h, Deuce);
    }
  }

  lemma StraightCategory(h: seq<Card>)
    requires ReferenceValue(h) == Straight || ReferenceValue(h) == StraightFlush
    ensures IsStraight(h)
  {
  }

  /** A hand in a straight category never repeats a rank. */
  lemma StraightRanksDistinct(h: seq<Card>, r: Rank)
    requires |h| == HandSize
    requires HandValueOf(h) == Straight || HandValueOf(h) == StraightFlush
    ensures RankCount(h, r) <= 1
  {
    EvaluateIsStandard(h);
    StraightCategory(h);
    StraightCountsAtMostOne(h, r);
  }
}
