/** What compareHands decides, stated with rank counts rather than list
    positions: reflexivity, antisymmetry, independence from card order, and
    for each category the ranks that break a tie. */
module HandComparison {
  import opened Cards
  import opened Comparators
  import opened Sorting
  import opened HandEvaluator
  import opened HandRanking

  /** The highest rank other than `x` that `h` holds, searching downward from
      `r`; -1 when there is none. */
  ghost function HighestFrom(h: seq<Card>, x: int, r: int): (m: int)
    requires -1 <= r < NumRanks
    ensures m == -1 || (0 <= m <= r && m != x && RankCount(h, m) > 0)
    ensures forall q: Rank :: m < q <= r && q != x ==> RankCount(h, q) == 0
    decreases r + 1
  {
    if r < 0 then -1
    else if r != x && RankCount(h, r) > 0 then r
    else HighestFrom(h, x, r - 1)
  }

  /** The highest rank in `h`. */
  ghost function TopRank(h: seq<Card>): int { HighestFrom(h, -1, Ace) }

  /** The highest rank in `h` other than the rank `x` of its pair. */
  ghost function TopKicker(h: seq<Card>, x: Rank): int { HighestFrom(h, x, Ace) }

  /** A rank held, above which only `x` may be held, is what HighestFrom finds. */
  lemma HighestIs(h: seq<Card>, x: int, m: Rank)
    requires m != x && RankCount(h, m) > 0
    requires forall q: Rank :: m < q && q != x ==> RankCount(h, q) == 0
    ensures HighestFrom(h, x, Ace) == m
  {
  }

  // ---------------------------------------------------------------- settle facts

  /** settleHighCardDraw looks at nothing but the two top cards. */
  lemma {:induction false} HighCardFromTop(h1: seq<Card>, h2: seq<Card>, i: nat)
    requires |h1| > 0 ==> |h2| > 0
    ensures HighCardFrom(h1, h2, i) == if i < |h1| then h1[0].rank - h2[0].rank else 0
    decreases |h1| - i
  {
    if i < |h1| && h1[0].rank - h2[0].rank == 0 {
      HighCardFromTop(h1, h2, i + 1);
    }
  }

  /** checkPairDraw with the hands swapped negates the difference and swaps the rests. */
  lemma CheckPairDrawSwap(h1: seq<Card>, h2: seq<Card>)
    requires HasPair(h1) != -1 && HasPair(h2) != -1
    ensures CheckPairDraw(h2, h1)
            == PairDraw(-CheckPairDraw(h1, h2).diff, CheckPairDraw(h1, h2).rest2, CheckPairDraw(h1, h2).rest1)
  {
  }

  /** Each same-category tie-break is antisymmetric. */
  lemma SettleDrawAntisymmetric(h1: seq<Card>, h2: seq<Card>, v: HandValue)
    requires |h1| == HandSize && |h2| == HandSize
    requires Classify(h1) == v && Classify(h2) == v
    ensures SettleDraw(h1, h2, v) == -SettleDraw(h2, h1, v)
  {
    ClassifyWitness(h1);
    ClassifyWitness(h2);
    match v
    case HighCard => SettleHighCardAntisymmetric(h1, h2);
    case Pair => SettlePairAntisymmetric(h1, h2);
    case TwoPair => SettleTwoPairAntisymmetric(h1, h2);
    case _ =>
  }

  lemma SettleHighCardAntisymmetric(h1: seq<Card>, h2: seq<Card>)
    requires |h1| == |h2| == HandSize
    ensures SettleHighCard(h1, h2) == -SettleHighCard(h2, h1)
  {
    HighCardFromTop(h1, h2, 0);
    HighCardFromTop(h2, h1, 0);
  }

  lemma SettlePairAntisymmetric(h1: seq<Card>, h2: seq<Card>)
    requires |h1| == |h2| == HandSize && HasPair(h1) != -1 && HasPair(h2) != -1
    ensures SettlePair(h1, h2) == -SettlePair(h2, h1)
  {
    var d := CheckPairDraw(h1, h2);
    CheckPairDrawSwap(h1, h2);
    HighCardFromTop(d.rest1, d.rest2, 0);
    HighCardFromTop(d.rest2, d.rest1, 0);
  }

  lemma SettleTwoPairAntisymmetric(h1: seq<Card>, h2: seq<Card>)
    requires |h1| == |h2| == HandSize && SecondPairFound(h1) && SecondPairFound(h2)
    ensures SettleTwoPair(h1, h2) == -SettleTwoPair(h2, h1)
  {
    var d := CheckPairDraw(h1, h2);
    CheckPairDrawSwap(h1, h2);
    CheckPairDrawSwap(d.rest1, d.rest2);
  }

  /** Every same-category tie-break returns 0 for a hand against itself. */
  lemma SettleDrawReflexive(h: seq<Card>, v: HandValue)
    requires |h| == HandSize && Classify(h) == v
    ensures SettleDraw(h, h, v) == 0
  {
    SettleDrawAntisymmetric(h, h, v);
  }

  // ---------------------------------------------------------------- compareHands

  /** compareHands(h, h) is 0. */
  lemma CompareHandsReflexive(h: seq<Card>)
    requires |h| == HandSize
    ensures CompareHandsOf(h, h) == 0
  {
    var s := Sort(RankComparator, h);
    SettleDrawReflexive(s, Classify(s));
  }

  /** Swapping the hands negates compareHands. */
  lemma CompareHandsAntisymmetric(a: seq<Card>, b: seq<Card>)
    requires |a| == HandSize && |b| == HandSize
    ensures CompareHandsOf(a, b) == -CompareHandsOf(b, a)
  {
    var s1 := Sort(RankComparator, a);
    var s2 := Sort(RankComparator, b);
    if Classify(s1) == Classify(s2) {
      SettleDrawAntisymmetric(s1, s2, Classify(s1));
    }
  }

  /** compareHands depends only on which cards each hand holds. */
  lemma CompareHandsOrderIndependent(a: seq<Card>, a': seq<Card>, b: seq<Card>, b': seq<Card>)
    requires |a| == HandSize && |b| == HandSize
    requires multiset(a) == multiset(a') && multiset(b) == multiset(b')
    ensures |a'| == HandSize && |b'| == HandSize
    ensures CompareHandsOf(a, b) == CompareHandsOf(a', b')
  {
    assert |multiset(a)| == |a| && |multiset(a')| == |a'|;
    assert |multiset(b)| == |b| && |multiset(b')| == |b'|;
    SortPermutation(RankComparator, a, a');
    SortPermutation(RankComparator, b, b');
  }

  // ---------------------------------------------------------------- tie-breaks

  /** Hands of one category are compared by that category's tie-break on their sorted copies. */
  lemma CompareSameCategory(a: seq<Card>, b: seq<Card>)
    requires |a| == HandSize && |b| == HandSize
    requires HandValueOf(a) == HandValueOf(b)
    ensures CompareHandsOf(a, b)
            == SettleDraw(Sort(RankComparator, a), Sort(RankComparator, b), HandValueOf(a))
  {
  }

  /** Rank counts of a hand and of its sorted copy agree. */
  lemma SortedCounts(h: seq<Card>)
    ensures forall r: Rank :: RankCount(Sort(RankComparator, h), r) == RankCount(h, r)
  {
    forall r: Rank ensures RankCount(Sort(RankComparator, h), r) == RankCount(h, r) {
      RankCountPermutation(Sort(RankComparator, h), h, r);
    }
  }

  /** The first card of a hand sorted by rank carries its highest rank. */
  lemma TopOfSorted(h: seq<Card>)
    requires |h| == HandSize
    ensures TopRank(h) == Sort(RankComparator, h)[0].rank
  {
    var s := Sort(RankComparator, h);
    SortedByRankDescends(h);
    SortedCounts(h);
    RankCount5(s, s[0].rank);
    forall q: Rank | s[0].rank < q ensures RankCount(h, q) == 0 {
      RankCount5(s, q);
    }
    HighestIs(h, -1, s[0].rank);
  }

  /** Straights, flushes, straight flushes and high-card hands of one category
      are compared by their highest ranks alone. An ace-low straight counts
      as ace-high here. */
  lemma CompareByTopRank(a: seq<Card>, b: seq<Card>)
    requires |a| == HandSize && |b| == HandSize
    requires HandValueOf(a) == HandValueOf(b)
    requires HandValueOf(a) in {StraightFlush, Flush, Straight, HighCard}
    ensures CompareHandsOf(a, b) == TopRank(a) - TopRank(b)
  {
    var s1 := Sort(RankComparator, a);
    var s2 := Sort(RankComparator, b);
    TopOfSorted(a);
    TopOfSorted(b);
    HighCardFromTop(s1, s2, 0);
  }

  /** In a sorted five-card hand, the rank of a run of `n` cards is the rank
      held `n` times, when more than half the hand holds it. */
  lemma RunRank(s: seq<Card>, k: nat, n: nat, r: Rank)
    requires |s| == HandSize && 3 <= n && k + n <= HandSize && Run(s, k, n)
    requires RankCount(s, r) >= n
    ensures s[k].rank == r
  {
    RankCount5(s, r);
    RankCount5(s, s[k].rank);
    assert forall j :: k <= j < k + n ==> s[j].rank == s[k].rank;
  }

  /** Four-of-a-kind ties are decided by the rank of the quads alone. */
  lemma CompareFourOfAKind(a: seq<Card>, b: seq<Card>, ra: Rank, rb: Rank)
    requires |a| == HandSize && |b| == HandSize
    requires HandValueOf(a) == FourOfAKind && HandValueOf(b) == FourOfAKind
    requires RankCount(a, ra) >= 4 && RankCount(b, rb) >= 4
    ensures CompareHandsOf(a, b) == ra - rb
  {
    var s1 := Sort(RankComparator, a);
    var s2 := Sort(RankComparator, b);
    SortedCounts(a);
    SortedCounts(b);
    ClassifyWitness(s1);
    ClassifyWitness(s2);
    SettleFourOfAKindSorted(s1, s2, ra, rb);
  }

  lemma SettleFourOfAKindSorted(s1: seq<Card>, s2: seq<Card>, ra: Rank, rb: Rank)
    requires |s1| == HandSize && |s2| == HandSize
    requires HasFourOfAKind(s1) != -1 && HasFourOfAKind(s2) != -1
    requires RankCount(s1, ra) >= 4 && RankCount(s2, rb) >= 4
    ensures SettleFourOfAKind(s1, s2) == ra - rb
  {
    RunRank(s1, HasFourOfAKind(s1), 4, ra);
    RunRank(s2, HasFourOfAKind(s2), 4, rb);
  }

  /** Full-house ties are decided by the rank of the three of a kind alone. */
  lemma CompareFullHouse(a: seq<Card>, b: seq<Card>, ta: Rank, tb: Rank)
    requires |a| == HandSize && |b| == HandSize
    requires HandValueOf(a) == FullHouse && HandValueOf(b) == FullHouse
    requires RankCount(a, ta) >= 3 && RankCount(b, tb) >= 3
    ensures CompareHandsOf(a, b) == ta - tb
  {
    var s1 := Sort(RankComparator, a);
    var s2 := Sort(RankComparator, b);
    SortedCounts(a);
    SortedCounts(b);
    ClassifyWitness(s1);
    ClassifyWitness(s2);
    SettleFullHouseSorted(s1, s2, ta, tb);
  }

  lemma SettleFullHouseSorted(s1: seq<Card>, s2: seq<Card>, ta: Rank, tb: Rank)
    requires |s1| == HandSize && |s2| == HandSize
    requires HasFullHouse(s1) != -1 && HasFullHouse(s2) != -1
    requires RankCount(s1, ta) >= 3 && RankCount(s2, tb) >= 3
    ensures SettleFullHouse(s1, s2) == ta - tb
  {
    RunRank(s1, HasFullHouse(s1), 3, ta);
    RunRank(s2, HasFullHouse(s2), 3, tb);
  }

  /** Three-of-a-kind ties are decided by the rank of the triple alone. */
  lemma CompareThreeOfAKind(a: seq<Card>, b: seq<Card>, ta: Rank, tb: Rank)
    requires |a| == HandSize && |b| == HandSize
    requires HandValueOf(a) == ThreeOfAKind && HandValueOf(b) == ThreeOfAKind
    requires RankCount(a, ta) >= 3 && RankCount(b, tb) >= 3
    ensures CompareHandsOf(a, b) == ta - tb
  {
    var s1 := Sort(RankComparator, a);
    var s2 := Sort(RankComparator, b);
    SortedCounts(a);
    SortedCounts(b);
    ClassifyWitness(s1);
    ClassifyWitness(s2);
    SettleThreeOfAKindSorted(s1, s2, ta, tb);
  }

  lemma SettleThreeOfAKindSorted(s1: seq<Card>, s2: seq<Card>, ta: Rank, tb: Rank)
    requires |s1| == HandSize && |s2| == HandSize
    requires HasThreeOfAKind(s1) != -1 && HasThreeOfAKind(s2) != -1
    requires RankCount(s1, ta) >= 3 && RankCount(s2, tb) >= 3
    ensures SettleThreeOfAKind(s1, s2) == ta - tb
  {
    RunRank(s1, HasThreeOfAKind(s1), 3, ta);
    RunRank(s2, HasThreeOfAKind(s2), 3, tb);
  }

  /** Where checkPairDraw finds the pair of a sorted one-pair hand, and what
      settleHighCardDraw then sees first among the three other cards. */
  lemma PairShape(s: seq<Card>, pa: Rank)
    requires Descending5(s) && RankCount(s, pa) == 2
    requires forall r: Rank :: r != pa ==> RankCount(s, r) <= 1
    ensures HasPair(s) != -1 && s[HasPair(s)].rank == pa
    ensures var rest := RemoveRun(s, HasPair(s), 2);
            rest[0].rank != pa && RankCount(s, rest[0].rank) > 0
            && forall q: Rank :: rest[0].rank < q && q != pa ==> RankCount(s, q) == 0
  {
    PairMatches(s);
    var p := HasPair(s);
    assert s[p + 1].rank == s[p].rank;
    RankCount5(s, pa);
    RankCount5(s, s[p].rank);
    var rest := RemoveRun(s, p, 2);
    RankCount5(s, rest[0].rank);
    forall q: Rank | rest[0].rank < q && q != pa ensures RankCount(s, q) == 0 {
      RankCount5(s, q);
    }
  }

  /** HighestFrom depends only on which cards are held. */
  lemma {:induction false} HighestFromPermutation(a: seq<Card>, b: seq<Card>, x: int, r: int)
    requires multiset(a) == multiset(b) && -1 <= r < NumRanks
    ensures HighestFrom(a, x, r) == HighestFrom(b, x, r)
    decreases r + 1
  {
    if r >= 0 {
      RankCountPermutation(a, b, r);
      HighestFromPermutation(a, b, x, r - 1);
    }
  }

  /** A one-pair hand holds its pair rank twice and every other rank at most once. */
  lemma OnePairCounts(s: seq<Card>, pa: Rank)
    requires ReferenceValue(s) == Pair && RankCount(s, pa) >= 2
    ensures RankCount(s, pa) == 2
    ensures forall r: Rank :: r != pa ==> RankCount(s, r) <= 1
  {
  }

  /** settlePairDraw on two sorted one-pair hands. */
  lemma SettlePairSorted(s1: seq<Card>, s2: seq<Card>, pa: Rank, pb: Rank)
    requires Descending5(s1) && Descending5(s2)
    requires Classify(s1) == Pair && Classify(s2) == Pair
    requires RankCount(s1, pa) >= 2 && RankCount(s2, pb) >= 2
    ensures SettleDraw(s1, s2, Pair)
            == if pa != pb then pa - pb else TopKicker(s1, pa) - TopKicker(s2, pb)
  {
    ClassifyMatchesReference(s1);
    ClassifyMatchesReference(s2);
    OnePairCounts(s1, pa);
    OnePairCounts(s2, pb);
    PairShape(s1, pa);
    PairShape(s2, pb);
    var d := CheckPairDraw(s1, s2);
    HighCardFromTop(d.rest1, d.rest2, 0);
    HighestIs(s1, pa, d.rest1[0].rank);
    HighestIs(s2, pb, d.rest2[0].rank);
  }

  /** One-pair ties compare the pair ranks and then only the highest of the
      other three ranks; the two lower kickers are never looked at. */
  lemma ComparePair(a: seq<Card>, b: seq<Card>, pa: Rank, pb: Rank)
    requires |a| == HandSize && |b| == HandSize
    requires HandValueOf(a) == Pair && HandValueOf(b) == Pair
    requires RankCount(a, pa) >= 2 && RankCount(b, pb) >= 2
    ensures CompareHandsOf(a, b)
            == if pa != pb then pa - pb else TopKicker(a, pa) - TopKicker(b, pb)
  {
    var s1 := Sort(RankComparator, a);
    var s2 := Sort(RankComparator, b);
    RankCountPermutation(s1, a, pa);
    RankCountPermutation(s2, b, pb);
    SortedByRankDescends(a);
    SortedByRankDescends(b);
    SettlePairSorted(s1, s2, pa, pb);
    HighestFromPermutation(s1, a, pa, Ace);
    HighestFromPermutation(s2, b, pb, Ace);
  }

  /** The three values the two-pair tie-break reads from a sorted hand. */
  predicate TwoPairReads(s: seq<Card>, hi: Rank, lo: Rank, kicker: Rank)
    requires |s| == HandSize
  {
    SecondPairFound(s)
    && var rest1 := RemoveRun(s, HasPair(s), 2);
       var rest2 := RemoveRun(rest1, HasPair(rest1), 2);
       s[HasPair(s)].rank == hi && rest1[HasPair(rest1)].rank == lo && rest2[0].rank == kicker
  }

  /** On a sorted two-pair hand the first pair found is the higher one, the
      second the lower one, and the card left is the kicker. */
  lemma TwoPairShape(s: seq<Card>, hi: Rank, lo: Rank, kicker: Rank)
    requires Descending5(s) && hi > lo && kicker != hi && kicker != lo
    requires RankCount(s, hi) >= 2 && RankCount(s, lo) >= 2 && RankCount(s, kicker) >= 1
    ensures TwoPairReads(s, hi, lo, kicker)
  {
    RankCount5(s, hi);
    RankCount5(s, lo);
    RankCount5(s, kicker);
    if kicker > hi {
      assert s[0].rank == kicker && s[1].rank == hi && s[2].rank == hi;
      assert s[3].rank == lo && s[4].rank == lo;
      assert !Run(s, 0, 2) && Run(s, 1, 2);
      var rest1 := RemoveRun(s, 1, 2);
      assert rest1[0] == s[0] && rest1[1] == s[3] && rest1[2] == s[4];
      assert !Run(rest1, 0, 2) && Run(rest1, 1, 2);
    } else if kicker > lo {
      assert s[0].rank == hi && s[1].rank == hi && s[2].rank == kicker;
      assert s[3].rank == lo && s[4].rank == lo;
      assert Run(s, 0, 2);
      var rest1 := RemoveRun(s, 0, 2);
      assert rest1[0] == s[2] && rest1[1] == s[3] && rest1[2] == s[4];
      assert !Run(rest1, 0, 2) && Run(rest1, 1, 2);
    } else {
      assert s[0].rank == hi && s[1].rank == hi && s[2].rank == lo;
      assert s[3].rank == lo && s[4].rank == kicker;
      assert Run(s, 0, 2);
      var rest1 := RemoveRun(s, 0, 2);
      assert Run(rest1, 0, 2);
    }
  }

  /** settleTwoPairDraw on two sorted two-pair hands. */
  lemma SettleTwoPairSorted(s1: seq<Card>, s2: seq<Card>,
                            ha: Rank, la: Rank, ka: Rank, hb: Rank, lb: Rank, kb: Rank)
    requires |s1| == HandSize && |s2| == HandSize
    requires Classify(s1) == TwoPair && Classify(s2) == TwoPair
    requires TwoPairReads(s1, ha, la, ka) && TwoPairReads(s2, hb, lb, kb)
    ensures SettleDraw(s1, s2, TwoPair)
            == if ha != hb then ha - hb else if la != lb then la - lb else ka - kb
  {
    SettleTwoPairReads(s1, s2, ha, la, ka, hb, lb, kb);
  }

  lemma SettleTwoPairReads(s1: seq<Card>, s2: seq<Card>,
                           ha: Rank, la: Rank, ka: Rank, hb: Rank, lb: Rank, kb: Rank)
    requires |s1| == HandSize && |s2| == HandSize
    requires TwoPairReads(s1, ha, la, ka) && TwoPairReads(s2, hb, lb, kb)
    ensures SettleTwoPair(s1, s2)
            == if ha != hb then ha - hb else if la != lb then la - lb else ka - kb
  {
  }

  /** TwoPairShape for the sorted copy of a hand, given the ranks it holds. */
  lemma TwoPairOfSorted(h: seq<Card>, hi: Rank, lo: Rank, kicker: Rank)
    requires |h| == HandSize && hi > lo && kicker != hi && kicker != lo
    requires RankCount(h, hi) >= 2 && RankCount(h, lo) >= 2 && RankCount(h, kicker) >= 1
    ensures TwoPairReads(Sort(RankComparator, h), hi, lo, kicker)
  {
    var s := Sort(RankComparator, h);
    RankCountPermutation(s, h, hi);
    RankCountPermutation(s, h, lo);
    RankCountPermutation(s, h, kicker);
    SortedByRankDescends(h);
    TwoPairShape(s, hi, lo, kicker);
  }

  /** Two-pair ties compare the higher pairs, then the lower pairs, then the kickers. */
  lemma CompareTwoPair(a: seq<Card>, b: seq<Card>,
                       ha: Rank, la: Rank, ka: Rank, hb: Rank, lb: Rank, kb: Rank)
    requires |a| == HandSize && |b| == HandSize
    requires HandValueOf(a) == TwoPair && HandValueOf(b) == TwoPair
    requires ha > la && ka != ha && ka != la
    requires RankCount(a, ha) >= 2 && RankCount(a, la) >= 2 && RankCount(a, ka) >= 1
    requires hb > lb && kb != hb && kb != lb
    requires RankCount(b, hb) >= 2 && RankCount(b, lb) >= 2 && RankCount(b, kb) >= 1
    ensures CompareHandsOf(a, b)
            == if ha != hb then ha - hb else if la != lb then la - lb else ka - kb
  {
    CompareSameCategory(a, b);
    TwoPairOfSorted(a, ha, la, ka);
    TwoPairOfSorted(b, hb, lb, kb);
    SettleTwoPairSorted(Sort(RankComparator, a), Sort(RankComparator, b), ha, la, ka, hb, lb, kb);
  }

  // ---------------------------------------------------------------- as-written outcomes

  /** Five cards whose suits all equal the first card's. */
  predicate OneSuit(h: seq<Card>)
    requires |h| == HandSize
  {
    h[1].suit == h[0].suit && h[2].suit == h[0].suit && h[3].suit == h[0].suit && h[4].suit == h[0].suit
  }

  lemma OneSuitFlush(h: seq<Card>)
    requires |h| == HandSize && OneSuit(h)
    ensures IsFlush(h)
  {
    forall c | c in h ensures c.suit == h[0].suit {
      var i :| 0 <= i < |h| && h[i] == c;
    }
  }

  /** A straight flush of one suit from ten down to six. */
  function TenHighStraightFlush(): seq<Card>
  {
    [Card(Seven, Diamonds), Card(Six, Diamonds), Card(Eight, Diamonds),
     Card(Nine, Diamonds), Card(Ten, Diamonds)]
  }

  /** A straight flush of one suit from five down to an ace played low. */
  function WheelStraightFlush(): seq<Card>
  {
    [Card(Three, Clubs), Card(Ace, Clubs), Card(Five, Clubs),
     Card(Four, Clubs), Card(Deuce, Clubs)]
  }

  lemma TenHighFacts()
    ensures ReferenceValue(TenHighStraightFlush()) == StraightFlush
    ensures TopRank(TenHighStraightFlush()) == Ten
  {
    var t := TenHighStraightFlush();
    OneSuitFlush(t);
    AllRankCounts5(t);
    assert FiveInARow(t, Six);
    TenHighTop();
  }

  lemma TenHighTop()
    ensures TopRank(TenHighStraightFlush()) == Ten
  {
    var t := TenHighStraightFlush();
    AllRankCounts5(t);
    HighestIs(t, -1, Ten);
  }

  lemma WheelFacts()
    ensures ReferenceValue(WheelStraightFlush()) == StraightFlush
    ensures TopRank(WheelStraightFlush()) == Ace
  {
    var w := WheelStraightFlush();
    OneSuitFlush(w);
    AllRankCounts5(w);
    assert IsWheel(w);
    HighestIs(w, -1, Ace);
  }

  /** Both hands above are straight flushes, and compareHands ranks the
      ace-low one higher because its top sorted card is the ace. */
  lemma WheelBeatsTenHighStraightFlush()
    ensures HandValueOf(TenHighStraightFlush()) == StraightFlush
    ensures HandValueOf(WheelStraightFlush()) == StraightFlush
    ensures CompareHandsOf(TenHighStraightFlush(), WheelStraightFlush()) == Ten - Ace
  {
    TenHighFacts();
    WheelFacts();
    EvaluateIsStandard(TenHighStraightFlush());
    EvaluateIsStandard(WheelStraightFlush());
    CompareByTopRank(TenHighStraightFlush(), WheelStraightFlush());
  }

  /** Ace, king, eight, three, deuce of hearts. */
  function LowerFlush(): seq<Card>
  {
    [Card(Ace, Hearts), Card(King, Hearts), Card(Eight, Hearts),
     Card(Three, Hearts), Card(Deuce, Hearts)]
  }

  /** Ace, king, eight, four, deuce of clubs. */
  function HigherFlush(): seq<Card>
  {
    [Card(Ace, Clubs), Card(King, Clubs), Card(Eight, Clubs),
     Card(Four, Clubs), Card(Deuce, Clubs)]
  }

  /** Five cards of five different ranks hold no rank twice. */
  lemma DifferentRanks(h: seq<Card>)
    requires |h| == HandSize
    requires forall i, j :: 0 <= i < j < HandSize ==> h[i].rank != h[j].rank
    ensures forall r: Rank :: RankCount(h, r) <= 1
    ensures !IsPair(h) && !IsTwoPair(h) && !IsThreeOfAKind(h)
    ensures !IsFullHouse(h) && !IsFourOfAKind(h)
  {
    forall r: Rank ensures RankCount(h, r) <= 1 {
      RankCount5(h, r);
    }
  }

  /** Ranks ace, king, eight, x, deuce with x below eight form no straight. */
  lemma AceKingEightNoStraight(h: seq<Card>)
    requires |h| == HandSize && h[0].rank == Ace && h[1].rank == King
    requires h[2].rank == Eight && Deuce < h[3].rank < Eight && h[4].rank == Deuce
    ensures !IsStraight(h)
  {
    AllRankCounts5(h);
    forall lo ensures !FiveInARow(h, lo) {
      if 0 <= lo <= Ten {
        assert RankCount(h, lo + 4) != 1 || RankCount(h, lo + 1) != 1 || RankCount(h, lo + 2) != 1;
      }
    }
  }

  lemma FlushFacts()
    ensures ReferenceValue(LowerFlush()) == Flush && TopRank(LowerFlush()) == Ace
    ensures ReferenceValue(HigherFlush()) == Flush && TopRank(HigherFlush()) == Ace
  {
    AceKingEightFlush(LowerFlush());
    AceKingEightFlush(HigherFlush());
  }

  /** A one-suit hand of ranks ace, king, eight, x, deuce with x below eight
      is an ace-high flush. */
  lemma AceKingEightFlush(h: seq<Card>)
    requires |h| == HandSize && h[0].rank == Ace && h[1].rank == King
    requires h[2].rank == Eight && Deuce < h[3].rank < Eight && h[4].rank == Deuce
    requires OneSuit(h)
    ensures ReferenceValue(h) == Flush && TopRank(h) == Ace
  {
    OneSuitFlush(h);
    DifferentRanks(h);
    AceKingEightNoStraight(h);
    RankCount5(h, Ace);
    HighestIs(h, -1, Ace);
  }

  /** Two flushes that differ only in their fourth card compare as a draw. */
  lemma FlushesWithEqualTopCardsDraw()
    ensures HandValueOf(LowerFlush()) == Flush && HandValueOf(HigherFlush()) == Flush
    ensures CompareHandsOf(LowerFlush(), HigherFlush()) == 0
  {
    FlushFacts();
    EvaluateIsStandard(LowerFlush());
    EvaluateIsStandard(HigherFlush());
    CompareByTopRank(LowerFlush(), HigherFlush());
  }

  /** Ace, king, eight, four, deuce of mixed suits. */
  function AceKingHigh(): seq<Card>
  {
    [Card(Ace, Spades), Card(King, Hearts), Card(Eight, Clubs),
     Card(Four, Diamonds), Card(Deuce, Spades)]
  }

  /** Ace, queen, seven, five, three of mixed suits. */
  function AceQueenHigh(): seq<Card>
  {
    [Card(Ace, Hearts), Card(Queen, Clubs), Card(Seven, Diamonds),
     Card(Five, Spades), Card(Three, Clubs)]
  }

  lemma HighCardFacts()
    ensures ReferenceValue(AceKingHigh()) == HighCard && TopRank(AceKingHigh()) == Ace
    ensures ReferenceValue(AceQueenHigh()) == HighCard && TopRank(AceQueenHigh()) == Ace
  {
    AceKingHighFacts();
    AceQueenHighFacts();
  }

  lemma AceKingHighFacts()
    ensures ReferenceValue(AceKingHigh()) == HighCard && TopRank(AceKingHigh()) == Ace
  {
    var a := AceKingHigh();
    DifferentRanks(a);
    AceKingEightNoStraight(a);
    assert !IsFlush(a) by { assert a[0] in a && a[1] in a; }
    HighestIs(a, -1, Ace);
  }

  lemma AceQueenHighFacts()
    ensures ReferenceValue(AceQueenHigh()) == HighCard && TopRank(AceQueenHigh()) == Ace
  {
    var b := AceQueenHigh();
    DifferentRanks(b);
    AllRankCounts5(b);
    forall lo ensures !FiveInARow(b, lo) {
      if 0 <= lo <= Ten {
        assert RankCount(b, lo + 1) != 1 || RankCount(b, lo + 2) != 1;
      }
    }
    assert !IsFlush(b) by { assert b[0] in b && b[1] in b; }
    HighestIs(b, -1, Ace);
  }

  /** High-card hands with the same top rank compare as a draw, whatever follows. */
  lemma HighCardsWithEqualTopDraw()
    ensures HandValueOf(AceKingHigh()) == HighCard && HandValueOf(AceQueenHigh()) == HighCard
    ensures CompareHandsOf(AceKingHigh(), AceQueenHigh()) == 0
  {
    HighCardFacts();
    EvaluateIsStandard(AceKingHigh());
    EvaluateIsStandard(AceQueenHigh());
    CompareByTopRank(AceKingHigh(), AceQueenHigh());
  }
}
