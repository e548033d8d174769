/** HandEvaluator.java: classification of a five-card hand into one of nine
    categories by a fixed chain of detectors, and the comparison of two hands.
    The detectors and tie-breaks are written as the Java code does them, on a
    hand already sorted by CardRankComparator (highest rank first). */
module HandEvaluator {
  import opened Cards
  import opened Comparators
  import opened Sorting

  /** Every hand the game evaluates has five cards. */
  const HandSize := 5

  /** HandValues, worst to best; `Ordinal` is the enum ordinal. */
  datatype HandValue =
    | HighCard | Pair | TwoPair | ThreeOfAKind | Straight
    | Flush | FullHouse | FourOfAKind | StraightFlush
  {
    function Ordinal(): (n: nat)
      ensures n < 9
      ensures n == 0 <==> this == HighCard
      ensures n == 8 <==> this == StraightFlush
    {
      match this
      case HighCard => 0
      case Pair => 1
      case TwoPair => 2
      case ThreeOfAKind => 3
      case Straight => 4
      case Flush => 5
      case FullHouse => 6
      case FourOfAKind => 7
      case StraightFlush => 8
    }
  }

  /** Enum.compareTo on hand values: the difference of the ordinals. */
  function CompareValues(v: HandValue, w: HandValue): (r: int)
    ensures r == 0 <==> v == w
  {
    v.Ordinal() - w.Ordinal()
  }

  // ---------------------------------------------------------------- detectors

  /** Positions i .. i+n-1 of `h` all hold the rank of position i (the chain
      of adjacent rank comparisons in hasPair / hasThreeOfAKind / hasFourOfAKind). */
  predicate Run(h: seq<Card>, i: nat, n: nat)
    requires i + n <= |h|
  {
    forall k :: i <= k < i + n ==> h[k].rank == h[i].rank
  }

  /** The scanning loop of the same-rank detectors, started at index `i`:
      the first index from `i` on where a run of `n` equal ranks starts, or -1. */
  function RunFrom(h: seq<Card>, n: nat, i: nat): (r: int)
    requires 1 <= n
    ensures r == -1 || (i <= r && r + n <= |h| && Run(h, r, n))
    ensures r != -1 ==> forall k :: i <= k < r ==> !Run(h, k, n)
    ensures r == -1 <==> forall k :: i <= k && k + n <= |h| ==> !Run(h, k, n)
    decreases |h| - i
  {
    if i + n > |h| then -1
    else if Run(h, i, n) then i
    else RunFrom(h, n, i + 1)
  }

  /** hasPair: index of the first card of the first pair, or -1. */
  function HasPair(h: seq<Card>): int { RunFrom(h, 2, 0) }

  /** hasThreeOfAKind: index of the first card of the first triple, or -1. */
  function HasThreeOfAKind(h: seq<Card>): int { RunFrom(h, 3, 0) }

  /** hasFourOfAKind: index of the first card of the first quad, or -1. */
  function HasFourOfAKind(h: seq<Card>): int { RunFrom(h, 4, 0) }

  /** The list left after `remove(i)` is called `n` times. */
  function RemoveRun(h: seq<Card>, i: nat, n: nat): (r: seq<Card>)
    requires i + n <= |h|
    ensures |r| == |h| - n
    ensures forall k :: 0 <= k < i ==> r[k] == h[k]
    ensures forall k :: i <= k < |r| ==> r[k] == h[k + n]
  {
    h[..i] + h[i + n..]
  }

  /** hasTwoPair: the first pair's index when another pair starts two or
      more positions after it, else -1. */
  function HasTwoPair(h: seq<Card>): int
  {
    var first := HasPair(h);
    if first == -1 then -1
    else if RunFrom(h, 2, first + 2) != -1 then first
    else -1
  }

  /** hasFullHouse: the triple's index when the two remaining cards hold a pair. */
  function HasFullHouse(h: seq<Card>): int
  {
    var three := HasThreeOfAKind(h);
    if three == -1 then -1
    else if HasPair(RemoveRun(h, three, 3)) == -1 then -1
    else three
  }

  /** The loop of hasFlush: every card has the suit of its successor. */
  predicate AdjacentSuitsEqual(s: seq<Card>)
  {
    forall i :: 0 <= i < |s| - 1 ==> s[i].suit == s[i + 1].suit
  }

  /** hasFlush: 0 when all adjacent suits of the suit-sorted copy agree, else -1. */
  function HasFlush(h: seq<Card>): int
  {
    if AdjacentSuitsEqual(Sort(SuitComparator, h)) then 0 else -1
  }

  /** The loops of hasStraight: from index `from` on, each rank is one more
      than the next. */
  predicate DescendingByOne(h: seq<Card>, from: nat)
  {
    forall i :: from <= i < |h| - 1 ==> h[i].rank - h[i + 1].rank == 1
  }

  /** hasStraight: an ace on top is accepted either before a king or with a
      deuce at the bottom, provided the other four cards descend by one;
      otherwise all five cards must descend by one. */
  function HasStraight(h: seq<Card>): int
    requires |h| == HandSize
  {
    if h[0].rank == Ace && !DescendingByOne(h, 1) then -1
    else if h[0].rank == Ace && (h[1].rank == King || h[|h| - 1].rank == Deuce) then 0
    else if DescendingByOne(h, 0) then 0
    else -1
  }

  /** hasStraightFlush: 0 when both hasStraight and hasFlush return 0. */
  function HasStraightFlush(h: seq<Card>): int
    requires |h| == HandSize
  {
    if HasStraight(h) == 0 && HasFlush(h) == 0 then 0 else -1
  }

  /** The priority chain of evaluate, applied to the hand as it stands. */
  function Classify(h: seq<Card>): HandValue
    requires |h| == HandSize
  {
    if HasStraightFlush(h) != -1 then StraightFlush
    else if HasFourOfAKind(h) != -1 then FourOfAKind
    else if HasFullHouse(h) != -1 then FullHouse
    else if HasFlush(h) != -1 then Flush
    else if HasStraight(h) != -1 then Straight
    else if HasThreeOfAKind(h) != -1 then ThreeOfAKind
    else if HasTwoPair(h) != -1 then TwoPair
    else if HasPair(h) != -1 then Pair
    else HighCard
  }

  /** The value evaluate returns: the chain applied after sorting by rank. */
  function HandValueOf(hand: seq<Card>): HandValue
    requires |hand| == HandSize
  {
    Classify(Sort(RankComparator, hand))
  }

  /** A category's detector finds what the category claims. */
  lemma ClassifyWitness(h: seq<Card>)
    requires |h| == HandSize
    ensures Classify(h) == FourOfAKind ==> HasFourOfAKind(h) != -1
    ensures Classify(h) == FullHouse ==> HasFullHouse(h) != -1
    ensures Classify(h) == ThreeOfAKind ==> HasThreeOfAKind(h) != -1
    ensures Classify(h) == TwoPair ==> SecondPairFound(h)
    ensures Classify(h) == Pair ==> HasPair(h) != -1
  {
    if Classify(h) == TwoPair {
      TwoPairHasSecondPair(h);
    }
  }

  /** After the first pair is removed, a second pair is still there. */
  predicate SecondPairFound(h: seq<Card>)
  {
    var first := HasPair(h);
    first != -1 && first + 2 <= |h| && HasPair(RemoveRun(h, first, 2)) != -1
  }

  /** hasTwoPair's second pair survives the removal of the first one. */
  lemma TwoPairHasSecondPair(h: seq<Card>)
    requires HasTwoPair(h) != -1
    ensures SecondPairFound(h)
  {
    var first := HasPair(h);
    var second := RunFrom(h, 2, first + 2);
    var rest := RemoveRun(h, first, 2);
    assert rest[second - 2] == h[second] && rest[second - 1] == h[second + 1];
    assert Run(rest, second - 2, 2);
  }

  // ---------------------------------------------------------------- tie-breaks

  /** settleStraightOrFlushDraw: compares the ranks of the top cards. */
  function SettleStraightOrFlush(h1: seq<Card>, h2: seq<Card>): int
    requires |h1| > 0 && |h2| > 0
  {
    h1[0].rank - h2[0].rank
  }

  /** settleFourOfAKindDraw: compares the ranks found by hasFourOfAKind. */
  function SettleFourOfAKind(h1: seq<Card>, h2: seq<Card>): int
    requires HasFourOfAKind(h1) != -1 && HasFourOfAKind(h2) != -1
  {
    h1[HasFourOfAKind(h1)].rank - h2[HasFourOfAKind(h2)].rank
  }

  /** settleFullHouseDraw: compares the ranks found by hasFullHouse. */
  function SettleFullHouse(h1: seq<Card>, h2: seq<Card>): int
    requires HasFullHouse(h1) != -1 && HasFullHouse(h2) != -1
  {
    h1[HasFullHouse(h1)].rank - h2[HasFullHouse(h2)].rank
  }

  /** settleThreeOfAKindDraw: compares the ranks found by hasThreeOfAKind. */
  function SettleThreeOfAKind(h1: seq<Card>, h2: seq<Card>): int
    requires HasThreeOfAKind(h1) != -1 && HasThreeOfAKind(h2) != -1
  {
    h1[HasThreeOfAKind(h1)].rank - h2[HasThreeOfAKind(h2)].rank
  }

  /** What checkPairDraw returns, together with the two lists it leaves behind. */
  datatype PairDraw = PairDraw(diff: int, rest1: seq<Card>, rest2: seq<Card>)

  /** checkPairDraw: compares the ranks of the first pairs and removes both
      cards of each pair from its list. */
  function CheckPairDraw(h1: seq<Card>, h2: seq<Card>): (d: PairDraw)
    requires HasPair(h1) != -1 && HasPair(h2) != -1
    ensures |d.rest1| == |h1| - 2 && |d.rest2| == |h2| - 2
  {
    var i1 := HasPair(h1);
    var i2 := HasPair(h2);
    PairDraw(h1[i1].rank - h2[i2].rank, RemoveRun(h1, i1, 2), RemoveRun(h2, i2, 2))
  }

  /** The loop of settleHighCardDraw from pass `i` on. Every pass reads index 0. */
  function HighCardFrom(h1: seq<Card>, h2: seq<Card>, i: nat): int
    requires |h1| > 0 ==> |h2| > 0
    decreases |h1| - i
  {
    if i >= |h1| then 0
    else if h1[0].rank - h2[0].rank != 0 then h1[0].rank - h2[0].rank
    else HighCardFrom(h1, h2, i + 1)
  }

  /** settleHighCardDraw. */
  function SettleHighCard(h1: seq<Card>, h2: seq<Card>): int
    requires |h1| > 0 ==> |h2| > 0
  {
    HighCardFrom(h1, h2, 0)
  }

  /** settleTwoPairDraw: first pairs, then second pairs, then the remaining card. */
  function SettleTwoPair(h1: seq<Card>, h2: seq<Card>): int
    requires |h1| == HandSize && |h2| == HandSize
    requires SecondPairFound(h1) && SecondPairFound(h2)
  {
    var first := CheckPairDraw(h1, h2);
    if first.diff != 0 then first.diff
    else
      var second := CheckPairDraw(first.rest1, first.rest2);
      if second.diff != 0 then second.diff
      else second.rest1[0].rank - second.rest2[0].rank
  }

  /** settlePairDraw: the pairs, then settleHighCardDraw on what remains. */
  function SettlePair(h1: seq<Card>, h2: seq<Card>): int
    requires |h1| == HandSize && |h2| == HandSize
    requires HasPair(h1) != -1 && HasPair(h2) != -1
  {
    var first := CheckPairDraw(h1, h2);
    if first.diff != 0 then first.diff
    else SettleHighCard(first.rest1, first.rest2)
  }

  /** The same-category dispatch of compareHands (Game calls it settleDraw). */
  function SettleDraw(h1: seq<Card>, h2: seq<Card>, v: HandValue): int
    requires |h1| == HandSize && |h2| == HandSize
    requires Classify(h1) == v && Classify(h2) == v
  {
    ClassifyWitness(h1);
    ClassifyWitness(h2);
    match v
    case StraightFlush | Flush | Straight => SettleStraightOrFlush(h1, h2)
    case FourOfAKind => SettleFourOfAKind(h1, h2)
    case FullHouse => SettleFullHouse(h1, h2)
    case ThreeOfAKind => SettleThreeOfAKind(h1, h2)
    case TwoPair => SettleTwoPair(h1, h2)
    case Pair => SettlePair(h1, h2)
    case HighCard => SettleHighCard(h1, h2)
  }

  /** compareHands on the values of the two lists: negative when hand1 is
      worse, zero for a draw, positive when hand2 is worse. */
  function CompareHandsOf(hand1: seq<Card>, hand2: seq<Card>): (r: int)
    requires |hand1| == HandSize && |hand2| == HandSize
    ensures HandValueOf(hand1) != HandValueOf(hand2) ==>
              r == CompareValues(HandValueOf(hand1), HandValueOf(hand2))
  {
    var s1 := Sort(RankComparator, hand1);
    var s2 := Sort(RankComparator, hand2);
    var c := CompareValues(Classify(s1), Classify(s2));
    if c != 0 then c else SettleDraw(s1, s2, Classify(s1))
  }

  // ---------------------------------------------------------------- in place

  /** List.sort(new CardRankComparator()) on the caller's list. */
  method SortByRank(hand: array<Card>)
    modifies hand
    ensures hand[..] == Sort(RankComparator, old(hand[..]))
  {
    var sorted := Sort(RankComparator, hand[..]);
    forall i | 0 <= i < hand.Length {
      hand[i] := sorted[i];
    }
  }

  /** evaluate: sorts the caller's list by rank and classifies it. */
  method Evaluate(hand: array<Card>) returns (v: HandValue)
    requires hand.Length == HandSize
    modifies hand
    ensures hand[..] == Sort(RankComparator, old(hand[..]))
    ensures v == HandValueOf(old(hand[..]))
  {
    SortByRank(hand);
    v := Classify(hand[..]);
  }

  /** compareHands: sorts both lists in place (they may be the same list),
      compares the categories and settles a draw within one category. The
      evaluate calls re-sort lists that are already sorted, which changes nothing. */
  method CompareHands(hand1: array<Card>, hand2: array<Card>) returns (r: int)
    requires hand1.Length == HandSize && hand2.Length == HandSize
    modifies hand1, hand2
    ensures hand1[..] == Sort(RankComparator, old(hand1[..]))
    ensures hand2[..] == Sort(RankComparator, old(hand2[..]))
    ensures r == CompareHandsOf(old(hand1[..]), old(hand2[..]))
  {
    ghost var h1 := hand1[..];
    SortByRank(hand1);
    SortByRank(hand2);
    if hand1 == hand2 {
      SortSorted(RankComparator, h1);
      SortOfSorted(RankComparator, Sort(RankComparator, h1));
    }
    var v1 := Classify(hand1[..]);
    var v2 := Classify(hand2[..]);
    if CompareValues(v1, v2) != 0 {
      r := CompareValues(v1, v2);
    } else {
      r := SettleDraw(hand1[..], hand2[..], v1);
    }
  }
}
