/** Game.java: the table. Seats, antes into the stake, round-robin dealing,
    discards and redraws, bids, folds and the showdown that splits the stake. */
module Games {
  import opened Cards
  import opened Comparators
  import opened Sorting
  import opened HandEvaluator
  import opened HandRanking
  import opened HandComparison
  import opened Outcomes
  import opened Decks
  import opened Players
  import opened Showdown

  /** The ante when none is given. */
  const DefaultAnte := 5
  /** Cards dealt to each player by dealCards. */
  const CardsPerPlayer := 5
  /** The largest index draw accepts. */
  const MaxDiscardIndex := 4
  /** The most indices draw accepts. */
  const MaxDiscards := 4

  // ---------------------------------------------------------------- seats

  /** The ids of the seats, in seat order. */
  function IdsOf(ps: seq<Player>): (r: seq<int>)
    ensures |r| == |ps| && forall i :: 0 <= i < |ps| ==> r[i] == ps[i].id
  {
    if ps == [] then [] else [ps[0].id] + IdsOf(ps[1..])
  }

  /** The hands of the seats, in seat order. */
  function HandsOf(ps: seq<Player>): (r: seq<seq<Card>>)
    reads set p | p in ps :: p`hand
    ensures |r| == |ps| && forall i :: 0 <= i < |ps| ==> r[i] == ps[i].hand
    decreases |ps|
  {
    if ps == [] then []
    else
      assert ps[0] in ps && forall q :: q in ps[1..] ==> q in ps;
      [ps[0].hand] + HandsOf(ps[1..])
  }

  /** Each hand sorted by rank, as getHand leaves it. */
  function SortAll(hands: seq<seq<Card>>): (r: seq<seq<Card>>)
    ensures |r| == |hands| && forall i :: 0 <= i < |hands| ==> r[i] == Sort(RankComparator, hands[i])
  {
    if hands == [] then [] else [Sort(RankComparator, hands[0])] + SortAll(hands[1..])
  }

  predicate FiveCards(hands: seq<seq<Card>>)
  {
    forall i :: 0 <= i < |hands| ==> |hands[i]| == HandSize
  }

  /** The category evaluate gives a hand it has sorted: Classify on five
      cards (every hand that reaches it has five), HighCard otherwise. */
  function Category(h: seq<Card>): HandValue
  {
    if |h| == HandSize then Classify(h) else HighCard
  }

  /** The map the loop of evaluateHands builds after the first `n` seats,
      for the evaluation `eval`: seat by seat, id to value, so a later seat
      with the same id overwrites an earlier one. */
  function EvaluatedUpTo(ids: seq<int>, hands: seq<seq<Card>>, eval: seq<Card> -> HandValue, n: nat)
    : (m: map<int, HandValue>)
    requires n <= |ids| == |hands|
    ensures forall j :: 0 <= j < n ==> ids[j] in m
    ensures forall k :: k in m ==> k in ids
  {
    if n == 0 then map[]
    else EvaluatedUpTo(ids, hands, eval, n - 1)[ids[n - 1] := eval(hands[n - 1])]
  }

  /** With distinct ids each id maps to the value of its own seat's hand. */
  lemma {:induction false} EvaluatedUpToDistinct(ids: seq<int>, hands: seq<seq<Card>>,
                                                 eval: seq<Card> -> HandValue, n: nat, j: nat)
    requires n <= |ids| == |hands| && Distinct(ids) && j < n
    ensures EvaluatedUpTo(ids, hands, eval, n)[ids[j]] == eval(hands[j])
  {
    if j < n - 1 {
      EvaluatedUpToDistinct(ids, hands, eval, n - 1, j);
      assert ids[j] != ids[n - 1];
    }
  }

  /** Each id maps to the value of the last seat holding it: a later put
      for the same id replaces an earlier one. */
  lemma {:induction false} EvaluatedUpToLast(ids: seq<int>, hands: seq<seq<Card>>,
                                             eval: seq<Card> -> HandValue, n: nat, j: nat)
    requires n <= |ids| == |hands| && j < n
    requires forall k :: j < k < n ==> ids[k] != ids[j]
    ensures EvaluatedUpTo(ids, hands, eval, n)[ids[j]] == eval(hands[j])
  {
    if j < n - 1 {
      EvaluatedUpToLast(ids, hands, eval, n - 1, j);
    }
  }

  /** The map evaluateHands builds from the sorted hands. */
  function ValueMap(ids: seq<int>, sorted: seq<seq<Card>>): (m: map<int, HandValue>)
    requires |ids| == |sorted| && FiveCards(sorted)
    ensures forall j :: 0 <= j < |ids| ==> ids[j] in m
    ensures forall k :: k in m ==> k in ids
  {
    EvaluatedUpTo(ids, sorted, Category, |ids|)
  }

  /** Every seated id in a key order has a value, repeated ids or not. */
  lemma {:induction false} ValueMapSeated(ids: seq<int>, sorted: seq<seq<Card>>, keys: seq<int>)
    requires |ids| == |sorted| && FiveCards(sorted) && Seated(ids, keys)
    ensures AllIn(ValueMap(ids, sorted), keys)
  {
    forall k | 0 <= k < |keys| ensures keys[k] in ValueMap(ids, sorted) {
      var j := IndexOf(ids, keys[k]);
      assert ids[j] == keys[k];
    }
  }

  lemma ValueMapDistinct(ids: seq<int>, sorted: seq<seq<Card>>, j: nat)
    requires |ids| == |sorted| && FiveCards(sorted) && Distinct(ids) && j < |ids|
    ensures ValueMap(ids, sorted)[ids[j]] == Classify(sorted[j])
  {
    EvaluatedUpToDistinct(ids, sorted, Category, |ids|, j);
  }

  /** evaluate sorts its list before classifying it; on a hand already sorted
      by rank that sort changes nothing. */
  lemma SortedEvaluation(h: seq<Card>)
    requires |h| == HandSize && Sorted(RankComparator, h)
    ensures HandValueOf(h) == Classify(h)
  {
    SortOfSorted(RankComparator, h);
  }

  /** Sorting keeps every hand at five cards. */
  lemma SortAllFive(hands: seq<seq<Card>>)
    requires FiveCards(hands)
    ensures FiveCards(SortAll(hands))
  {
    forall i | 0 <= i < |hands| ensures |SortAll(hands)[i]| == HandSize {
      assert |Sort(RankComparator, hands[i])| == |hands[i]|;
    }
  }

  /** The value evaluateHands records for a seat of distinct ids is what
      evaluate returns on that seat's hand as getHand left it, and so what it
      returns on the hand as dealt. */
  lemma EvaluatedAsSorted(ids: seq<int>, hands: seq<seq<Card>>, j: nat)
    requires |ids| == |hands| && FiveCards(hands) && Distinct(ids) && j < |ids|
    ensures FiveCards(SortAll(hands))
    ensures ValueMap(ids, SortAll(hands))[ids[j]] == HandValueOf(SortAll(hands)[j])
    ensures ValueMap(ids, SortAll(hands))[ids[j]] == HandValueOf(hands[j])
  {
    var sorted := SortAll(hands);
    ValueMapDistinct(ids, sorted, j);
    SortSorted(RankComparator, hands[j]);
    SortedEvaluation(sorted[j]);
  }

  /** What evaluateHands leaves behind is a table the showdown can read. */
  lemma EvaluationIsTable(ids: seq<int>, sorted: seq<seq<Card>>)
    requires |ids| == |sorted| && FiveCards(sorted) && Distinct(ids)
    ensures Table(ids, sorted, ValueMap(ids, sorted))
  {
    forall j | 0 <= j < |ids| ensures Classify(sorted[j]) == ValueMap(ids, sorted)[ids[j]] {
      ValueMapDistinct(ids, sorted, j);
    }
  }

  /** Every winner of a showdown over distinct seats holds a hand whose
      category is at least that of every seat's hand. */
  lemma ShowdownWinnersHoldBestHands(ids: seq<int>, sorted: seq<seq<Card>>, keys: seq<int>,
                                     w: nat, k: nat)
    requires ShowdownReady(ids, sorted, keys) && k < |keys|
    requires w < |Winners(ids, sorted, keys)|
    ensures Winners(ids, sorted, keys)[w] in ids
    ensures Classify(HandOf(ids, sorted, Winners(ids, sorted, keys)[w])).Ordinal()
              >= Classify(HandOf(ids, sorted, keys[k])).Ordinal()
  {
    var values := ValueMap(ids, sorted);
    EvaluationIsTable(ids, sorted);
    TableKeys(ids, sorted, values, keys);
    var ranking := CreateRankingOf(ids, sorted, values, keys);
    WinnersHoldBestCategory(ids, sorted, values, keys, w, k);
    var winner := WinnersOf(ids, sorted, values, ranking)[w];
    WinnersArePrefix(ids, sorted, values, ranking);
    assert winner == ranking[w];
    ValueMapDistinct(ids, sorted, IndexOf(ids, winner));
    ValueMapDistinct(ids, sorted, IndexOf(ids, keys[k]));
  }

  /** What a showdown over the sorted hands needs: five cards per seat and a
      non-empty key order of seated ids. */
  predicate ShowdownPossible(ids: seq<int>, sorted: seq<seq<Card>>, keys: seq<int>)
  {
    |ids| == |sorted| && FiveCards(sorted) && Seated(ids, keys) && keys != []
  }

  /** A showdown whose seats have distinct ids, so that each id names one hand. */
  predicate ShowdownReady(ids: seq<int>, sorted: seq<seq<Card>>, keys: seq<int>)
  {
    ShowdownPossible(ids, sorted, keys) && Distinct(ids)
  }

  /** The winners of the showdown over the sorted hands, with the keys in the
      given order; none when there is no showdown to hold. */
  function Winners(ids: seq<int>, sorted: seq<seq<Card>>, keys: seq<int>): seq<int>
  {
    if ShowdownPossible(ids, sorted, keys) then
      ValueMapSeated(ids, sorted, keys);
      var values := ValueMap(ids, sorted);
      WinnersOf(ids, sorted, values, CreateRankingOf(ids, sorted, values, keys))
    else []
  }

  /** The seats of the example: ids 18, 3, 17, 3 with a pair, a pair, a high
      card and a pair, where the pair of the first seat of id 3 beats the
      pair of id 18 (a pair of aces against a pair of kings, say). */
  predicate ExampleTable(ids: seq<int>, hands: seq<seq<Card>>)
  {
    ids == [18, 3, 17, 3] && |hands| == 4 && FiveCards(hands)
    && Classify(hands[0]) == Pair && Classify(hands[1]) == Pair
    && Classify(hands[2]) == HighCard && Classify(hands[3]) == Pair
    && SettleDraw(hands[0], hands[1], Pair) < 0
  }

  /** A repeated id can take the lead. With the keys coming as 17, 18, 3,
      the first phase ranks 18, 3, 17; the id 3 then takes the lead on the
      hand of its first seat and is the only winner, so both of its seats
      are paid. */
  lemma RepeatedIdTakesLead(ids: seq<int>, hands: seq<seq<Card>>, keys: seq<int>,
                            credits: seq<int>, share: int)
    requires ExampleTable(ids, hands) && keys == [17, 18, 3] && |credits| == 4
    ensures Winners(ids, hands, keys) == [3]
    ensures Prizes(credits, ids, Winners(ids, hands, keys), share)
            == [credits[0], credits[1] + share, credits[2], credits[3] + share]
  {
    ExampleRanking(ids, hands, keys);
    ExampleWinners(ids, hands);
    assert ShowdownPossible(ids, hands, keys);
    ExamplePrizes(credits, ids, share);
  }

  /** Both phases of the example's ranking: 3 ends in front. */
  lemma ExampleRanking(ids: seq<int>, hands: seq<seq<Card>>, keys: seq<int>)
    requires ExampleTable(ids, hands) && keys == [17, 18, 3]
    ensures AllIn(ValueMap(ids, hands), keys) && Seated(ids, keys)
    ensures CreateRankingOf(ids, hands, ValueMap(ids, hands), keys) == [3, 18, 17]
  {
    ExampleCategories(ids, hands);
    ExampleValues(ids, hands);
    var values := ValueMap(ids, hands);
    ExampleFirstPhase(values, keys);
    ExampleLead(ids, hands, values);
    ExamplePromotion(LeadOf(ids, hands, values));
  }

  /** In the example 3 takes the lead from 18 on its first seat's hand, and
      17, of a lower category, does not take it from 3. */
  lemma ExampleLead(ids: seq<int>, hands: seq<seq<Card>>, values: map<int, HandValue>)
    requires ExampleTable(ids, hands)
    requires 18 in values && 3 in values && 17 in values
    requires values[18] == Pair && values[3] == Pair && values[17] == HighCard
    ensures TakesLead(ids, hands, values, 18, 3) && !TakesLead(ids, hands, values, 3, 17)
  {
    ExampleHands(ids, hands);
  }

  /** The example's winners: 3 alone, since its first seat's hand beats 18's. */
  lemma ExampleWinners(ids: seq<int>, hands: seq<seq<Card>>)
    requires ExampleTable(ids, hands)
    ensures WinnersOf(ids, hands, ValueMap(ids, hands), [3, 18, 17]) == [3]
  {
    ExampleCategories(ids, hands);
    ExampleValues(ids, hands);
    ExampleHands(ids, hands);
    SettleDrawAntisymmetric(hands[0], hands[1], Pair);
    assert !TieOf(ids, hands, ValueMap(ids, hands))(3, 18);
  }

  /** getHand of the example's ids reads the first seat with each id. */
  lemma ExampleHands(ids: seq<int>, hands: seq<seq<Card>>)
    requires ids == [18, 3, 17, 3] && |hands| == 4
    ensures HandOf(ids, hands, 18) == hands[0] && HandOf(ids, hands, 3) == hands[1]
    ensures HandOf(ids, hands, 17) == hands[2]
  {
    assert IndexFrom(ids, 18, 0) == 0;
    assert IndexFrom(ids, 3, 1) == 1 && IndexFrom(ids, 3, 0) == 1;
    assert IndexFrom(ids, 17, 2) == 2 && IndexFrom(ids, 17, 1) == 2 && IndexFrom(ids, 17, 0) == 2;
  }

  /** On the example's five-card hands Category is the classification. */
  lemma ExampleCategories(ids: seq<int>, hands: seq<seq<Card>>)
    requires ExampleTable(ids, hands)
    ensures Category(hands[0]) == Pair && Category(hands[2]) == HighCard && Category(hands[3]) == Pair
  {
    assert |hands[0]| == |hands[2]| == |hands[3]| == HandSize;
  }

  /** evaluateHands on the example records the category of the last seat
      with each id. */
  lemma ExampleValues(ids: seq<int>, hands: seq<seq<Card>>)
    requires ids == [18, 3, 17, 3] && |hands| == 4 && FiveCards(hands)
    requires Category(hands[0]) == Pair && Category(hands[2]) == HighCard && Category(hands[3]) == Pair
    ensures var v := ValueMap(ids, hands);
            18 in v && 3 in v && 17 in v && v[18] == Pair && v[3] == Pair && v[17] == HighCard
  {
    EvaluatedUpToLast(ids, hands, Category, 4, 0);
    EvaluatedUpToLast(ids, hands, Category, 4, 2);
    EvaluatedUpToLast(ids, hands, Category, 4, 3);
  }

  /** The first phase over keys 17, 18, 3 when 18 and 3 hold pairs and 17
      a high card: 18 first, 3 inserted before 17. */
  lemma ExampleFirstPhase(values: map<int, HandValue>, keys: seq<int>)
    requires 18 in values && 3 in values && 17 in values
    requires values[18] == Pair && values[3] == Pair && values[17] == HighCard
    requires keys == [17, 18, 3]
    ensures AllIn(values, keys) && RankingOf(values, keys) == [18, 3, 17]
  {
    assert Pair.Ordinal() == 1 && HighCard.Ordinal() == 0;
    assert keys[..|keys| - 1] == [17, 18];
    assert [17, 18][..1] == [17] && [17][..0] == [];
    assert RankingOf(values, []) == [];
    assert RankingOf(values, [17]) == [17];
    assert FirstBelow(values, [17], Pair, 0) == 0;
    assert RankingOf(values, [17, 18]) == Place(values, [17], 18) == [18, 17];
    assert FirstBelow(values, [18, 17], Pair, 1) == 1;
    assert FirstBelow(values, [18, 17], Pair, 0) == 1;
    assert Place(values, [18, 17], 3) == [18, 3, 17];
  }

  /** The second phase of the example: 3 takes the lead from 18, and 17
      does not take it from 3. */
  lemma ExamplePromotion(takes: (int, int) -> bool)
    requires takes(18, 3) && !takes(3, 17)
    ensures PromoteBy([18, 3, 17], takes, 1) == [3, 18, 17]
  {
    var r := [18, 3, 17];
    assert [r[1]] + r[..1] + r[2..] == [3, 18, 17];
  }

  /** The prize loop of the example pays both seats of id 3. */
  lemma ExamplePrizes(credits: seq<int>, ids: seq<int>, share: int)
    requires |credits| == 4 && ids == [18, 3, 17, 3]
    ensures Prizes(credits, ids, [3], share)
            == [credits[0], credits[1] + share, credits[2], credits[3] + share]
  {
    var p := Prizes(credits, ids, [3], share);
    assert p[0] == credits[0] && p[1] == credits[1] + share;
    assert p[2] == credits[2] && p[3] == credits[3] + share;
  }

  // ---------------------------------------------------------------- dealing

  /** What dealCards leaves behind: how it ended, the hands and the deck. */
  datatype DealResult = DealResult(outcome: Outcome, hands: seq<seq<Card>>, deck: seq<Card>)

  /** The deal from seat `k` of the current round on, with `rounds` rounds
      left counting the current one: each seat in turn takes the front card,
      and an empty deck stops the deal. */
  function DealFrom(h: seq<seq<Card>>, d: seq<Card>, k: nat, rounds: nat): (r: DealResult)
    requires k <= |h| && rounds >= 1
    ensures |r.hands| == |h|
    decreases rounds, |h| - k
  {
    if k == |h| then
      if rounds == 1 then DealResult(Ok, h, d) else DealFrom(h, d, 0, rounds - 1)
    else if d == [] then DealResult(Err(EmptyDeck), h, d)
    else DealFrom(h[k := h[k] + [d[0]]], d[1..], k + 1, rounds)
  }

  /** dealCards as a function of the hands and the deck before it. */
  function DealOf(h: seq<seq<Card>>, d: seq<Card>): DealResult
  {
    DealFrom(h, d, 0, CardsPerPlayer)
  }

  /** The hands after seats `k..` each take one card from the front of `d`. */
  function Give(h: seq<seq<Card>>, d: seq<Card>, k: nat): (r: seq<seq<Card>>)
    requires k <= |h| && |h| - k <= |d|
    ensures |r| == |h|
    ensures forall j {:trigger r[j]} :: 0 <= j < |h| ==> r[j] == if j < k then h[j] else h[j] + [d[j - k]]
  {
    seq(|h|, j requires 0 <= j < |h| => if j < k then h[j] else h[j] + [d[j - k]])
  }

  /** With enough cards the rest of the round gives seats `k..` one card each. */
  lemma {:induction false} RestOfRound(h: seq<seq<Card>>, d: seq<Card>, k: nat, rounds: nat)
    requires k <= |h| && |h| - k <= |d| && rounds >= 1
    ensures DealFrom(h, d, k, rounds) == DealFrom(Give(h, d, k), d[|h| - k..], |h|, rounds)
    decreases |h| - k
  {
    if k < |h| {
      var h1 := h[k := h[k] + [d[0]]];
      RestOfRound(h1, d[1..], k + 1, rounds);
      assert Give(h1, d[1..], k + 1) == Give(h, d, k);
      assert d[1..][|h| - (k + 1)..] == d[|h| - k..];
    } else {
      assert Give(h, d, k) == h;
    }
  }

  /** Without enough cards the rest of the round runs out of cards. */
  lemma {:induction false} ShortRound(h: seq<seq<Card>>, d: seq<Card>, k: nat, rounds: nat)
    requires k <= |h| && |d| < |h| - k && rounds >= 1
    ensures DealFrom(h, d, k, rounds).outcome == Err(EmptyDeck)
    ensures DealFrom(h, d, k, rounds).deck == []
    decreases |h| - k
  {
    if d != [] {
      ShortRound(h[k := h[k] + [d[0]]], d[1..], k + 1, rounds);
    }
  }

  /** A round with a card for every seat, followed by `rounds - 1` more. */
  lemma NextRound(h: seq<seq<Card>>, d: seq<Card>, rounds: nat)
    requires rounds >= 2 && |h| <= |d|
    ensures DealFrom(h, d, 0, rounds) == DealFrom(Give(h, d, 0), d[|h|..], 0, rounds - 1)
  {
    RestOfRound(h, d, 0, rounds);
  }

  /** The last round, with a card for every seat, ends the deal. */
  lemma LastRound(h: seq<seq<Card>>, d: seq<Card>)
    requires |h| <= |d|
    ensures DealFrom(h, d, 0, 1) == DealResult(Ok, Give(h, d, 0), d[|h|..])
  {
    RestOfRound(h, d, 0, 1);
  }

  /** A round without a card for every seat empties the deck and stops the deal. */
  lemma EmptyRound(h: seq<seq<Card>>, d: seq<Card>, rounds: nat)
    requires rounds >= 1 && |d| < |h|
    ensures DealFrom(h, d, 0, rounds).outcome == Err(EmptyDeck)
    ensures DealFrom(h, d, 0, rounds).deck == []
  {
    ShortRound(h, d, 0, rounds);
  }

  /** The hands after `t` whole rounds from the front of `d`. */
  function AfterRounds(h: seq<seq<Card>>, d: seq<Card>, t: nat): (r: seq<seq<Card>>)
    requires t * |h| <= |d|
    ensures |r| == |h|
  {
    if t == 0 then h
    else
      assert (t - 1) * |h| + |h| == t * |h|;
      Give(AfterRounds(h, d, t - 1), d[(t - 1) * |h|..], 0)
  }

  /** The first `t` of `rounds` rounds, each with a card for every seat. */
  lemma {:induction false} FullRounds(h: seq<seq<Card>>, d: seq<Card>, t: nat, rounds: nat)
    requires t < rounds && t * |h| <= |d|
    ensures DealFrom(h, d, 0, rounds) == DealFrom(AfterRounds(h, d, t), d[t * |h|..], 0, rounds - t)
  {
    if t > 0 {
      var n := |h|;
      assert (t - 1) * n + n == t * n;
      FullRounds(h, d, t - 1, rounds);
      NextRound(AfterRounds(h, d, t - 1), d[(t - 1) * n..], rounds - (t - 1));
      DropDrop(d, (t - 1) * n, n);
    } else {
      assert d[0..] == d;
    }
  }

  /** A deck that runs out during round `t` stops the deal with an empty deck. */
  lemma DealStops(h: seq<seq<Card>>, d: seq<Card>, t: nat)
    requires t < CardsPerPlayer && t * |h| <= |d| < t * |h| + |h|
    ensures DealOf(h, d).outcome == Err(EmptyDeck) && DealOf(h, d).deck == []
  {
    FullRounds(h, d, t, CardsPerPlayer);
    EmptyRound(AfterRounds(h, d, t), d[t * |h|..], CardsPerPlayer - t);
  }

  /** A deck with five cards per seat completes the deal. */
  lemma DealCompletes(h: seq<seq<Card>>, d: seq<Card>)
    requires CardsPerPlayer * |h| <= |d|
    ensures DealOf(h, d) == DealResult(Ok, AfterRounds(h, d, CardsPerPlayer), d[CardsPerPlayer * |h|..])
  {
    var n := |h|;
    FullRounds(h, d, 4, CardsPerPlayer);
    LastRound(AfterRounds(h, d, 4), d[4 * n..]);
    DropDrop(d, 4 * n, n);
  }

  /** Seat `j` gains, in round `t`, the card at position (t - 1) * n + j. */
  lemma AfterRoundsAt(h: seq<seq<Card>>, d: seq<Card>, t: nat, j: nat)
    requires 0 < t && t * |h| <= |d| && j < |h|
    ensures AfterRounds(h, d, t)[j] == AfterRounds(h, d, t - 1)[j] + [d[(t - 1) * |h| + j]]
  {
    var p, e := AfterRounds(h, d, t - 1), d[(t - 1) * |h|..];
    assert AfterRounds(h, d, t) == Give(p, e, 0);
    assert Give(p, e, 0)[j] == p[j] + [e[j]];
  }

  /** dealCards succeeds exactly when the deck holds five cards per seat; then
      seat `j` of `n` receives the cards at positions j, n + j, ..., 4n + j and
      the deck keeps what follows the first 5n cards. Otherwise the deck is
      emptied and the deal stops. */
  lemma DealPositions(h: seq<seq<Card>>, d: seq<Card>)
    ensures (DealOf(h, d).outcome == Ok) == (CardsPerPlayer * |h| <= |d|)
    ensures DealOf(h, d).outcome != Ok ==> DealOf(h, d).outcome == Err(EmptyDeck) && DealOf(h, d).deck == []
    ensures DealOf(h, d).outcome == Ok ==>
              var n := |h|;
              DealOf(h, d).deck == d[5 * n..]
              && forall j :: 0 <= j < n ==>
                   DealOf(h, d).hands[j] == h[j] + [d[j], d[n + j], d[2 * n + j], d[3 * n + j], d[4 * n + j]]
  {
    if |d| < CardsPerPlayer * |h| {
      DealFails(h, d);
    } else {
      DealCompletes(h, d);
      forall j | 0 <= j < |h|
        ensures DealOf(h, d).hands[j] == h[j] + [d[j], d[|h| + j], d[2 * |h| + j], d[3 * |h| + j], d[4 * |h| + j]]
      {
        FiveRoundsAt(h, d, j);
      }
    }
  }

  /** A deck with fewer than five cards per seat stops the deal with an empty deck. */
  lemma DealFails(h: seq<seq<Card>>, d: seq<Card>)
    requires |d| < CardsPerPlayer * |h|
    ensures DealOf(h, d).outcome == Err(EmptyDeck) && DealOf(h, d).deck == []
  {
    var n := |h|;
    if |d| < n {
      DealStops(h, d, 0);
    } else if |d| < 2 * n {
      DealStops(h, d, 1);
    } else if |d| < 3 * n {
      DealStops(h, d, 2);
    } else if |d| < 4 * n {
      DealStops(h, d, 3);
    } else {
      DealStops(h, d, 4);
    }
  }

  /** After the five rounds seat `j` holds its hand and the cards at j, n + j, ..., 4n + j. */
  lemma FiveRoundsAt(h: seq<seq<Card>>, d: seq<Card>, j: nat)
    requires CardsPerPlayer * |h| <= |d| && j < |h|
    ensures AfterRounds(h, d, 5)[j] == h[j] + [d[j], d[|h| + j], d[2 * |h| + j], d[3 * |h| + j], d[4 * |h| + j]]
  {
    var n := |h|;
    AfterRoundsAt(h, d, 5, j);
    AfterRoundsAt(h, d, 4, j);
    AfterRoundsAt(h, d, 3, j);
    AfterRoundsAt(h, d, 2, j);
    AfterRoundsAt(h, d, 1, j);
    assert (5 - 1) * n == 4 * n && (4 - 1) * n == 3 * n && (3 - 1) * n == 2 * n && (2 - 1) * n == n && (1 - 1) * n == 0;
    AppendFive(h[j], d[j], d[n + j], d[2 * n + j], d[3 * n + j], d[4 * n + j]);
  }

  lemma DropDrop(d: seq<Card>, a: nat, b: nat)
    requires a + b <= |d|
    ensures d[a..][b..] == d[a + b..]
  {
  }

  lemma AppendFive(x: seq<Card>, a: Card, b: Card, c: Card, e: Card, f: Card)
    ensures x + [a] + [b] + [c] + [e] + [f] == x + [a, b, c, e, f]
  {
  }

  // ---------------------------------------------------------------- draw

  predicate Ascending(s: seq<int>)
  {
    forall i, j :: 0 <= i < j < |s| ==> s[i] <= s[j]
  }

  predicate StrictlyAscending(s: seq<int>)
  {
    forall i, j :: 0 <= i < j < |s| ==> s[i] < s[j]
  }

  function InsertInt(x: int, s: seq<int>): (r: seq<int>)
    ensures multiset(r) == multiset(s) + multiset{x} && |r| == |s| + 1
  {
    if s == [] then [x]
    else if x <= s[0] then [x] + s
    else
      assert s == [s[0]] + s[1..];
      [s[0]] + InsertInt(x, s[1..])
  }

  lemma {:induction false} InsertIntAscending(x: int, s: seq<int>)
    requires Ascending(s)
    ensures Ascending(InsertInt(x, s))
  {
    if s != [] && x > s[0] {
      var rest := InsertInt(x, s[1..]);
      InsertIntAscending(x, s[1..]);
      forall k | 0 <= k < |rest| ensures s[0] <= rest[k] {
        assert rest[k] in multiset(rest);
        assert rest[k] in multiset(s[1..]) || rest[k] == x;
        if rest[k] != x {
          var j :| 0 <= j < |s[1..]| && s[1..][j] == rest[k];
          assert s[0] <= s[j + 1];
        }
      }
    }
  }

  /** cardsToDiscard.sort(Integer::compareTo): the ascending permutation. */
  function SortInts(s: seq<int>): (r: seq<int>)
    ensures multiset(r) == multiset(s) && |r| == |s| && Ascending(r)
  {
    if s == [] then []
    else
      assert s == [s[0]] + s[1..];
      InsertIntAscending(s[0], SortInts(s[1..]));
      InsertInt(s[0], SortInts(s[1..]))
  }

  datatype DiscardResult = DiscardResult(outcome: Outcome, hand: seq<Card>)

  /** The discard loop of draw from the `i`-th sorted index on: each index less
      the number of cards already removed is taken out of the hand; an index
      above 4 stops the loop, and so does a position outside the hand. */
  function DiscardsFrom(hand: seq<Card>, indices: seq<int>, i: nat): DiscardResult
    requires i <= |indices|
    decreases |indices| - i
  {
    if i == |indices| then DiscardResult(Ok, hand)
    else if indices[i] > MaxDiscardIndex then DiscardResult(Err(CardIndexTooHigh), hand)
    else if !(0 <= indices[i] - i < |hand|) then DiscardResult(Err(IndexOutOfBounds), hand)
    else DiscardsFrom(hand[..indices[i] - i] + hand[indices[i] - i + 1..], indices, i + 1)
  }

  /** Whatever the indices, discarding from position `i` on that succeeds
      removes one card per remaining index. */
  lemma {:induction false} DiscardsFromLength(hand: seq<Card>, indices: seq<int>, i: nat)
    requires i <= |indices|
    ensures var r := DiscardsFrom(hand, indices, i);
            r.outcome == Ok ==> |r.hand| == |hand| - (|indices| - i)
    decreases |indices| - i
  {
    if i < |indices| && indices[i] <= MaxDiscardIndex && 0 <= indices[i] - i < |hand| {
      DiscardsFromLength(hand[..indices[i] - i] + hand[indices[i] - i + 1..], indices, i + 1);
    }
  }

  /** The cards of `hand` from position `from` on whose positions are not
      among the indices `d[k..]` of the strictly ascending `d`, in their
      original order. */
  function Gaps(hand: seq<Card>, d: seq<int>, k: nat, from: nat): (r: seq<Card>)
    requires k <= |d| && from <= |hand| && StrictlyAscending(d)
    requires forall i :: k <= i < |d| ==> from <= d[i] < |hand|
    ensures |r| == |hand| - from - (|d| - k)
    decreases |d| - k
  {
    if k == |d| then hand[from..]
    else
      assert forall i :: k + 1 <= i < |d| ==> d[k] + 1 <= d[i];
      hand[from..d[k]] + Gaps(hand, d, k + 1, d[k] + 1)
  }

  /** The discard loop, from the `k`-th index on, over a hand whose first
      part `kept` is what survived the earlier indices. */
  lemma {:induction false} DiscardsFromGaps(hand: seq<Card>, d: seq<int>, k: nat,
                                            kept: seq<Card>, from: nat)
    requires StrictlyAscending(d) && k <= |d| && from <= |hand| && |kept| + k == from
    requires forall i :: 0 <= i < |d| ==> d[i] <= MaxDiscardIndex
    requires forall i :: k <= i < |d| ==> from <= d[i] < |hand|
    ensures DiscardsFrom(kept + hand[from..], d, k) == DiscardResult(Ok, kept + Gaps(hand, d, k, from))
    decreases |d| - k
  {
    if k < |d| {
      var cur := kept + hand[from..];
      var p := d[k] - k;
      var front := kept + hand[from..d[k]];
      assert forall i :: k + 1 <= i < |d| ==> d[k] + 1 <= d[i];
      var rest := Gaps(hand, d, k + 1, d[k] + 1);
      assert Gaps(hand, d, k, from) == hand[from..d[k]] + rest;
      RemoveAt(kept, hand, from, d[k]);
      assert DiscardsFrom(cur, d, k) == DiscardsFrom(front + hand[d[k] + 1..], d, k + 1);
      DiscardsFromGaps(hand, d, k + 1, front, d[k] + 1);
      AppendAssoc(kept, hand[from..d[k]], rest);
    }
  }

  /** Taking position `at` out of a hand whose front `kept` replaced its first `from` cards. */
  lemma RemoveAt(kept: seq<Card>, hand: seq<Card>, from: nat, at: nat)
    requires from <= at < |hand|
    ensures var cur := kept + hand[from..];
            var p := |kept| + (at - from);
            cur[..p] + cur[p + 1..] == (kept + hand[from..at]) + hand[at + 1..]
  {
    var cur := kept + hand[from..];
    var p := |kept| + (at - from);
    assert cur[..p] == kept + hand[from..at];
    assert cur[p + 1..] == hand[at + 1..];
  }

  /** For distinct indices of the hand, draw's loop removes exactly the cards
      at those positions and keeps the others in order. */
  lemma DiscardsKeepTheRest(hand: seq<Card>, d: seq<int>)
    requires StrictlyAscending(d)
    requires forall i :: 0 <= i < |d| ==> 0 <= d[i] <= MaxDiscardIndex && d[i] < |hand|
    ensures DiscardsFrom(hand, d, 0) == DiscardResult(Ok, Gaps(hand, d, 0, 0))
    ensures |Gaps(hand, d, 0, 0)| == |hand| - |d|
  {
    DiscardsFromGaps(hand, d, 0, [], 0);
    assert [] + hand[0..] == hand;
  }

  /** A repeated index is not rejected: discarding position 1 twice removes
      the first two cards. */
  lemma RepeatedIndexTakesNeighbour(hand: seq<Card>)
    requires |hand| == HandSize
    ensures DiscardsFrom(hand, SortInts([1, 1]), 0) == DiscardResult(Ok, hand[2..])
  {
    var d := SortInts([1, 1]);
    assert d[0] in multiset(d) && d[1] in multiset(d);
    assert d == [1, 1];
    var once := hand[..1] + hand[2..];
    assert once[..0] + once[1..] == hand[2..];
  }

  // ---------------------------------------------------------------- the table

  /** `k` antes of `a` each, added to the stake one at a time. */
  function Antes(k: nat, a: int): int
  {
    if k == 0 then 0 else Antes(k - 1, a) + a
  }

  lemma {:induction false} AntesProduct(k: nat, a: int)
    ensures Antes(k, a) == k * a
  {
    if k > 0 {
      AntesProduct(k - 1, a);
    }
  }

  /** A seat's money: its credit and its two bid totals. */
  datatype Books = Books(credit: int, allGameBid: int, currentBid: int)

  /** The money of the seats, in seat order. */
  function BooksOf(ps: seq<Player>): (r: seq<Books>)
    reads ps
    ensures |r| == |ps|
    ensures forall j {:trigger r[j]} :: 0 <= j < |ps| ==>
              r[j] == Books(ps[j].credit, ps[j].allGameBid, ps[j].currentBid)
    decreases |ps|
  {
    if ps == [] then []
    else
      assert ps[0] in ps && forall q :: q in ps[1..] ==> q in ps;
      [Books(ps[0].credit, ps[0].allGameBid, ps[0].currentBid)] + BooksOf(ps[1..])
  }

  /** A seat's money once it has bid `a`. */
  function Paid(b: Books, a: int): Books
  {
    Books(b.credit - a, b.allGameBid + a, b.currentBid + a)
  }

  /** The seats' money once the first `k` seats have each bid `a`. */
  function ChargeFirst(b: seq<Books>, k: nat, a: int): (r: seq<Books>)
    ensures |r| == |b|
    ensures forall j {:trigger r[j]} :: 0 <= j < |b| ==> r[j] == if j < k then Paid(b[j], a) else b[j]
  {
    seq(|b|, j requires 0 <= j < |b| => if j < k then Paid(b[j], a) else b[j])
  }

  lemma ChargeNext(b: seq<Books>, k: nat, a: int)
    requires k < |b|
    ensures ChargeFirst(b, k, a)[k := Paid(b[k], a)] == ChargeFirst(b, k + 1, a)
  {
    var c := ChargeFirst(b, k, a)[k := Paid(b[k], a)];
    assert forall j :: 0 <= j < |b| ==> c[j] == ChargeFirst(b, k + 1, a)[j];
  }

  /** The entries of a table map for the seats, in seat order. */
  function GameBids(ps: seq<Player>, m: map<Player, int>): (r: seq<int>)
    requires forall j :: 0 <= j < |ps| ==> ps[j] in m
    ensures |r| == |ps|
    ensures forall j {:trigger r[j]} :: 0 <= j < |ps| ==> r[j] == m[ps[j]]
  {
    seq(|ps|, j requires 0 <= j < |ps| => m[ps[j]])
  }

  /** `c` with its first `k` entries set to `a`. */
  function FillFirst(c: seq<int>, k: nat, a: int): (r: seq<int>)
    ensures |r| == |c|
    ensures forall j {:trigger r[j]} :: 0 <= j < |c| ==> r[j] == if j < k then a else c[j]
  {
    seq(|c|, j requires 0 <= j < |c| => if j < k then a else c[j])
  }

  lemma FillNext(c: seq<int>, k: nat, a: int)
    requires k < |c|
    ensures FillFirst(c, k, a)[k := a] == FillFirst(c, k + 1, a)
  {
    var d := FillFirst(c, k, a)[k := a];
    assert forall j :: 0 <= j < |c| ==> d[j] == FillFirst(c, k + 1, a)[j];
  }

  /** The first seat from `k` on whose credit is below the ante `a`, or `|b|`. */
  function FirstShort(b: seq<Books>, a: int, k: nat): (r: nat)
    requires k <= |b|
    ensures k <= r <= |b|
    decreases |b| - k
  {
    if k == |b| then k else if b[k].credit < a then k else FirstShort(b, a, k + 1)
  }

  /** takeAnte charges exactly the seats before the first one that cannot pay:
      all of them can pay, that one cannot, and all seats are charged exactly
      when every seat can pay. */
  lemma {:induction false} FirstShortStops(b: seq<Books>, a: int, k: nat)
    requires k <= |b|
    ensures forall j :: k <= j < FirstShort(b, a, k) ==> b[j].credit >= a
    ensures FirstShort(b, a, k) < |b| ==> b[FirstShort(b, a, k)].credit < a
    ensures FirstShort(b, a, k) == |b| <==> forall j :: k <= j < |b| ==> b[j].credit >= a
    decreases |b| - k
  {
    if k < |b| && b[k].credit >= a {
      FirstShortStops(b, a, k + 1);
    }
  }

  /** The credits of the seats, in seat order. */
  function CreditsOf(ps: seq<Player>): (r: seq<int>)
    reads set p | p in ps :: p`credit
    ensures |r| == |ps| && forall i :: 0 <= i < |ps| ==> r[i] == ps[i].credit
    decreases |ps|
  {
    if ps == [] then []
    else
      assert ps[0] in ps && forall q :: q in ps[1..] ==> q in ps;
      [ps[0].credit] + CreditsOf(ps[1..])
  }

  /** The credits `c` once each seat whose id is among the winners has
      received `share`. */
  function Prizes(c: seq<int>, ids: seq<int>, winners: seq<int>, share: int): (r: seq<int>)
    requires |ids| == |c|
    ensures |r| == |c|
  {
    seq(|c|, j requires 0 <= j < |c| => c[j] + (if ids[j] in winners then share else 0))
  }

  /** Only the hands of the seats changed. */
  twostate predicate BooksUnchanged(ps: seq<Player>)
    reads ps
  {
    forall j :: 0 <= j < |ps| ==>
      ps[j].credit == old(ps[j].credit) && ps[j].currentBid == old(ps[j].currentBid)
      && ps[j].allGameBid == old(ps[j].allGameBid) && ps[j].folded == old(ps[j].folded)
      && ps[j].bidden == old(ps[j].bidden)
  }

  twostate predicate HandsUnchanged(ps: seq<Player>)
    reads ps
  {
    forall j :: 0 <= j < |ps| ==> ps[j].hand == old(ps[j].hand)
  }

  /** The inner loop of createRanking's first phase: the key goes before the
      first entry of a strictly lower category, and nowhere when there is none. */
  method PlaceKey(values: map<int, HandValue>, ranking: seq<int>, key: int) returns (r: seq<int>)
    requires key in values && AllIn(values, ranking) && ranking != []
    ensures r == Place(values, ranking, key)
  {
    r := ranking;
    var i := 0;
    while i < |ranking|
      invariant 0 <= i <= |ranking|
      invariant FirstBelow(values, ranking, values[key], i) == FirstBelow(values, ranking, values[key], 0)
    {
      if values[ranking[i]].Ordinal() < values[key].Ordinal() {
        r := ranking[..i] + [key] + ranking[i..];
        return;
      }
      i := i + 1;
    }
  }

  /** The first phase of createRanking over the keys in iteration order. */
  method RankKeys(values: map<int, HandValue>, keys: seq<int>) returns (ranking: seq<int>)
    requires AllIn(values, keys)
    ensures ranking == RankingOf(values, keys)
  {
    ranking := [];
    for t := 0 to |keys|
      invariant ranking == RankingOf(values, keys[..t])
    {
      assert keys[..t + 1][..t] == keys[..t];
      if |ranking| == 0 {
        ranking := [keys[t]];
        continue;
      }
      ranking := PlaceKey(values, ranking, keys[t]);
    }
    assert keys[..|keys|] == keys;
  }

  /** The loop of evaluateHands for the evaluation `eval`:
      handValues.put(id, eval(hand)) seat by seat. */
  method EvaluateEach(ids: seq<int>, hands: seq<seq<Card>>, eval: seq<Card> -> HandValue)
    returns (values: map<int, HandValue>)
    requires |ids| == |hands|
    ensures values == EvaluatedUpTo(ids, hands, eval, |ids|)
  {
    values := map[];
    var k := 0;
    while k < |ids|
      invariant k <= |ids|
      invariant values == EvaluatedUpTo(ids, hands, eval, k)
    {
      values := values[ids[k] := eval(hands[k])];
      k := k + 1;
    }
  }

  /** The loop of createWinnersList for the tie test `tie`: the leader, then
      each next entry while it ties with the one before it. */
  method ChainWinners(ranking: seq<int>, tie: (int, int) -> bool) returns (winners: seq<int>)
    requires ranking != []
    ensures winners == [ranking[0]] + ChainFrom(ranking, tie, 0)
  {
    winners := [ranking[0]];
    var i := 0;
    assert ranking[1..1] == [];
    while i < |ranking| - 1
      invariant 0 <= i < |ranking|
      invariant winners == [ranking[0]] + ranking[1..i + 1]
      invariant ChainFrom(ranking, tie, 0) == ranking[1..i + 1] + ChainFrom(ranking, tie, i)
    {
      if !tie(ranking[i], ranking[i + 1]) {
        ChainHalt(ranking, tie, i);
        return;
      }
      ChainAdvance(ranking, tie, i);
      LeadingGrow(ranking, i);
      winners := winners + [ranking[i + 1]];
      i := i + 1;
    }
    ChainHalt(ranking, tie, i);
  }

  /** The loop of the second phase of createRanking for the test `takes`:
      walking from the second entry, an entry that takes the lead from the
      current leader is moved to the front and becomes the leader. */
  method PromoteLoop(first: seq<int>, takes: (int, int) -> bool) returns (ranking: seq<int>)
    requires first != []
    ensures ranking == PromoteBy(first, takes, 1)
  {
    ranking := first;
    var leaderId := ranking[0];
    for i := 1 to |ranking|
      invariant |ranking| == |first|
      invariant PromoteBy(ranking, takes, i) == PromoteBy(first, takes, 1)
      invariant leaderId == ranking[0]
    {
      var currentId := ranking[i];
      if takes(leaderId, currentId) {
        ranking := [currentId] + ranking[..i] + ranking[i + 1..];
        leaderId := currentId;
      }
    }
  }

  /** The deal loop of draw: as many cards as asked for move from the front
      of the deck to the end of the hand; an empty deck stops it. */
  method DealInto(deck: Deck, p: Player, n: nat) returns (o: Outcome)
    modifies deck, p`hand
    ensures n <= |old(deck.cards)| ==>
              o == Ok && p.hand == old(p.hand) + old(deck.cards)[..n] && deck.cards == old(deck.cards)[n..]
    ensures n > |old(deck.cards)| ==>
              o == Err(EmptyDeck) && p.hand == old(p.hand) + old(deck.cards) && deck.cards == []
  {
    o := Ok;
    var i := 0;
    while i < n
      invariant 0 <= i <= n && i <= |old(deck.cards)|
      invariant deck.cards == old(deck.cards)[i..]
      invariant p.hand == old(p.hand) + old(deck.cards)[..i]
    {
      var c := deck.DealCard();
      if c.None? {
        assert old(deck.cards)[..i] == old(deck.cards);
        o := Err(EmptyDeck);
        return;
      }
      p.ReceiveCard(c.value);
      assert old(deck.cards)[..i + 1] == old(deck.cards)[..i] + [c.value];
      i := i + 1;
    }
  }

  /** `seat` gives each player object its position, so none sits twice. */
  predicate Indexed(ps: seq<Player>, seat: map<Player, int>)
  {
    forall j :: 0 <= j < |ps| ==> ps[j] in seat && seat[ps[j]] == j
  }

  /** The prize loop of splitStakeBetweenWinners: each seat whose id is a
      winner receives `share`. */
  method PayAll(ps: seq<Player>, winners: seq<int>, share: int, ghost seat: map<Player, int>)
    requires Indexed(ps, seat)
    modifies ps`credit
    ensures forall j :: 0 <= j < |ps| ==>
              ps[j].credit == old(ps[j].credit) + (if ps[j].id in winners then share else 0)
    ensures forall j :: 0 <= j < |ps| ==> ps[j].hand == old(ps[j].hand)
  {
    var k := 0;
    while k < |ps|
      invariant 0 <= k <= |ps|
      invariant forall j :: 0 <= j < |ps| ==>
                  ps[j].credit == old(ps[j].credit) + (if j < k && ps[j].id in winners then share else 0)
      invariant forall j :: 0 <= j < |ps| ==> ps[j].hand == old(ps[j].hand)
    {
      if ps[k].id in winners {
        ps[k].ReceivePrize(share);
      }
      k := k + 1;
    }
  }

  /** Credits that are `c` plus the share at each winner's seat are Prizes. */
  lemma CreditsPaid(ps: seq<Player>, c: seq<int>, winners: seq<int>, share: int)
    requires |c| == |ps|
    requires forall j :: 0 <= j < |ps| ==> ps[j].credit == c[j] + (if ps[j].id in winners then share else 0)
    ensures CreditsOf(ps) == Prizes(c, IdsOf(ps), winners, share)
  {
    var r, ids := CreditsOf(ps), IdsOf(ps);
    var q := Prizes(c, ids, winners, share);
    forall j | 0 <= j < |ps| ensures r[j] == q[j] {
      assert ids[j] == ps[j].id;
    }
  }

  /** Hands that equal `h` seat by seat are HandsOf. */
  lemma HandsKept(ps: seq<Player>, h: seq<seq<Card>>)
    requires |h| == |ps| && forall j :: 0 <= j < |ps| ==> ps[j].hand == h[j]
    ensures HandsOf(ps) == h
  {
  }

  /** Keys that are seated ids and name every seat are empty exactly when
      there are no seats. */
  lemma KeysCoverSeats(ids: seq<int>, keys: seq<int>)
    requires Seated(ids, keys) && forall j :: 0 <= j < |ids| ==> ids[j] in keys
    ensures (keys != []) == (ids != [])
  {
    if ids != [] {
      assert ids[0] in keys;
    }
    if keys != [] {
      assert keys[0] in ids;
    }
  }

  /** The getHand loop of evaluateHands: each seat's hand sorted by rank,
      in place. */
  method SortEach(ps: seq<Player>, ghost seat: map<Player, int>)
    requires Indexed(ps, seat)
    modifies ps`hand
    ensures forall j :: 0 <= j < |ps| ==> ps[j].hand == Sort(RankComparator, old(ps[j].hand))
  {
    var k := 0;
    while k < |ps|
      invariant 0 <= k <= |ps|
      invariant forall j :: 0 <= j < |ps| ==>
                  ps[j].hand == if j < k then Sort(RankComparator, old(ps[j].hand)) else old(ps[j].hand)
    {
      assert forall j :: 0 <= j < |ps| && j != k ==> ps[j] != ps[k] by {
        forall j | 0 <= j < |ps| && j != k ensures ps[j] != ps[k] {
          assert seat[ps[j]] == j;
        }
      }
      var h := ps[k].GetHand();
      k := k + 1;
    }
  }

  /** Hands that are the hands `h` sorted seat by seat are SortAll(h). */
  lemma SortedKept(ps: seq<Player>, h: seq<seq<Card>>)
    requires |h| == |ps| && forall j :: 0 <= j < |ps| ==> ps[j].hand == Sort(RankComparator, h[j])
    ensures HandsOf(ps) == SortAll(h)
  {
    assert forall j :: 0 <= j < |ps| ==> HandsOf(ps)[j] == SortAll(h)[j];
  }

  /** A second update at the same position replaces the first. */
  lemma UpdateTwice<T>(s: seq<T>, i: nat, a: T, b: T)
    requires i < |s|
    ensures s[i := a][i := b] == s[i := b]
  {
  }

  class Game {
    var players: seq<Player>
    var currentBids: map<Player, int>
    var allGameBids: map<Player, int>
    var folded: map<Player, bool>
    const deck: Deck
    const numberOfPlayers: int
    const ante: int
    var stake: int
    var currentNegotiationStake: int
    /** The seat of each player object, which makes the objects distinct. */
    ghost var seatOf: map<Player, nat>

    /** Distinct player objects, each with an entry in every map. */
    ghost predicate Valid()
      reads this
    {
      forall j :: 0 <= j < |players| ==>
        players[j] in seatOf && seatOf[players[j]] == j
        && players[j] in currentBids && players[j] in allGameBids && players[j] in folded
    }

    /** Every player can pay the ante. */
    ghost predicate CanPayAnte()
      reads this, players
    {
      forall j :: 0 <= j < |players| ==> players[j].credit >= ante
    }

    /** Game(numberOfPlayers): no seats taken, the default ante, a full deck. */
    constructor(numberOfPlayers: int)
      ensures Valid() && players == [] && this.numberOfPlayers == numberOfPlayers
      ensures ante == DefaultAnte && stake == 0 && currentNegotiationStake == 0
      ensures fresh(deck) && deck.cards == NewDeck() && deck.Complete()
    {
      players := [];
      currentBids := map[];
      allGameBids := map[];
      folded := map[];
      seatOf := map[];
      deck := new Deck();
      this.numberOfPlayers := numberOfPlayers;
      ante := DefaultAnte;
      stake := 0;
      currentNegotiationStake := 0;
    }

    /** Game(numberOfPlayers, ante). */
    constructor WithAnte(numberOfPlayers: int, ante: int)
      ensures Valid() && players == [] && this.numberOfPlayers == numberOfPlayers
      ensures this.ante == ante && stake == 0 && currentNegotiationStake == 0
      ensures fresh(deck) && deck.cards == NewDeck() && deck.Complete()
    {
      players := [];
      currentBids := map[];
      allGameBids := map[];
      folded := map[];
      seatOf := map[];
      deck := new Deck();
      this.numberOfPlayers := numberOfPlayers;
      this.ante := ante;
      stake := 0;
      currentNegotiationStake := 0;
    }

    /** newPlayer: refuses a player once all seats are taken; otherwise seats
        a new player with the default credit, no bids and not folded. */
    method NewPlayer(id: int) returns (o: Outcome)
      requires Valid()
      modifies this
      ensures Valid()
      ensures stake == old(stake) && currentNegotiationStake == old(currentNegotiationStake)
      ensures old(|players|) >= numberOfPlayers ==>
                o == Err(SeatsFull) && players == old(players) && currentBids == old(currentBids)
                && allGameBids == old(allGameBids) && folded == old(folded)
      ensures old(|players|) < numberOfPlayers ==>
                o == Ok && |players| == old(|players|) + 1 && players[..old(|players|)] == old(players)
      ensures old(|players|) < numberOfPlayers ==>
                var p := players[|players| - 1];
                fresh(p) && p.id == id && p.credit == DefaultCredit && p.hand == []
                && p.currentBid == 0 && p.allGameBid == 0 && !p.folded && !p.bidden
                && currentBids == old(currentBids)[p := 0] && allGameBids == old(allGameBids)[p := 0]
                && folded == old(folded)[p := false]
    {
      if |players| >= numberOfPlayers {
        return Err(SeatsFull);
      }
      var p := new Player(id);
      seatOf := seatOf[p := |players|];
      players := players + [p];
      currentBids := currentBids[p := 0];
      allGameBids := allGameBids[p := 0];
      folded := folded[p := false];
      o := Ok;
    }

    /** playerIndexFromId: the first seat with the id, or -1. */
    method PlayerIndexFromId(id: int) returns (idx: int)
      ensures idx == IndexOf(IdsOf(players), id)
    {
      var i := 0;
      while i < |players|
        invariant 0 <= i <= |players|
        invariant IndexFrom(IdsOf(players), id, i) == IndexOf(IdsOf(players), id)
      {
        if players[i].id == id {
          return i;
        }
        i := i + 1;
      }
      return -1;
    }

    /** takeAnte: charges the seats in order through Player.bid, recording the
        ante as each one's game bid and adding it to the stake; the first seat
        that cannot pay stops it, and the seats before it stay charged. */
    method TakeAnte() returns (o: Outcome)
      requires Valid()
      modifies this`allGameBids, this`stake, players`credit, players`allGameBid, players`currentBid
      ensures Valid()
      ensures var c := FirstShort(old(BooksOf(players)), ante, 0);
              (o == if c == |players| then Ok else Err(NotEnoughCredit))
              && stake == old(stake) + c * ante
              && BooksOf(players) == ChargeFirst(old(BooksOf(players)), c, ante)
              && GameBids(players, allGameBids) == FillFirst(old(GameBids(players, allGameBids)), c, ante)
    {
      ghost var b0 := BooksOf(players);
      ghost var c0 := GameBids(players, allGameBids);
      assert ChargeFirst(b0, 0, ante) == b0;
      assert FillFirst(c0, 0, ante) == c0;
      o := ChargeFrom(0, b0, c0);
      AntesProduct(FirstShort(b0, ante, 0), ante);
    }

    /** The seat loop of takeAnte from seat `k` on, the seats before `k`
        having paid: `b0` and `c0` are the books and game bids before the loop. */
    method ChargeFrom(k: nat, ghost b0: seq<Books>, ghost c0: seq<int>) returns (o: Outcome)
      requires Valid() && k <= |players|
      requires BooksOf(players) == ChargeFirst(b0, k, ante) && GameBids(players, allGameBids) == FillFirst(c0, k, ante)
      modifies this`allGameBids, this`stake, players`credit, players`allGameBid, players`currentBid
      ensures Valid()
      ensures var c := FirstShort(b0, ante, k);
              (o == if c == |players| then Ok else Err(NotEnoughCredit))
              && stake == old(stake) + Antes(c, ante) - Antes(k, ante)
              && BooksOf(players) == ChargeFirst(b0, c, ante)
              && GameBids(players, allGameBids) == FillFirst(c0, c, ante)
      decreases |players| - k
    {
      if k == |players| {
        return Ok;
      }
      o := ChargeSeat(k, players[k], b0, c0);
      if o != Ok {
        return;
      }
      o := ChargeFrom(k + 1, b0, c0);
    }

    /** One seat of takeAnte, after the seats before it have paid: the bid,
        its game-bid entry and the stake. */
    method ChargeSeat(k: nat, p: Player, ghost b0: seq<Books>, ghost c0: seq<int>) returns (o: Outcome)
      requires Valid() && k < |players| && p == players[k]
      requires BooksOf(players) == ChargeFirst(b0, k, ante) && GameBids(players, allGameBids) == FillFirst(c0, k, ante)
      modifies this`allGameBids, this`stake, p`credit, p`allGameBid, p`currentBid
      ensures Valid()
      ensures b0[k].credit < ante ==>
                o == Err(NotEnoughCredit) && stake == old(stake) && FirstShort(b0, ante, k) == k
                && BooksOf(players) == ChargeFirst(b0, k, ante) && GameBids(players, allGameBids) == FillFirst(c0, k, ante)
      ensures b0[k].credit >= ante ==>
                o == Ok && stake == old(stake) + ante && FirstShort(b0, ante, k) == FirstShort(b0, ante, k + 1)
                && BooksOf(players) == ChargeFirst(b0, k + 1, ante) && GameBids(players, allGameBids) == FillFirst(c0, k + 1, ante)
    {
      ghost var b := BooksOf(players);
      ghost var c := GameBids(players, allGameBids);
      assert b[k] == b0[k];
      o := p.Bid(ante);
      assert forall j :: 0 <= j < |players| && j != k ==> players[j] != p by {
        forall j | 0 <= j < |players| && j != k ensures players[j] != p {
          assert seatOf[players[j]] == j && seatOf[players[k]] == k;
        }
      }
      if o != Ok {
        assert BooksOf(players) == b;
        return;
      }
      assert BooksOf(players) == b[k := Paid(b[k], ante)];
      ChargeNext(b0, k, ante);
      allGameBids := allGameBids[p := ante];
      stake := stake + ante;
      assert GameBids(players, allGameBids) == c[k := ante];
      FillNext(c0, k, ante);
    }

    /** dealCards: five rounds, one card per seat in seat order, each from the
        front of the deck; an empty deck stops the deal where it is. */
    method DealCards() returns (o: Outcome)
      requires Valid()
      modifies deck, players`hand
      ensures var r := DealOf(old(HandsOf(players)), old(deck.cards));
              o == r.outcome && deck.cards == r.deck
              && forall j :: 0 <= j < |players| ==> players[j].hand == r.hands[j]
      ensures deck.dealt + deck.cards == old(deck.dealt + deck.cards)
    {
      var n := |players|;
      ghost var h := HandsOf(players);
      ghost var r := DealOf(h, deck.cards);
      ghost var seat := seatOf;
      assert forall j :: 0 <= j < n ==> seat[players[j]] == j;
      var i := 0;
      while i < CardsPerPlayer
        invariant 0 <= i <= CardsPerPlayer && |h| == n
        invariant i < CardsPerPlayer ==> DealFrom(h, deck.cards, 0, CardsPerPlayer - i) == r
        invariant i == CardsPerPlayer ==> r == DealResult(Ok, h, deck.cards)
        invariant forall j :: 0 <= j < n ==> players[j].hand == h[j]
        invariant deck.dealt + deck.cards == old(deck.dealt + deck.cards)
      {
        var k := 0;
        while k < n
          invariant 0 <= k <= n && |h| == n
          invariant DealFrom(h, deck.cards, k, CardsPerPlayer - i) == r
          invariant forall j :: 0 <= j < n ==> players[j].hand == h[j]
          invariant deck.dealt + deck.cards == old(deck.dealt + deck.cards)
          {
          var card := deck.DealCard();
          if card.None? {
            return Err(EmptyDeck);
          }
          players[k].ReceiveCard(card.value);
          h := h[k := h[k] + [card.value]];
          k := k + 1;
        }
        i := i + 1;
      }
      return Ok;
    }

    /** newGame: needs every seat taken; then the ante, a fresh unshuffled
        deck and the deal. */
    method NewGame() returns (o: Outcome)
      requires Valid()
      modifies this`allGameBids, this`stake, deck, players`credit, players`allGameBid, players`currentBid, players`hand
      ensures Valid()
      ensures old(|players|) < numberOfPlayers ==>
                o == Err(NotEnoughPlayers) && stake == old(stake) && allGameBids == old(allGameBids)
                && deck.cards == old(deck.cards) && HandsUnchanged(players) && BooksOf(players) == old(BooksOf(players))
      ensures old(|players|) >= numberOfPlayers ==>
                var c := FirstShort(old(BooksOf(players)), ante, 0);
                stake == old(stake) + c * ante
                && BooksOf(players) == ChargeFirst(old(BooksOf(players)), c, ante)
                && GameBids(players, allGameBids) == FillFirst(old(GameBids(players, allGameBids)), c, ante)
                && (c < |players| ==>
                      o == Err(NotEnoughCredit) && deck.cards == old(deck.cards) && HandsUnchanged(players))
      ensures old(|players|) >= numberOfPlayers && FirstShort(old(BooksOf(players)), ante, 0) == |players| ==>
                var r := DealOf(old(HandsOf(players)), NewDeck());
                o == r.outcome && deck.cards == r.deck && deck.Complete()
                && forall j :: 0 <= j < |players| ==> players[j].hand == r.hands[j]
    {
      if |players| < numberOfPlayers {
        return Err(NotEnoughPlayers);
      }
      ghost var h0 := HandsOf(players);
      o := TakeAnte();
      if o != Ok {
        return;
      }
      ghost var h1 := HandsOf(players);
      assert h1 == h0 by {
        assert forall j :: 0 <= j < |h0| ==> h1[j] == h0[j];
      }
      o := ResetAndDeal();
    }

    /** The end of newGame: a new unshuffled deck, then the deal. */
    method ResetAndDeal() returns (o: Outcome)
      requires Valid()
      modifies deck, players`hand
      ensures var r := DealOf(old(HandsOf(players)), NewDeck());
              o == r.outcome && deck.cards == r.deck && deck.Complete()
              && forall j :: 0 <= j < |players| ==> players[j].hand == r.hands[j]
      ensures BooksOf(players) == old(BooksOf(players))
    {
      ghost var b := BooksOf(players);
      ghost var h := HandsOf(players);
      deck.Reset();
      assert HandsOf(players) == h;
      ghost var full := deck.dealt + deck.cards;
      SameCards(deck.dealt, deck.cards, [], full);
      o := DealCards();
      SameCards(deck.dealt, deck.cards, [], full);
      assert BooksOf(players) == b;
    }

    /** draw: at most four indices and a seated id; the indices are sorted,
        each less the number already removed is discarded (an index above 4
        or a position outside the hand stops it), then as many cards as
        indices are dealt to the player from the front of the deck. */
    method Draw(playerId: int, cardsToDiscard: seq<int>) returns (o: Outcome)
      requires Valid()
      modifies deck, players`hand
      ensures Valid()
      ensures |cardsToDiscard| > MaxDiscards ==>
                o == Err(TooManyDiscards) && HandsOf(players) == old(HandsOf(players))
                && deck.cards == old(deck.cards)
      ensures |cardsToDiscard| <= MaxDiscards && playerId !in IdsOf(players) ==>
                o == Err(NoSuchPlayer) && HandsOf(players) == old(HandsOf(players))
                && deck.cards == old(deck.cards)
      ensures |cardsToDiscard| <= MaxDiscards && playerId in IdsOf(players) ==>
                var idx := IndexOf(IdsOf(players), playerId);
                var r := DiscardsFrom(old(players[idx].hand), SortInts(cardsToDiscard), 0);
                var n := |cardsToDiscard|;
                (r.outcome != Ok ==>
                   o == r.outcome && HandsOf(players) == old(HandsOf(players))[idx := r.hand]
                   && deck.cards == old(deck.cards))
                && (r.outcome == Ok && n <= |old(deck.cards)| ==>
                      o == Ok && HandsOf(players) == old(HandsOf(players))[idx := r.hand + old(deck.cards)[..n]]
                      && deck.cards == old(deck.cards)[n..])
                && (r.outcome == Ok && n > |old(deck.cards)| ==>
                      o == Err(EmptyDeck) && HandsOf(players) == old(HandsOf(players))[idx := r.hand + old(deck.cards)]
                      && deck.cards == [])
      ensures o == Ok ==>
                var idx := IndexOf(IdsOf(players), playerId);
                playerId in IdsOf(players) && |HandsOf(players)[idx]| == |old(HandsOf(players))[idx]|
    {
      if |cardsToDiscard| > MaxDiscards {
        return Err(TooManyDiscards);
      }
      var idx := PlayerIndexFromId(playerId);
      if idx == -1 {
        return Err(NoSuchPlayer);
      }
      var sorted := SortInts(cardsToDiscard);
      ghost var h0 := HandsOf(players);
      ghost var r := DiscardsFrom(h0[idx], sorted, 0);
      o := DiscardAll(idx, players[idx], sorted);
      if o != Ok {
        return;
      }
      assert players[idx].hand == r.hand;
      DiscardsFromLength(h0[idx], sorted, 0);
      o := Refill(idx, players[idx], |sorted|);
      UpdateTwice(h0, idx, r.hand, players[idx].hand);
    }

    /** The first loop of draw: each sorted index, less the number of cards
        already removed, is discarded from the seat's hand; an index above 4
        or a position outside the hand stops it. */
    method DiscardAll(k: nat, p: Player, sorted: seq<int>) returns (o: Outcome)
      requires Valid() && k < |players| && p == players[k]
      modifies p`hand
      ensures var r := DiscardsFrom(old(p.hand), sorted, 0);
              o == r.outcome && HandsOf(players) == old(HandsOf(players))[k := r.hand]
    {
      ghost var h0 := p.hand;
      ghost var before := HandsOf(players);
      o := Ok;
      var i := 0;
      while i < |sorted|
        invariant 0 <= i <= |sorted|
        invariant DiscardsFrom(p.hand, sorted, i) == DiscardsFrom(h0, sorted, 0) && o == Ok
      {
        if sorted[i] > MaxDiscardIndex {
          o := Err(CardIndexTooHigh);
          break;
        }
        o := p.DiscardCard(sorted[i] - i);
        if o != Ok {
          break;
        }
        i := i + 1;
      }
      assert DiscardsFrom(h0, sorted, 0) == DiscardResult(o, p.hand);
      assert forall j :: 0 <= j < |players| && j != k ==> players[j] != p by {
        forall j | 0 <= j < |players| && j != k ensures players[j] != p {
          assert seatOf[players[j]] == j;
        }
      }
      assert HandsOf(players) == before[k := p.hand];
    }

    /** The second loop of draw: as many cards as indices are dealt to the
        seat from the front of the deck; an empty deck stops it. */
    method Refill(k: nat, p: Player, n: nat) returns (o: Outcome)
      requires Valid() && k < |players| && p == players[k]
      modifies deck, p`hand
      ensures n <= |old(deck.cards)| ==>
                o == Ok && HandsOf(players) == old(HandsOf(players))[k := old(p.hand) + old(deck.cards)[..n]]
                && deck.cards == old(deck.cards)[n..]
      ensures n > |old(deck.cards)| ==>
                o == Err(EmptyDeck) && HandsOf(players) == old(HandsOf(players))[k := old(p.hand) + old(deck.cards)]
                && deck.cards == []
    {
      ghost var before := HandsOf(players);
      o := DealInto(deck, p, n);
      assert forall j :: 0 <= j < |players| && j != k ==> players[j] != p by {
        forall j | 0 <= j < |players| && j != k ensures players[j] != p {
          assert seatOf[players[j]] == j;
        }
      }
      assert HandsOf(players) == before[k := p.hand];
    }

    /** endNegotiation: the negotiation stake returns to 0. */
    method EndNegotiation()
      modifies this`currentNegotiationStake
      ensures currentNegotiationStake == 0
    {
      currentNegotiationStake := 0;
    }

    /** bid: the seated player bids through Player.bid; when that succeeds the
        bid becomes the player's entry in both maps. The stake is untouched. */
    method Bid(playerId: int, bidValue: int) returns (o: Outcome)
      requires Valid()
      modifies this`currentBids, this`allGameBids, players`credit, players`currentBid, players`allGameBid
      ensures Valid()
      ensures playerId !in IdsOf(players) ==>
                o == Err(NoSuchPlayer) && BooksOf(players) == old(BooksOf(players))
                && currentBids == old(currentBids) && allGameBids == old(allGameBids)
      ensures playerId in IdsOf(players) ==>
                var idx := IndexOf(IdsOf(players), playerId);
                var b := old(BooksOf(players));
                (bidValue > b[idx].credit ==>
                   o == Err(NotEnoughCredit) && BooksOf(players) == b
                   && currentBids == old(currentBids) && allGameBids == old(allGameBids))
                && (bidValue <= b[idx].credit ==>
                      o == Ok && BooksOf(players) == b[idx := Paid(b[idx], bidValue)]
                      && currentBids == old(currentBids)[players[idx] := bidValue]
                      && allGameBids == old(allGameBids)[players[idx] := bidValue])
    {
      var idx := PlayerIndexFromId(playerId);
      if idx == -1 {
        return Err(NoSuchPlayer);
      }
      o := SeatBid(idx, bidValue);
    }

    /** bid once the seat is found: Player.bid, and on success the bid is
        recorded in both maps. */
    method SeatBid(idx: nat, bidValue: int) returns (o: Outcome)
      requires Valid() && idx < |players|
      modifies this`currentBids, this`allGameBids, players`credit, players`currentBid, players`allGameBid
      ensures Valid()
      ensures var b := old(BooksOf(players));
              (bidValue > b[idx].credit ==>
                 o == Err(NotEnoughCredit) && BooksOf(players) == b
                 && currentBids == old(currentBids) && allGameBids == old(allGameBids))
              && (bidValue <= b[idx].credit ==>
                    o == Ok && BooksOf(players) == b[idx := Paid(b[idx], bidValue)]
                    && currentBids == old(currentBids)[players[idx] := bidValue]
                    && allGameBids == old(allGameBids)[players[idx] := bidValue])
    {
      var player := players[idx];
      ghost var b := BooksOf(players);
      OthersDistinct(idx);
      o := player.Bid(bidValue);
      if o != Ok {
        assert BooksOf(players) == b;
        return;
      }
      assert BooksOf(players) == b[idx := Paid(b[idx], bidValue)];
      RecordBid(player, bidValue);
    }

    /** The bookkeeping of a successful bid: the bid becomes the player's
        entry in both maps. */
    method RecordBid(player: Player, bidValue: int)
      requires Valid()
      modifies this`currentBids, this`allGameBids
      ensures Valid()
      ensures currentBids == old(currentBids)[player := bidValue]
      ensures allGameBids == old(allGameBids)[player := bidValue]
    {
      currentBids := currentBids[player := bidValue];
      allGameBids := allGameBids[player := bidValue];
    }

    /** No other seat holds the player at `idx`. */
    lemma OthersDistinct(idx: nat)
      requires Valid() && idx < |players|
      ensures forall j :: 0 <= j < |players| && j != idx ==> players[j] != players[idx]
    {
      forall j | 0 <= j < |players| && j != idx ensures players[j] != players[idx] {
        assert seatOf[players[j]] == j;
      }
    }

    /** fold: marks the seated player as folded. */
    method Fold(playerId: int) returns (o: Outcome)
      requires Valid()
      modifies this`folded
      ensures Valid()
      ensures playerId !in IdsOf(players) ==> o == Err(NoSuchPlayer) && folded == old(folded)
      ensures playerId in IdsOf(players) ==>
                o == Ok && folded == old(folded)[players[IndexOf(IdsOf(players), playerId)] := true]
    {
      var idx := PlayerIndexFromId(playerId);
      if idx == -1 {
        return Err(NoSuchPlayer);
      }
      folded := folded[players[idx] := true];
      o := Ok;
    }

    /** evaluateHands: sorts every hand by rank and maps each id to the
        category of its hand. The hands are sorted first and evaluated after;
        each evaluation reads only its own seat's sorted hand. */
    method EvaluateHands() returns (values: map<int, HandValue>)
      requires Valid() && FiveCards(HandsOf(players))
      modifies players`hand
      ensures HandsOf(players) == SortAll(old(HandsOf(players)))
      ensures FiveCards(HandsOf(players))
      ensures values == ValueMap(IdsOf(players), HandsOf(players))
    {
      ghost var h0 := HandsOf(players);
      SortHands();
      SortAllFive(h0);
      values := EvaluateEach(IdsOf(players), HandsOf(players), Category);
    }

    /** The getHand calls of evaluateHands: every seat's hand sorted by rank, in place. */
    method SortHands()
      requires Valid()
      modifies players`hand
      ensures HandsOf(players) == SortAll(old(HandsOf(players)))
    {
      ghost var h0 := HandsOf(players);
      SortEach(players, seatOf);
      SortedKept(players, h0);
    }

    /** createRanking: the categories' ranking over the keys in the given
        iteration order, then the second phase over the hands; no keys fails. */
    method CreateRanking(values: map<int, HandValue>, keys: seq<int>) returns (o: Outcome, ranking: seq<int>)
      requires AllIn(values, keys) && Seated(IdsOf(players), keys)
      ensures (o == Ok) == (keys != [])
      ensures o != Ok ==> o == Err(NoPlayers)
      ensures o == Ok ==> ranking == CreateRankingOf(IdsOf(players), HandsOf(players), values, keys)
    {
      ghost var ids := IdsOf(players);
      var first := RankKeys(values, keys);
      if |first| == 0 {
        RankingLeads(values, keys);
        return Err(NoPlayers), first;
      }
      RankingLeads(values, keys);
      assert Seated(ids, first) by {
        forall k | 0 <= k < |first| ensures first[k] in ids {
          var j :| 0 <= j < |keys| && keys[j] == first[k];
        }
      }
      ranking := PromoteLeaders(values, first);
      o := Ok;
    }

    /** The second phase of createRanking: walking the ranking from its second
        entry, an entry that takes the lead from the current leader is moved
        to the front and becomes the leader. */
    method PromoteLeaders(values: map<int, HandValue>, first: seq<int>) returns (ranking: seq<int>)
      requires AllIn(values, first) && Seated(IdsOf(players), first) && first != []
      ensures ranking == PromoteFrom(IdsOf(players), HandsOf(players), values, first, 1)
    {
      ranking := PromoteLoop(first, LeadOf(IdsOf(players), HandsOf(players), values));
    }

    /** createWinnersList: the leader, then each next entry while it ties
        with the one before it, where tying means the same category and a
        settleDraw of 0 between the two seats' hands. */
    method CreateWinnersList(ranking: seq<int>, values: map<int, HandValue>) returns (winners: seq<int>)
      requires ranking != []
      ensures winners == WinnersOf(IdsOf(players), HandsOf(players), values, ranking)
    {
      winners := ChainWinners(ranking, TieOf(IdsOf(players), HandsOf(players), values));
    }

    /** splitStakeBetweenWinners: evaluates the hands, ranks the ids in the
        given key order, and credits every seat whose id is among the winners
        with the stake divided by the number of winners (Java int division).
        The stake itself is left as it was. */
    method SplitStakeBetweenWinners(keys: seq<int>) returns (o: Outcome)
      requires Valid() && FiveCards(HandsOf(players))
      requires Seated(IdsOf(players), keys) && forall j :: 0 <= j < |players| ==> IdsOf(players)[j] in keys
      modifies players`hand, players`credit
      ensures HandsOf(players) == SortAll(old(HandsOf(players))) && FiveCards(HandsOf(players))
      ensures (o == Ok) == (players != [])
      ensures o != Ok ==> o == Err(NoPlayers) && CreditsOf(players) == old(CreditsOf(players))
      ensures o == Ok ==>
                var winners := Winners(IdsOf(players), HandsOf(players), keys);
                |winners| > 0
                && CreditsOf(players)
                   == Prizes(old(CreditsOf(players)), IdsOf(players), winners, JavaDiv(stake, |winners|))
    {
      ghost var c0 := CreditsOf(players);
      var values := EvaluateHands();
      assert CreditsOf(players) == c0;
      KeysCoverSeats(IdsOf(players), keys);
      o := ShareStake(values, keys, c0);
    }

    /** splitStakeBetweenWinners once the hands are evaluated: the ranking,
        the winners, and the share paid to each winner's seat. */
    method ShareStake(values: map<int, HandValue>, keys: seq<int>, ghost c0: seq<int>) returns (o: Outcome)
      requires Valid() && FiveCards(HandsOf(players)) && Seated(IdsOf(players), keys)
      requires values == ValueMap(IdsOf(players), HandsOf(players)) && c0 == CreditsOf(players)
      modifies players`credit
      ensures HandsOf(players) == old(HandsOf(players))
      ensures (o == Ok) == (keys != [])
      ensures o != Ok ==> o == Err(NoPlayers) && CreditsOf(players) == c0
      ensures o == Ok ==>
                var winners := Winners(IdsOf(players), HandsOf(players), keys);
                |winners| > 0 && CreditsOf(players) == Prizes(c0, IdsOf(players), winners, JavaDiv(stake, |winners|))
    {
      ValueMapSeated(IdsOf(players), HandsOf(players), keys);
      o := ShareShowdown(values, keys);
    }

    /** ShareStake over any table of the hands' categories. */
    method ShareShowdown(values: map<int, HandValue>, keys: seq<int>) returns (o: Outcome)
      requires Valid() && AllIn(values, keys) && Seated(IdsOf(players), keys)
      modifies players`credit
      ensures HandsOf(players) == old(HandsOf(players))
      ensures (o == Ok) == (keys != [])
      ensures o != Ok ==> o == Err(NoPlayers) && CreditsOf(players) == old(CreditsOf(players))
      ensures o == Ok ==>
                var winners := WinnersOf(IdsOf(players), HandsOf(players), values,
                                         CreateRankingOf(IdsOf(players), HandsOf(players), values, keys));
                |winners| > 0
                && CreditsOf(players)
                   == Prizes(old(CreditsOf(players)), IdsOf(players), winners, JavaDiv(stake, |winners|))
    {
      var ranking;
      o, ranking := CreateRanking(values, keys);
      if o != Ok {
        return;
      }
      var winners := CreateWinnersList(ranking, values);
      PayWinners(winners, JavaDiv(stake, |winners|));
    }

    /** The prize loop of splitStakeBetweenWinners: each seat whose id is
        among the winners receives the share. */
    method PayWinners(winners: seq<int>, share: int)
      requires Valid()
      modifies players`credit
      ensures CreditsOf(players) == Prizes(old(CreditsOf(players)), IdsOf(players), winners, share)
      ensures HandsOf(players) == old(HandsOf(players))
    {
      ghost var c0 := CreditsOf(players);
      ghost var h0 := HandsOf(players);
      PayAll(players, winners, share, seatOf);
      CreditsPaid(players, c0, winners, share);
      HandsKept(players, h0);
    }
  }
}
