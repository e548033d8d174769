# Five-card draw poker: rules library and wire codec

This project models the rules library of a networked five-card draw poker
game, together with the text codec that client and server use for their
messages. The Dafny model covers these parts:

- **Cards.** Thirteen ranks from deuce to ace and four suits from clubs to spades.
- **The canonical deck.** It is built suit-major, rank-minor.
- **Three card orders.** By rank (higher first), by suit and canonical.
- **The deck.** It is reset to the canonical order, shuffled by a supplied
  sequence of random choices, and dealt from the front.
- **The hand evaluator.** It sorts a five-card hand by rank and classifies it
  into one of nine categories. A fixed priority chain of index-scanning
  detectors does the classifying. It then breaks ties inside a category.
- **The player.** Cards in hand, credit, and the per-round and per-game bid
  totals.
- **The game table.** It has these parts:
  - seats;
  - collecting the ante into the stake;
  - round-robin dealing;
  - discard-and-redraw with index shifting;
  - bids and folds;
  - a showdown that ranks the players, collects the chain of tied leaders,
    and splits the stake with Java's truncating integer division.
- **The message parser.** It encodes and decodes `gameId/playerId/code/params`
  with a twelve-entry action code table.

The model follows the code as written, not the rules of poker. Where the two
differ, lemmas show the consequence:

- A straight or flush tie is decided by the top sorted card alone. So is a
  high-card tie.
- Because of that, an ace-low straight flush outranks a ten-high one.
  `HandComparison.WheelBeatsTenHighStraightFlush` shows this. The repository's
  own test (`HandEvaluatorTest.java:614-632`) expects the opposite, so the code
  and its test disagree.
- `createRanking` drops a key whose category is no higher than every entry
  already ranked. `Showdown.PlaceDropsTies` shows this.
- `newGame` never shuffles.
- `newGame` never clears the hands. A second game deals five more cards onto
  the five already held.
- `bid` neither checks the negotiation stake nor adds the bid to the stake.
- The showdown does not skip folded players.
- `draw` and `takeAnte` are not atomic. Seats charged, or cards removed,
  before a failure stay that way, and the contracts state that state.

### How Java is mapped into Dafny

- **Exceptions** become error outcomes (`Outcomes.Outcome`,
  `Messages.Result`).
- **Mutable classes** become Dafny classes:
  - `Deck`, `Player` and `Game` keep their fields.
  - `Game`'s `HashMap<Player, …>` fields are maps keyed by the player objects.
    A ghost seat map keeps those objects distinct.
  - `MessageParser` keeps its `args` list as a `seq<string>` field.
- **The hand evaluator's set-up.** `evaluate` and `compareHands` sort the
  caller's list in place, so they are methods over arrays. The detectors and
  tie-breaks they call are pure functions, specified over sequences.
- **An independent reference classification.**
  `HandRanking.ReferenceValue` classifies a hand by rank counts, suits and
  five consecutive ranks. `HandRanking.EvaluateIsStandard` proves that the
  detector chain agrees with it on every five-card hand.
- **The showdown.** The ranking, the leader promotion and the winners chain
  are specified as functions over the ids, the hands and the category table.
  The `Game` methods that run the loops are proved against those functions.
  `Games.ShowdownWinnersHoldBestHands` then proves that every winner holds
  the highest category at the table, when the seats have distinct ids.
- **Two calls that do not resolve against the repository's classes.**
  - `Game.java` calls `handEvaluator.settleDraw(hand1, hand2, value)`. It is
    modelled as the same-category dispatch of `compareHands`
    (`HandEvaluator.SettleDraw`).
  - `Game.java` calls `player.getPrize`. It is modelled as
    `Player.receivePrize`.
- **Two nondeterministic inputs become parameters.** The order in which the
  showdown visits the `HashMap` keys is the sequence `keys`. The random
  choices of `Collections.shuffle` are the sequence `choices`.

## Model

Source paths are relative to the repository root.

| member | source | states |
|---|---|---|
| Cards.Equals | poker-model/src/main/java/pl/edu/agh/kis/pz1/Card.java:52-64 | two cards are equal exactly when rank and suit are both equal |
| Cards.CanonicalCard | poker-model/src/main/java/pl/edu/agh/kis/pz1/Card.java:22-28 | the card at canonical position i has suit * 13 + rank == i |
| Cards.NewDeck | poker-model/src/main/java/pl/edu/agh/kis/pz1/Card.java:47-49 | the new deck has 52 cards; the card at position i has suit * 13 + rank == i |
| Cards.NewDeckAt | poker-model/src/main/java/pl/edu/agh/kis/pz1/Card.java:22-28 | the card of suit s and rank r sits at position s * 13 + r of the new deck |
| Cards.NewDeckDistinct | poker-model/src/main/java/pl/edu/agh/kis/pz1/Card.java:22-28 | any two positions of the new deck hold different cards |
| Cards.BuildProtoDeck | poker-model/src/main/java/pl/edu/agh/kis/pz1/Card.java:20-28 | the nested suit/rank loops of the static initializer build exactly the canonical deck |
| Comparators.CompareByRank | poker-model/src/main/java/pl/edu/agh/kis/pz1/CardRankComparator.java:9-14 | a higher rank compares below (sorts first); for equal ranks the result is the suit difference; zero exactly for the same card |
| Comparators.CompareBySuit | poker-model/src/main/java/pl/edu/agh/kis/pz1/CardSuitComparator.java:11-16 | a lower suit sorts first; inside a suit a higher rank sorts first; zero exactly for the same card |
| Comparators.CompareCanonical | poker-model/src/main/java/pl/edu/agh/kis/pz1/CardComparator.java:6-11 | a lower suit sorts first; inside a suit a lower rank sorts first; zero exactly for the same card |
| Comparators.CompareZeroIffEqual | poker-model/src/main/java/pl/edu/agh/kis/pz1/CardRankComparator.java:9-14 | each of the three comparators is zero exactly on equal cards |
| Comparators.CompareAntisymmetric | poker-model/src/main/java/pl/edu/agh/kis/pz1/CardSuitComparator.java:11-16 | each comparator changes sign when its arguments are swapped |
| Comparators.CompareTransitive | poker-model/src/main/java/pl/edu/agh/kis/pz1/CardComparator.java:6-11 | each comparator is transitive |
| Comparators.CompareTotal | poker-model/src/main/java/pl/edu/agh/kis/pz1/CardRankComparator.java:9-14 | any two cards are ordered one way or the other by each comparator |
| Comparators.NewDeckSortedCanonically | poker-model/src/main/java/pl/edu/agh/kis/pz1/CardComparator.java:7-10 | the canonical deck is strictly ascending under the canonical comparator |
| Sorting.Insert | poker-model/src/main/java/pl/edu/agh/kis/pz1/HandEvaluator.java:42 | inserting a card adds exactly that card to the multiset and one to the length |
| Sorting.InsertSorted | poker-model/src/main/java/pl/edu/agh/kis/pz1/HandEvaluator.java:42 | inserting into a sorted list keeps it sorted |
| Sorting.Sort | poker-model/src/main/java/pl/edu/agh/kis/pz1/HandEvaluator.java:42 | List.sort keeps the multiset of cards and the length |
| Sorting.SortSorted | poker-model/src/main/java/pl/edu/agh/kis/pz1/HandEvaluator.java:42 | the result of sorting is sorted under the comparator used |
| Sorting.SortedUnique | poker-model/src/main/java/pl/edu/agh/kis/pz1/HandEvaluator.java:74-75 | two sorted lists with the same cards are equal, because the comparators are total orders with zero only on equal cards |
| Sorting.SortOfSorted | poker-model/src/main/java/pl/edu/agh/kis/pz1/Player.java:71-74 | sorting a sorted list changes nothing, so a second getHand is the identity |
| Sorting.SortPermutation | poker-model/src/main/java/pl/edu/agh/kis/pz1/HandEvaluator.java:74-75 | sorting depends only on the multiset of cards, not on their order |
| Decks.NewDeckOnce | poker-model/src/main/java/pl/edu/agh/kis/pz1/Card.java:22-28 | every card occurs exactly once in the canonical deck |
| Decks.Deck.constructor | poker-model/src/main/java/pl/edu/agh/kis/pz1/Deck.java:14-16 | a new deck holds the canonical deck and nothing has been dealt |
| Decks.Deck.Reset | poker-model/src/main/java/pl/edu/agh/kis/pz1/Deck.java:21-23 | newDeck restores the 52-card canonical deck whatever was dealt before |
| Decks.Deck.Shuffle | poker-model/src/main/java/pl/edu/agh/kis/pz1/Deck.java:25-27 | shuffling keeps the multiset of cards and the size; the dealt-plus-remaining invariant survives |
| Decks.Deck.DealCard | poker-model/src/main/java/pl/edu/agh/kis/pz1/Deck.java:36-38 | dealing returns the former top card and leaves exactly the former tail; on an empty deck it fails and changes nothing |
| Decks.Deck.NoCardTwice | poker-model/src/main/java/pl/edu/agh/kis/pz1/Deck.java:21-38 | after a reset and any deals, each card is either dealt once or still in the deck once |
| HandEvaluator.HandValue.Ordinal | poker-model/src/main/java/pl/edu/agh/kis/pz1/HandEvaluator.java:18-20 | the nine categories are numbered 0 (high card) to 8 (straight flush) in declaration order |
| HandEvaluator.CompareValues | poker-model/src/main/java/pl/edu/agh/kis/pz1/HandEvaluator.java:77-78 | Enum.compareTo on categories is zero exactly for the same category |
| HandEvaluator.RunFrom | poker-model/src/main/java/pl/edu/agh/kis/pz1/HandEvaluator.java:103-112 | the detector loops return the first index at which n cards of one rank start, and -1 exactly when there is none |
| HandEvaluator.RemoveRun | poker-model/src/main/java/pl/edu/agh/kis/pz1/HandEvaluator.java:114-132 | removing the run of n cards at i keeps the cards before i and shifts the later cards down by n |
| HandEvaluator.HasPair | poker-model/src/main/java/pl/edu/agh/kis/pz1/HandEvaluator.java:193-200 | the first card of the first pair of neighbours, or -1; `HandRanking.PairMatches` states when it succeeds |
| HandEvaluator.HasThreeOfAKind | poker-model/src/main/java/pl/edu/agh/kis/pz1/HandEvaluator.java:169-177 | the first card of the first triple, or -1; `HandRanking.ThreeOfAKindMatches` states when it succeeds |
| HandEvaluator.HasFourOfAKind | poker-model/src/main/java/pl/edu/agh/kis/pz1/HandEvaluator.java:103-112 | the first card of the first quad, or -1; `HandRanking.FourOfAKindMatches` states when it succeeds |
| HandEvaluator.HasTwoPair | poker-model/src/main/java/pl/edu/agh/kis/pz1/HandEvaluator.java:179-191 | the first pair when a second pair follows it, or -1; `HandRanking.TwoPairMatches` and `HandEvaluator.TwoPairHasSecondPair` state it |
| HandEvaluator.HasFullHouse | poker-model/src/main/java/pl/edu/agh/kis/pz1/HandEvaluator.java:114-132 | the triple when the two cards left hold a pair, or -1; `HandRanking.FullHouseMatches` states it |
| HandEvaluator.HasFlush | poker-model/src/main/java/pl/edu/agh/kis/pz1/HandEvaluator.java:134-147 | 0 when the suit-sorted copy has equal neighbouring suits, or -1; `HandRanking.FlushMatches` states it |
| HandEvaluator.HasStraight | poker-model/src/main/java/pl/edu/agh/kis/pz1/HandEvaluator.java:149-167 | 0 for five descending ranks, the ace high or low, or -1; `HandRanking.StraightMatches` states it |
| HandEvaluator.HasStraightFlush | poker-model/src/main/java/pl/edu/agh/kis/pz1/HandEvaluator.java:96-101 | 0 when both the straight and the flush detector return 0, or -1; `HandRanking.ClassifyMatchesReference` states the category it gives |
| HandEvaluator.Classify | poker-model/src/main/java/pl/edu/agh/kis/pz1/HandEvaluator.java:44-61 | the priority chain of detectors; `HandRanking.ClassifyMatchesReference` proves it agrees with the reference classification |
| HandEvaluator.HandValueOf | poker-model/src/main/java/pl/edu/agh/kis/pz1/HandEvaluator.java:39-62 | evaluate on a copy: sort by rank, then the chain; `HandRanking.EvaluateIsStandard` and `HandRanking.EvaluateOrderIndependent` state it |
| HandEvaluator.SettleStraightOrFlush | poker-model/src/main/java/pl/edu/agh/kis/pz1/HandEvaluator.java:202-204 | the tie-break of straights and flushes; `HandComparison.CompareByTopRank` states it |
| HandEvaluator.SettleFourOfAKind | poker-model/src/main/java/pl/edu/agh/kis/pz1/HandEvaluator.java:206-215 | the tie-break of quads; `HandComparison.CompareFourOfAKind` states it |
| HandEvaluator.SettleFullHouse | poker-model/src/main/java/pl/edu/agh/kis/pz1/HandEvaluator.java:217-227 | the tie-break of full houses; `HandComparison.CompareFullHouse` states it |
| HandEvaluator.SettleThreeOfAKind | poker-model/src/main/java/pl/edu/agh/kis/pz1/HandEvaluator.java:229-238 | the tie-break of triples; `HandComparison.CompareThreeOfAKind` states it |
| HandEvaluator.SettleTwoPair | poker-model/src/main/java/pl/edu/agh/kis/pz1/HandEvaluator.java:240-256 | the tie-break of two pairs; `HandComparison.CompareTwoPair` states it |
| HandEvaluator.SettlePair | poker-model/src/main/java/pl/edu/agh/kis/pz1/HandEvaluator.java:258-270 | the tie-break of pairs; `HandComparison.ComparePair` states it |
| HandEvaluator.SettleHighCard | poker-model/src/main/java/pl/edu/agh/kis/pz1/HandEvaluator.java:292-301 | the tie-break of high cards; `HandComparison.HighCardFromTop` states it |
| HandEvaluator.SettleDraw | poker-model/src/main/java/pl/edu/agh/kis/pz1/HandEvaluator.java:82-91 | the same-category dispatch of compareHands; `HandComparison.SettleDrawAntisymmetric` and `HandComparison.SettleDrawReflexive` state it |
| HandEvaluator.ClassifyWitness | poker-model/src/main/java/pl/edu/agh/kis/pz1/HandEvaluator.java:39-62 | each category the chain returns comes with the detector that found it, as its tie-break needs |
| HandEvaluator.TwoPairHasSecondPair | poker-model/src/main/java/pl/edu/agh/kis/pz1/HandEvaluator.java:179-191 | when hasTwoPair succeeds, a second pair is found after the first pair is removed |
| HandEvaluator.CheckPairDraw | poker-model/src/main/java/pl/edu/agh/kis/pz1/HandEvaluator.java:272-290 | checkPairDraw removes the pair from each hand, leaving two cards fewer in each |
| HandEvaluator.CompareHandsOf | poker-model/src/main/java/pl/edu/agh/kis/pz1/HandEvaluator.java:72-94 | when the categories differ, compareHands is the category comparison |
| HandEvaluator.SortByRank | poker-model/src/main/java/pl/edu/agh/kis/pz1/HandEvaluator.java:41-42 | the array is sorted in place by rank into the sorted permutation of its old contents |
| HandEvaluator.Evaluate | poker-model/src/main/java/pl/edu/agh/kis/pz1/HandEvaluator.java:39-62 | evaluate leaves the caller's hand sorted by rank and returns the category of the old hand |
| HandEvaluator.CompareHands | poker-model/src/main/java/pl/edu/agh/kis/pz1/HandEvaluator.java:72-94 | compareHands sorts both caller hands in place and returns the comparison of the old hands |
| HandRanking.RankCount | poker-model/src/main/java/pl/edu/agh/kis/pz1/HandEvaluator.java:103-200 | the number of cards of a rank is at most the hand size |
| HandRanking.RankCountPermutation | poker-model/src/main/java/pl/edu/agh/kis/pz1/HandEvaluator.java:41-42 | rank counts depend only on the multiset of cards |
| HandRanking.ReferencePermutation | poker-model/src/main/java/pl/edu/agh/kis/pz1/HandEvaluator.java:39-62 | the reference category depends only on the multiset of cards |
| HandRanking.SortedByRankDescends | poker-model/src/main/java/pl/edu/agh/kis/pz1/CardRankComparator.java:9-14 | a five-card hand sorted by rank is non-increasing in rank |
| HandRanking.FourOfAKindMatches | poker-model/src/main/java/pl/edu/agh/kis/pz1/HandEvaluator.java:103-112 | on a rank-sorted hand hasFourOfAKind succeeds exactly when some rank occurs four times |
| HandRanking.ThreeOfAKindMatches | poker-model/src/main/java/pl/edu/agh/kis/pz1/HandEvaluator.java:169-177 | on a rank-sorted hand hasThreeOfAKind succeeds exactly when some rank occurs three times |
| HandRanking.PairMatches | poker-model/src/main/java/pl/edu/agh/kis/pz1/HandEvaluator.java:193-200 | on a rank-sorted hand hasPair succeeds exactly when some rank occurs twice |
| HandRanking.TwoPairMatches | poker-model/src/main/java/pl/edu/agh/kis/pz1/HandEvaluator.java:179-191 | on a rank-sorted hand without four of a kind, hasTwoPair succeeds exactly when two ranks occur twice |
| HandRanking.FullHouseMatches | poker-model/src/main/java/pl/edu/agh/kis/pz1/HandEvaluator.java:114-132 | on a rank-sorted hand without four of a kind, hasFullHouse succeeds exactly for three of one rank and two of another |
| HandRanking.FlushMatches | poker-model/src/main/java/pl/edu/agh/kis/pz1/HandEvaluator.java:134-147 | hasFlush, which sorts by suit and compares neighbours, succeeds exactly when all cards share one suit |
| HandRanking.AdjacentSuitsAll | poker-model/src/main/java/pl/edu/agh/kis/pz1/HandEvaluator.java:139-146 | equal neighbouring suits mean one suit throughout |
| HandRanking.StraightMatches | poker-model/src/main/java/pl/edu/agh/kis/pz1/HandEvaluator.java:149-167 | on a rank-sorted hand hasStraight succeeds exactly for five consecutive ranks, with the ace high above the king or low below the deuce |
| HandRanking.ClassifyMatchesReference | poker-model/src/main/java/pl/edu/agh/kis/pz1/HandEvaluator.java:44-61 | on a rank-sorted hand the detector chain returns the reference category |
| HandRanking.EvaluateIsStandard | poker-model/src/main/java/pl/edu/agh/kis/pz1/HandEvaluator.java:39-62 | evaluate returns the reference category on every five-card hand |
| HandRanking.EvaluateOrderIndependent | poker-model/src/main/java/pl/edu/agh/kis/pz1/HandEvaluator.java:39-62 | evaluate does not depend on the order of the cards |
| HandRanking.StraightRanksDistinct | poker-model/src/main/java/pl/edu/agh/kis/pz1/HandEvaluator.java:149-167 | a hand evaluated as a straight or straight flush holds no rank twice |
| HandComparison.HighCardFromTop | poker-model/src/main/java/pl/edu/agh/kis/pz1/HandEvaluator.java:292-301 | the high-card loop re-reads position 0 on every pass, so its result is the difference of the top ranks |
| HandComparison.SettleDrawAntisymmetric | poker-model/src/main/java/pl/edu/agh/kis/pz1/HandEvaluator.java:82-91 | every same-category tie-break changes sign when the hands are swapped |
| HandComparison.SettleDrawReflexive | poker-model/src/main/java/pl/edu/agh/kis/pz1/HandEvaluator.java:82-91 | every tie-break of a hand against itself is 0 |
| HandComparison.CompareHandsReflexive | poker-model/src/main/java/pl/edu/agh/kis/pz1/HandEvaluator.java:72-94 | compareHands(h, h) is 0 |
| HandComparison.CompareHandsAntisymmetric | poker-model/src/main/java/pl/edu/agh/kis/pz1/HandEvaluator.java:72-94 | compareHands(a, b) is the negation of compareHands(b, a) |
| HandComparison.CompareHandsOrderIndependent | poker-model/src/main/java/pl/edu/agh/kis/pz1/HandEvaluator.java:73-75 | compareHands depends only on the multisets of the two hands |
| HandComparison.CompareByTopRank | poker-model/src/main/java/pl/edu/agh/kis/pz1/HandEvaluator.java:202-204 | straight flush, flush, straight and high-card ties compare only the highest rank held |
| HandComparison.CompareFourOfAKind | poker-model/src/main/java/pl/edu/agh/kis/pz1/HandEvaluator.java:206-215 | four-of-a-kind ties are decided by the rank of the four alone |
| HandComparison.CompareFullHouse | poker-model/src/main/java/pl/edu/agh/kis/pz1/HandEvaluator.java:217-227 | full-house ties are decided by the rank of the three alone |
| HandComparison.CompareThreeOfAKind | poker-model/src/main/java/pl/edu/agh/kis/pz1/HandEvaluator.java:229-238 | three-of-a-kind ties are decided by the rank of the three alone |
| HandComparison.ComparePair | poker-model/src/main/java/pl/edu/agh/kis/pz1/HandEvaluator.java:258-270 | pair ties compare the pair's rank, and on equal pairs only the highest kicker |
| HandComparison.CompareTwoPair | poker-model/src/main/java/pl/edu/agh/kis/pz1/HandEvaluator.java:240-256 | two-pair ties compare the higher pair, then the lower pair, then the kicker |
| HandComparison.WheelBeatsTenHighStraightFlush | poker-model/src/test/java/pl/edu/agh/kis/pz1/HandEvaluatorTest.java:614-632 | of the test's two straight flushes the ace-low one compares higher, which the test asserts the other way round |
| HandComparison.FlushesWithEqualTopCardsDraw | poker-model/src/main/java/pl/edu/agh/kis/pz1/HandEvaluator.java:202-204 | two flushes that differ below the top card compare as a draw |
| HandComparison.HighCardsWithEqualTopDraw | poker-model/src/main/java/pl/edu/agh/kis/pz1/HandEvaluator.java:292-301 | two high-card hands with the same top rank compare as a draw |
| Players.Player.constructor | poker-model/src/main/java/pl/edu/agh/kis/pz1/Player.java:13-23 | a new player has credit 1000, no bids, no cards and is not folded |
| Players.Player.WithCredit | poker-model/src/main/java/pl/edu/agh/kis/pz1/Player.java:25-28 | a new player has the given credit, no bids, no cards and is not folded |
| Players.Player.ReceiveCard | poker-model/src/main/java/pl/edu/agh/kis/pz1/Player.java:35-37 | the card is appended at the end of the hand |
| Players.Player.DiscardCard | poker-model/src/main/java/pl/edu/agh/kis/pz1/Player.java:43-45 | the card at the index is removed and later cards shift down; an index outside the hand fails and changes nothing |
| Players.Player.Bid | poker-model/src/main/java/pl/edu/agh/kis/pz1/Player.java:53-60 | a bid above the credit fails and changes nothing; otherwise it moves from the credit into both bid totals, keeping credit plus either total, and a non-negative credit stays non-negative |
| Players.Player.ReceivePrize | poker-model/src/main/java/pl/edu/agh/kis/pz1/Player.java:67-69 | the prize is added to the credit and nothing else changes |
| Players.Player.GetHand | poker-model/src/main/java/pl/edu/agh/kis/pz1/Player.java:71-74 | the stored hand is sorted by rank in place, keeps its cards, and is returned |
| Players.Player.GetHandEvaluation | poker-model/src/main/java/pl/edu/agh/kis/pz1/Player.java:76-79 | the hand is left sorted and its category is that of the hand as it was |
| Players.Player.ClearHand | poker-model/src/main/java/pl/edu/agh/kis/pz1/Player.java:84 | the hand becomes empty |
| Players.Player.SetCurrentBid | poker-model/src/main/java/pl/edu/agh/kis/pz1/Player.java:95-97 | the current bid becomes the given value and nothing else changes |
| Players.Player.SetFolded | poker-model/src/main/java/pl/edu/agh/kis/pz1/Player.java:111-113 | the folded flag becomes the given value and nothing else changes |
| Players.Player.SetBidden | poker-model/src/main/java/pl/edu/agh/kis/pz1/Player.java:119-121 | the bidden flag becomes the given value and nothing else changes |
| Showdown.IndexOf | poker-model/src/main/java/pl/edu/agh/kis/pz1/Game.java:121-127 | the first position holding the id, and -1 exactly when the id is absent |
| Showdown.IndexOfDistinct | poker-model/src/main/java/pl/edu/agh/kis/pz1/Game.java:121-127 | with distinct ids, the lookup of the id at position j gives j back |
| Showdown.FirstBelow | poker-model/src/main/java/pl/edu/agh/kis/pz1/Game.java:141-148 | the insertion scan stops at the first entry of a strictly lower category, or finds none below |
| Showdown.Place | poker-model/src/main/java/pl/edu/agh/kis/pz1/Game.java:135-149 | one pass of the outer loop; `Showdown.PlaceDescending` and `Showdown.PlaceDropsTies` state what it does |
| Showdown.RankingOf | poker-model/src/main/java/pl/edu/agh/kis/pz1/Game.java:132-149 | the first phase ranks only ids taken from the keys, at most one entry per key |
| Showdown.PlaceDescending | poker-model/src/main/java/pl/edu/agh/kis/pz1/Game.java:141-148 | inserting a key keeps the ranking descending by category |
| Showdown.RankingDescending | poker-model/src/main/java/pl/edu/agh/kis/pz1/Game.java:132-149 | the first phase yields a ranking descending by category |
| Showdown.RankingLeads | poker-model/src/main/java/pl/edu/agh/kis/pz1/Game.java:132-149 | the first ranked key holds a category at least as high as every key's |
| Showdown.RankingDistinct | poker-model/src/main/java/pl/edu/agh/kis/pz1/Game.java:132-149 | distinct keys give a ranking without repeats |
| Showdown.PlaceDropsTies | poker-model/src/main/java/pl/edu/agh/kis/pz1/Game.java:141-147 | a key whose category is no higher than every ranked entry is dropped |
| Showdown.TakesLead | poker-model/src/main/java/pl/edu/agh/kis/pz1/Game.java:161-164 | an id takes the lead when the table gives it the leader's category and settleDraw on the hands of the two ids' first seats is at most 0; `Games.RepeatedIdTakesLead` shows it with a repeated id |
| Showdown.PromoteBy | poker-model/src/main/java/pl/edu/agh/kis/pz1/Game.java:156-173 | moving each challenger that takes the lead to the front keeps the ranking's entries |
| Showdown.PromoteKeepsValue | poker-model/src/main/java/pl/edu/agh/kis/pz1/Game.java:156-173 | the leader after the second phase has the same category as the leader before it |
| Showdown.PromoteFrom | poker-model/src/main/java/pl/edu/agh/kis/pz1/Game.java:156-173 | the second phase permutes the ranking, keeps its ids seated and keeps the leader's category |
| Showdown.CreateRankingOf | poker-model/src/main/java/pl/edu/agh/kis/pz1/Game.java:129-176 | the ranking is non-empty and holds only seated ids |
| Showdown.CreateRankingLeads | poker-model/src/main/java/pl/edu/agh/kis/pz1/Game.java:129-176 | the leader of createRanking holds a category at least as high as every key's |
| Showdown.Ties | poker-model/src/main/java/pl/edu/agh/kis/pz1/Game.java:186-190 | the next id ties when the table gives it the same category and settleDraw on the hands of the two ids' first seats is 0 |
| Showdown.ChainFrom | poker-model/src/main/java/pl/edu/agh/kis/pz1/Game.java:184-197 | the chain of ties after position i is no longer than the rest of the ranking |
| Showdown.ChainSlice | poker-model/src/main/java/pl/edu/agh/kis/pz1/Game.java:184-197 | the chain is the contiguous stretch of the ranking right after position i |
| Showdown.ChainLinks | poker-model/src/main/java/pl/edu/agh/kis/pz1/Game.java:184-197 | every consecutive pair inside the chain ties |
| Showdown.ChainStops | poker-model/src/main/java/pl/edu/agh/kis/pz1/Game.java:184-197 | the chain ends at the first consecutive pair that does not tie |
| Showdown.WinnersOf | poker-model/src/main/java/pl/edu/agh/kis/pz1/Game.java:178-200 | the leader followed by its chain of ties; `Showdown.WinnersArePrefix`, `Showdown.WinnersTie` and `Showdown.WinnersStop` state it |
| Showdown.WinnersArePrefix | poker-model/src/main/java/pl/edu/agh/kis/pz1/Game.java:178-200 | the winners are a non-empty prefix of the ranking, starting with the leader |
| Showdown.WinnersTie | poker-model/src/main/java/pl/edu/agh/kis/pz1/Game.java:186-191 | consecutive winners share a category and their tie-break is 0 |
| Showdown.WinnersStop | poker-model/src/main/java/pl/edu/agh/kis/pz1/Game.java:186-196 | the first ranked id after the winners does not tie with the last winner |
| Showdown.WinnersShareCategory | poker-model/src/main/java/pl/edu/agh/kis/pz1/Game.java:178-200 | every winner has the leader's category |
| Showdown.WinnersHoldBestCategory | poker-model/src/main/java/pl/edu/agh/kis/pz1/Game.java:84-87 | every winner of the ranking holds a category at least as high as every key's |
| Showdown.JavaDiv | poker-model/src/main/java/pl/edu/agh/kis/pz1/Game.java:91 | Java's truncating division: the quotient is non-negative when the signs of dividend and divisor agree, and non-positive when they differ |
| Showdown.ShareBounds | poker-model/src/main/java/pl/edu/agh/kis/pz1/Game.java:91 | what the split leaves undistributed is less than one share and has the stake's sign |
| Games.EvaluatedUpTo | poker-model/src/main/java/pl/edu/agh/kis/pz1/Game.java:95-103 | the map holds every id of the seats visited and nothing else |
| Games.EvaluatedUpToLast | poker-model/src/main/java/pl/edu/agh/kis/pz1/Game.java:99-100 | each id maps to the value of the last seat holding it, since a later put replaces an earlier one |
| Games.EvaluatedUpToDistinct | poker-model/src/main/java/pl/edu/agh/kis/pz1/Game.java:95-103 | with distinct ids, each id maps to the evaluation of its own hand |
| Games.ValueMap | poker-model/src/main/java/pl/edu/agh/kis/pz1/Game.java:95-103 | the table of categories has an entry for every seated id and for nothing else |
| Games.ValueMapSeated | poker-model/src/main/java/pl/edu/agh/kis/pz1/Game.java:99-100 | every seated id, repeated or not, has an entry in the table of categories |
| Games.ValueMapDistinct | poker-model/src/main/java/pl/edu/agh/kis/pz1/Game.java:95-103 | with distinct ids, the table maps each id to the category of its seat's hand |
| Games.EvaluatedAsSorted | poker-model/src/main/java/pl/edu/agh/kis/pz1/Game.java:99-100 | the category recorded for a seat is the category of its hand whether sorted or not |
| Games.ShowdownWinnersHoldBestHands | poker-model/src/main/java/pl/edu/agh/kis/pz1/Game.java:84-87 | when the seats have distinct ids, every showdown winner is seated and holds a hand of the highest category among the keys |
| Games.Winners | poker-model/src/main/java/pl/edu/agh/kis/pz1/Game.java:84-87 | the winners of the showdown over the hands evaluateHands leaves, none without keys; `Games.ShowdownWinnersHoldBestHands` states it for distinct ids |
| Games.RepeatedIdTakesLead | poker-model/src/main/java/pl/edu/agh/kis/pz1/Game.java:84-93 | with ids 18, 3, 17, 3 and keys 17, 18, 3, the id 3 takes the lead on its first seat's hand, wins alone, and both its seats are paid |
| Games.Give | poker-model/src/main/java/pl/edu/agh/kis/pz1/Game.java:117-118 | one round gives each seat from k on the next card of the deck, in seat order |
| Games.DealFrom | poker-model/src/main/java/pl/edu/agh/kis/pz1/Game.java:113-119 | the round-robin deal keeps one hand per seat; `Games.DealPositions` gives its closed form |
| Games.DealPositions | poker-model/src/main/java/pl/edu/agh/kis/pz1/Game.java:113-119 | dealing succeeds exactly when the deck holds at least 5N cards; seat j then receives deck positions j, j+N, …, j+4N; otherwise it fails with an empty deck |
| Games.DealCompletes | poker-model/src/main/java/pl/edu/agh/kis/pz1/Game.java:113-119 | with at least 5N cards the deal ends with the deck less its first 5N cards |
| Games.DealFails | poker-model/src/main/java/pl/edu/agh/kis/pz1/Game.java:113-119 | with fewer than 5N cards the deal fails having used the whole deck |
| Games.SortInts | poker-model/src/main/java/pl/edu/agh/kis/pz1/Game.java:53 | sorting the indices yields an ascending permutation of them |
| Games.DiscardsFrom | poker-model/src/main/java/pl/edu/agh/kis/pz1/Game.java:55-60 | the discard loop; `Games.DiscardsKeepTheRest`, `Games.DiscardsFromLength` and `Games.RepeatedIndexTakesNeighbour` state it |
| Games.DiscardsKeepTheRest | poker-model/src/main/java/pl/edu/agh/kis/pz1/Game.java:55-60 | removing each sorted distinct index less the number removed so far takes out exactly the cards at those positions and keeps the rest in order |
| Games.DiscardsFromLength | poker-model/src/main/java/pl/edu/agh/kis/pz1/Game.java:55-60 | a discard loop that succeeds removes exactly one card per index, whatever the indices |
| Games.RepeatedIndexTakesNeighbour | poker-model/src/main/java/pl/edu/agh/kis/pz1/Game.java:55-60 | a repeated index removes the card at that position and the one after it |
| Games.AntesProduct | poker-model/src/main/java/pl/edu/agh/kis/pz1/Game.java:105-111 | k antes of a add k * a to the stake |
| Games.FirstShort | poker-model/src/main/java/pl/edu/agh/kis/pz1/Game.java:105-111 | the first seat from k on whose credit is below the ante; `Games.FirstShortStops` states it |
| Games.FirstShortStops | poker-model/src/main/java/pl/edu/agh/kis/pz1/Game.java:105-111 | the ante stops at the first seat whose credit is below the ante; every seat before it can pay |
| Games.Prizes | poker-model/src/main/java/pl/edu/agh/kis/pz1/Game.java:89-91 | one credit per seat, each grown by the share when the seat's id is a winner |
| Games.PayAll | poker-model/src/main/java/pl/edu/agh/kis/pz1/Game.java:89-91 | each seat whose id is among the winners gains the share and no hand changes |
| Games.CreditsPaid | poker-model/src/main/java/pl/edu/agh/kis/pz1/Game.java:89-91 | the credits after the prize loop are the old credits plus the share on winning seats |
| Games.SortEach | poker-model/src/main/java/pl/edu/agh/kis/pz1/Game.java:99-100 | every seat's hand is sorted by rank in place |
| Games.PlaceKey | poker-model/src/main/java/pl/edu/agh/kis/pz1/Game.java:141-148 | the inner insertion loop of createRanking puts the key before the first entry of a strictly lower category, or nowhere |
| Games.EvaluateEach | poker-model/src/main/java/pl/edu/agh/kis/pz1/Game.java:99-100 | the loop of evaluateHands records for each id, seat by seat, the evaluation of that seat's hand, a later seat overwriting an earlier one with the same id |
| Games.DealInto | poker-model/src/main/java/pl/edu/agh/kis/pz1/Game.java:62-63 | the player receives the first n cards of the deck, or the whole deck and an empty-deck failure when it holds fewer |
| Games.RankKeys | poker-model/src/main/java/pl/edu/agh/kis/pz1/Game.java:135-149 | the first loop of createRanking computes the first-phase ranking |
| Games.ChainWinners | poker-model/src/main/java/pl/edu/agh/kis/pz1/Game.java:181-199 | the loop of createWinnersList computes the leader followed by its chain of ties |
| Games.PromoteLoop | poker-model/src/main/java/pl/edu/agh/kis/pz1/Game.java:156-173 | the second loop of createRanking computes the promoted ranking |
| Games.Game.constructor | poker-model/src/main/java/pl/edu/agh/kis/pz1/Game.java:18-20 | a new table has no seats, the default ante 5, an empty stake and a full canonical deck |
| Games.Game.WithAnte | poker-model/src/main/java/pl/edu/agh/kis/pz1/Game.java:22-25 | a new table has no seats, the given ante, an empty stake and a full canonical deck |
| Games.Game.NewPlayer | poker-model/src/main/java/pl/edu/agh/kis/pz1/Game.java:27-36 | a full table refuses and changes nothing; otherwise one new player is appended with credit 1000, no cards, bids 0, not folded and not bidden |
| Games.Game.PlayerIndexFromId | poker-model/src/main/java/pl/edu/agh/kis/pz1/Game.java:121-127 | the first seat with the id, or -1 when no seat has it |
| Games.Game.TakeAnte | poker-model/src/main/java/pl/edu/agh/kis/pz1/Game.java:105-111 | seats are charged in order up to the first that cannot pay; the stake grows by one ante per paying seat; success exactly when every seat pays |
| Games.Game.ChargeFrom | poker-model/src/main/java/pl/edu/agh/kis/pz1/Game.java:106-110 | the ante loop from seat k on charges the seats up to the first short one |
| Games.Game.ChargeSeat | poker-model/src/main/java/pl/edu/agh/kis/pz1/Game.java:107-109 | one seat pays the ante into the stake and its game bid becomes the ante, or it cannot pay and nothing changes |
| Games.Game.DealCards | poker-model/src/main/java/pl/edu/agh/kis/pz1/Game.java:113-119 | the hands and the deck become those of the round-robin deal; no card is lost or made |
| Games.Game.NewGame | poker-model/src/main/java/pl/edu/agh/kis/pz1/Game.java:38-46 | too few players fails and changes nothing; otherwise the ante, then, if everyone paid, a new unshuffled deck and the deal |
| Games.Game.ResetAndDeal | poker-model/src/main/java/pl/edu/agh/kis/pz1/Game.java:44-45 | a new canonical deck is dealt round-robin; no money changes |
| Games.Game.Draw | poker-model/src/main/java/pl/edu/agh/kis/pz1/Game.java:48-64 | more than four indices or an unknown id fail unchanged; otherwise the sorted indices are discarded with shifting and as many cards are drawn from the top of the deck, stopping at the first failure; on success the hand keeps its size |
| Games.Game.DiscardAll | poker-model/src/main/java/pl/edu/agh/kis/pz1/Game.java:55-60 | the discard loop removes each sorted index less the number of cards already removed, stopping at the first bad index |
| Games.Game.Refill | poker-model/src/main/java/pl/edu/agh/kis/pz1/Game.java:62-63 | the player receives the next cards from the top of the deck, or the whole deck and a failure when it runs out |
| Games.Game.EndNegotiation | poker-model/src/main/java/pl/edu/agh/kis/pz1/Game.java:66-68 | the negotiation stake becomes 0 |
| Games.Game.Bid | poker-model/src/main/java/pl/edu/agh/kis/pz1/Game.java:70-76 | an unknown id or a bid above the credit fails unchanged; otherwise the player pays and both bid maps record the bid |
| Games.Game.SeatBid | poker-model/src/main/java/pl/edu/agh/kis/pz1/Game.java:71-75 | the seat's Player.bid, then on success the bid in both bid maps |
| Games.Game.RecordBid | poker-model/src/main/java/pl/edu/agh/kis/pz1/Game.java:74-75 | both bid maps map the player to the bid |
| Games.Game.Fold | poker-model/src/main/java/pl/edu/agh/kis/pz1/Game.java:78-82 | an unknown id fails; otherwise the player's folded flag becomes true, which is idempotent |
| Games.Game.EvaluateHands | poker-model/src/main/java/pl/edu/agh/kis/pz1/Game.java:95-103 | every hand is left sorted and the table maps each id to its hand's category |
| Games.Game.SortHands | poker-model/src/main/java/pl/edu/agh/kis/pz1/Game.java:99-100 | every seat's hand is replaced by its sort by rank, as getHand does |
| Games.Game.CreateRanking | poker-model/src/main/java/pl/edu/agh/kis/pz1/Game.java:129-176 | no keys fails; otherwise the result is the two-phase ranking |
| Games.Game.PromoteLeaders | poker-model/src/main/java/pl/edu/agh/kis/pz1/Game.java:151-173 | the second phase of createRanking |
| Games.Game.CreateWinnersList | poker-model/src/main/java/pl/edu/agh/kis/pz1/Game.java:178-200 | the leader, then each next ranked id while it ties with the previous one |
| Games.Game.SplitStakeBetweenWinners | poker-model/src/main/java/pl/edu/agh/kis/pz1/Game.java:84-93 | every hand is left sorted; with seats, each seat whose id is among the winners gains the stake divided by the number of winners, truncated, and the stake is not reset; with a repeated id the table records the later seat's category and the tie-breaks read the first seat's hand |
| Games.Game.ShareStake | poker-model/src/main/java/pl/edu/agh/kis/pz1/Game.java:86-91 | over the table evaluateHands built, no keys fails with the credits unchanged; otherwise each seat whose id is among the winners gains the truncated share |
| Games.Game.ShareShowdown | poker-model/src/main/java/pl/edu/agh/kis/pz1/Game.java:86-91 | ranking, winners and prizes over a table of categories, no hand changes |
| Games.Game.PayWinners | poker-model/src/main/java/pl/edu/agh/kis/pz1/Game.java:89-91 | the credits become the old credits plus the share on winning seats |
| Messages.Code | poker-common/src/main/java/pl/edu/agh/kis/pz1/MessageParser.java:71-84 | every action has a three-letter code without the separator |
| Messages.ActionOf | poker-common/src/main/java/pl/edu/agh/kis/pz1/MessageParser.java:99-114 | decoding inverts the code table, and every unknown code decodes to DENY |
| Messages.Join | poker-common/src/main/java/pl/edu/agh/kis/pz1/MessageParser.java:125-139 | the fields joined by '/'; `Messages.PiecesOfJoin` splits it back |
| Messages.Pieces | poker-common/src/main/java/pl/edu/agh/kis/pz1/MessageParser.java:53 | the separator-delimited pieces of a string; `Messages.JavaSplit` and `Messages.SplitJoin` state it |
| Messages.PiecesOfJoin | poker-common/src/main/java/pl/edu/agh/kis/pz1/MessageParser.java:125-139 | splitting a joined message gives back the fields, the last one split further at its own separators |
| Messages.DropTrailingEmpty | poker-common/src/main/java/pl/edu/agh/kis/pz1/MessageParser.java:53 | String.split drops trailing empty strings only |
| Messages.JavaSplit | poker-common/src/main/java/pl/edu/agh/kis/pz1/MessageParser.java:53 | the pieces hold no separator; a string without one gives itself; otherwise the pieces are the separator-delimited ones less trailing empties |
| Messages.SplitJoin | poker-common/src/main/java/pl/edu/agh/kis/pz1/MessageParser.java:53 | splitting the join of separator-free fields whose last is non-empty gives the fields back |
| Messages.NatToString | poker-common/src/main/java/pl/edu/agh/kis/pz1/MessageParser.java:68-69 | the decimal digits of n, without leading zeros, read back as n |
| Messages.IntToString | poker-common/src/main/java/pl/edu/agh/kis/pz1/MessageParser.java:68-69 | String.valueOf is non-empty, holds no separator and starts with '-' exactly for negatives |
| Messages.ParseInt | poker-common/src/main/java/pl/edu/agh/kis/pz1/MessageParser.java:91-97 | Integer.parseInt succeeds exactly on an optional sign and a decimal numeral whose value fits in 32 bits, and then returns that value, negated after '-' |
| Messages.ParseIntToString | poker-common/src/main/java/pl/edu/agh/kis/pz1/MessageParser.java:91-97 | Integer.parseInt inverts String.valueOf on every 32-bit int |
| Messages.MessageParser.constructor | poker-common/src/main/java/pl/edu/agh/kis/pz1/MessageParser.java:33-35 | a new parser has no fields |
| Messages.MessageParser.FromMessage | poker-common/src/main/java/pl/edu/agh/kis/pz1/MessageParser.java:42-44 | a parser built from a message holds its split fields |
| Messages.MessageParser.Parse | poker-common/src/main/java/pl/edu/agh/kis/pz1/MessageParser.java:51-54 | the fields become the split message, replacing the earlier ones |
| Messages.MessageParser.Compose | poker-common/src/main/java/pl/edu/agh/kis/pz1/MessageParser.java:65-89 | the fields become the two ids, the action code and the parameters, replacing the earlier ones, and the message is their join |
| Messages.MessageParser.GameId | poker-common/src/main/java/pl/edu/agh/kis/pz1/MessageParser.java:91-93 | fails with an index error exactly when there is no field 0 |
| Messages.MessageParser.PlayerId | poker-common/src/main/java/pl/edu/agh/kis/pz1/MessageParser.java:95-97 | fails with an index error exactly when there is no field 1 |
| Messages.MessageParser.ActionType | poker-common/src/main/java/pl/edu/agh/kis/pz1/MessageParser.java:99-114 | fails exactly when there is no field 2; otherwise decodes field 2 |
| Messages.MessageParser.ActionParameters | poker-common/src/main/java/pl/edu/agh/kis/pz1/MessageParser.java:116-123 | field 3, or "" when there are fewer than four fields |
| Messages.MessageParser.GetMessage | poker-common/src/main/java/pl/edu/agh/kis/pz1/MessageParser.java:125-139 | the fields joined by '/' with no trailing separator |
| Messages.ComposedFields | poker-common/src/main/java/pl/edu/agh/kis/pz1/MessageParser.java:65-123 | after composing, the getters return the ids, the action and the parameters |
| Messages.ParseComposed | poker-common/src/main/java/pl/edu/agh/kis/pz1/MessageParser.java:51-123 | parsing a composed message gives back both ids and the action, and as parameters the text before their first '/', which is all of it (including "") when they hold no '/' |

## Left out

- The server, the client, sockets, threads, console input and printing:
  they are I/O plumbing with no game rules. `Main.java` only prints a deck.
- The randomness of `Collections.shuffle` becomes the parameter `choices` of
  `Decks.Deck.Shuffle`. The model states that some permutation results, not
  which one or with what probability.
- The iteration order of a `HashMap` key set is the parameter `keys` of the
  showdown members. Their contracts hold for every order.
- `HashMap` keys are compared by object identity. The model keys `Game`'s maps
  by player objects and keeps those objects distinct. `hashCode` and
  `toString` of `Card`, `Player` and `HandValues`, and the display strings of
  `HandValues`, are not modelled.
- `createRanking` and `createWinnersList` read the hands through `getHand`,
  which sorts them again. The model reads the hands as `evaluateHands` left
  them, already sorted, where that sort changes nothing
  (`Sorting.SortOfSorted`).
- `Games.Game.EvaluateHands` sorts every hand first and then evaluates.
  The source sorts each hand just before evaluating it. The resulting state is
  the same.
- `Games.Game.TakeAnte`: the seat loop is the recursive method `ChargeFrom`,
  not a `for` over the seats.
- `Games.Game.Draw` sorts a copy of the indices. The source also sorts the
  caller's list in place, and that effect on the caller is not modelled.
- `Games.Game.Bid`: its contract speaks of credit and bids, and leaves the
  players' hands and flags to the `modifies` frame.
- `HandEvaluator.HandValueOf`, `HandEvaluator.Evaluate`,
  `HandEvaluator.CompareHands`, `HandEvaluator.CompareHandsOf`, `Players.Player.GetHandEvaluation`,
  `Games.Game.EvaluateHands` and `Games.Game.SplitStakeBetweenWinners` require
  five-card hands, so hands of other sizes are not modelled. The Java detectors
  loop up to `hand.size()` and classify longer hands without error. Only the
  straight detector fails: `hand.get(0)` on an empty hand
  (`HandEvaluator.java:153`) and `hand.get(1)` on a one-card hand whose card
  is an ace (`HandEvaluator.java:158`). Longer hands are reachable, because
  `newGame` deals onto the hands of an earlier game (`Games.Game.NewGame`
  models that). `Games.Category` gives `HighCard` for other sizes without
  claiming the source does.
- `Games.ShowdownWinnersHoldBestHands` needs distinct ids. `newPlayer` seats a
  repeated id. Then `evaluateHands` records the later seat's category, while
  `createRanking` and `createWinnersList` read the first seat's hand, and the
  prize loop pays every seat whose id is among the winners.
  `Games.RepeatedIdTakesLead` shows such a showdown. Which hand wins is proved
  only for distinct ids.
- `Showdown.TakesLead` and `Showdown.Ties` are false when the first seat of an
  id holds a hand of another category than the one the table records for it,
  which a repeated id allows. Java then calls `settleDraw` with that
  category. No class of the repository defines `settleDraw`, and the
  `compareHands` tie-breaks would read position -1
  (`HandEvaluator.java:211`, `281`), so the outcome is not modelled.
- `Showdown.PromoteFrom`: the promotion in that case is not modelled (see
  `Showdown.TakesLead`).
- `Showdown.CreateRankingOf`: the same case as `Showdown.PromoteFrom`.
- `Games.Game.CreateRanking`: the same case as `Showdown.PromoteFrom`.
- `Games.Game.PromoteLeaders`: the same case as `Showdown.PromoteFrom`.
- `Games.Game.CreateWinnersList`: the ties in that case are not modelled (see
  `Showdown.Ties`).
- `Games.Game.ShareStake`: the winners in that case are not modelled (see
  `Showdown.TakesLead`).
- `Games.Game.ShareShowdown`: the same case as `Games.Game.ShareStake`.
- `Games.Game.SplitStakeBetweenWinners`: the same case as
  `Games.Game.ShareStake`.
- `HandEvaluator.SettleDraw` stands for `settleDraw`, which `Game.java` calls
  but no class of the repository defines. It is modelled as the same-category
  dispatch of `compareHands`. The pair and two-pair tie-breaks of that
  dispatch remove cards only from copies of the hands
  (`HandEvaluator.java:244-245`, `262-263`), so it changes no hand. What a
  `settleDraw` defined elsewhere would do is not part of this model.
- `Messages.ParseInt` accepts ASCII digits only. `Integer.parseInt` also
  accepts digits of other Unicode scripts.
- Integer overflow: ids, credits, bids and the stake are unbounded integers,
  except the ids inside messages, which are 32-bit.
- `MessageParser.toString` returns `getMessage` and is covered by
  `Messages.MessageParser.GetMessage`.
- The plain field accessors of `Player`, `Deck` and `Card` read fields that
  the model exposes directly.
- The exception classes become the error variants of `Outcomes.PokerError`
  and `Messages.Failure`.
