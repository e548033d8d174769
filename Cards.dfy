/** Playing cards: ranks, suits, card equality and the canonical 52-card deck
    (poker-model Card.java). */
module Cards {

  /** A rank is the ordinal of the Rank enum: DEUCE is 0, ..., ACE is 12. */
  type Rank = r: int | 0 <= r < 13

  const Deuce: Rank := 0
  const Three: Rank := 1
  const Four: Rank := 2
  const Five: Rank := 3
  const Six: Rank := 4
  const Seven: Rank := 5
  const Eight: Rank := 6
  const Nine: Rank := 7
  const Ten: Rank := 8
  const Jack: Rank := 9
  const Queen: Rank := 10
  const King: Rank := 11
  const Ace: Rank := 12

  /** A suit is the ordinal of the Suit enum: CLUBS < DIAMONDS < HEARTS < SPADES. */
  type Suit = s: int | 0 <= s < 4

  const Clubs: Suit := 0
  const Diamonds: Suit := 1
  const Hearts: Suit := 2
  const Spades: Suit := 3

  const NumRanks := 13
  const NumSuits := 4
  const DeckSize := 52

  /** An immutable card; `rank` and `suit` are the values given at construction. */
  datatype Card = Card(rank: Rank, suit: Suit)

  /** Card.equals: two cards are equal when rank and suit are both equal. */
  function Equals(a: Card, b: Card): (r: bool)
    ensures r <==> a == b
  {
    a.rank == b.rank && a.suit == b.suit
  }

  /** The card at position `i` of the canonical deck: suit-major, rank-minor. */
  function CanonicalCard(i: int): (c: Card)
    requires 0 <= i < DeckSize
    ensures c.suit * NumRanks + c.rank == i
  {
    Card(i % NumRanks, i / NumRanks)
  }

  /** Card.newDeck: a copy of the prototype deck. Sequences are values, so a
      later call can never observe changes made to an earlier result. */
  function NewDeck(): (deck: seq<Card>)
    ensures |deck| == DeckSize
    ensures forall i :: 0 <= i < DeckSize ==> deck[i].suit * NumRanks + deck[i].rank == i
  {
    seq(DeckSize, i requires 0 <= i < DeckSize => CanonicalCard(i))
  }

  /** The card at index suit * 13 + rank of the new deck has exactly that suit and rank. */
  lemma NewDeckAt(s: Suit, r: Rank)
    ensures s * NumRanks + r < DeckSize
    ensures NewDeck()[s * NumRanks + r] == Card(r, s)
  {
    var i := s * NumRanks + r;
    var c := NewDeck()[i];
    assert c.suit * NumRanks + c.rank == i;
  }

  /** No card occurs twice in the new deck. */
  lemma NewDeckDistinct(i: int, j: int)
    requires 0 <= i < DeckSize && 0 <= j < DeckSize && i != j
    ensures NewDeck()[i] != NewDeck()[j]
  {
    var d := NewDeck();
    assert d[i].suit * NumRanks + d[i].rank == i;
    assert d[j].suit * NumRanks + d[j].rank == j;
  }

  /** The static initializer: for every suit, for every rank, append the card. */
  method BuildProtoDeck() returns (protoDeck: seq<Card>)
    ensures protoDeck == NewDeck()
  {
    protoDeck := [];
    for suit := 0 to NumSuits
      invariant |protoDeck| == suit * NumRanks
      invariant forall i :: 0 <= i < |protoDeck| ==> protoDeck[i] == NewDeck()[i]
    {
      for rank := 0 to NumRanks
        invariant |protoDeck| == suit * NumRanks + rank
        invariant forall i :: 0 <= i < |protoDeck| ==> protoDeck[i] == NewDeck()[i]
      {
        NewDeckAt(suit, rank);
        protoDeck := protoDeck + [Card(rank, suit)];
      }
    }
  }
}
