/** Deck.java: the list of cards still to be dealt. */
module Decks {
  import opened Cards
  import opened Outcomes

  /** Each card of the canonical deck occurs in it exactly once. */
  lemma NewDeckOnce(c: Card)
    ensures multiset(NewDeck())[c] == 1
  {
    var d := NewDeck();
    NewDeckAt(c.suit, c.rank);
    var i := c.suit * NumRanks + c.rank;
    forall j | 0 <= j < |d| && j != i ensures d[j] != c {
      NewDeckDistinct(i, j);
    }
    assert d == d[..i] + [c] + d[i + 1..];
    NotInCount(d[..i], c);
    NotInCount(d[i + 1..], c);
  }

  lemma NotInCount(s: seq<Card>, c: Card)
    requires forall j :: 0 <= j < |s| ==> s[j] != c
    ensures multiset(s)[c] == 0
  {
  }

  /** Two splits of the same sequence hold the same cards. */
  lemma SameCards(a: seq<Card>, b: seq<Card>, c: seq<Card>, e: seq<Card>)
    requires a + b == c + e
    ensures multiset(a) + multiset(b) == multiset(c) + multiset(e)
  {
    assert multiset(a + b) == multiset(a) + multiset(b);
    assert multiset(c + e) == multiset(c) + multiset(e);
  }

  class Deck {
    /** The field `deck`: the cards still to be dealt, top first. */
    var cards: seq<Card>
    /** The cards dealt since the last reset, in the order they were dealt. */
    ghost var dealt: seq<Card>

    /** Every card of the canonical deck is either dealt or still in the deck. */
    ghost predicate Complete()
      reads this
    {
      multiset(dealt) + multiset(cards) == multiset(NewDeck())
    }

    /** Deck(): starts as a sorted new deck. */
    constructor()
      ensures cards == NewDeck() && dealt == []
      ensures Complete()
    {
      cards := NewDeck();
      dealt := [];
    }

    /** newDeck: replaces the cards by a sorted new deck. */
    method Reset()
      modifies this
      ensures cards == NewDeck() && dealt == []
      ensures Complete()
    {
      cards := NewDeck();
      dealt := [];
    }

    /** shuffle: Collections.shuffle swaps position i - 1 with a random
        position below i, for i from the size down to 2. The random choices
        are the parameter `choices`, each reduced below its bound; a missing
        choice counts as 0. */
    method Shuffle(choices: seq<nat>)
      modifies this`cards
      ensures multiset(cards) == multiset(old(cards))
      ensures |cards| == |old(cards)|
      ensures Complete() <==> old(Complete())
    {
      var i := |cards|;
      var k := 0;
      while i > 1
        invariant i <= |cards|
        invariant |cards| == |old(cards)|
        invariant multiset(cards) == multiset(old(cards))
        decreases i
      {
        var j := if k < |choices| then choices[k] % i else 0;
        var a, b := cards[i - 1], cards[j];
        cards := cards[i - 1 := b][j := a];
        i := i - 1;
        k := k + 1;
      }
    }

    /** dealCard: removes and returns the top card; remove(0) fails on an empty list. */
    method DealCard() returns (c: Option<Card>)
      modifies this
      ensures old(cards) == [] ==> c == None && cards == old(cards) && dealt == old(dealt)
      ensures old(cards) != [] ==> c == Some(old(cards)[0]) && cards == old(cards)[1..]
                                   && dealt == old(dealt) + [old(cards)[0]]
      ensures dealt + cards == old(dealt + cards)
      ensures Complete() <==> old(Complete())
    {
      if cards == [] {
        c := None;
      } else {
        c := Some(cards[0]);
        assert cards == [cards[0]] + cards[1..];
        assert dealt + cards == (dealt + [cards[0]]) + cards[1..];
        dealt := dealt + [cards[0]];
        cards := cards[1..];
      }
    }

    /** No card is ever both dealt and in the deck, or dealt twice. */
    lemma NoCardTwice(c: Card)
      requires Complete()
      ensures multiset(dealt)[c] + multiset(cards)[c] == 1
    {
      NewDeckOnce(c);
    }
  }
}
