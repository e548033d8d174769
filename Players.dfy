/** Player.java: a seat's hand, bids and credit. */
module Players {
  import opened Cards
  import opened Comparators
  import opened Sorting
  import opened HandEvaluator
  import opened Outcomes

  /** The credit a player starts with when none is given. */
  const DefaultCredit := 1000

  class Player {
    var hand: seq<Card>
    const id: int
    var currentBid: int
    var allGameBid: int
    var folded: bool
    var bidden: bool
    var credit: int

    /** Player(id): default credit, no bids, no cards, not folded. */
    constructor(id: int)
      ensures this.id == id && credit == DefaultCredit
      ensures hand == [] && currentBid == 0 && allGameBid == 0 && !folded && !bidden
    {
      this.id := id;
      credit := DefaultCredit;
      hand := [];
      currentBid := 0;
      allGameBid := 0;
      folded := false;
      bidden := false;
    }

    /** Player(id, credit). */
    constructor WithCredit(id: int, credit: int)
      ensures this.id == id && this.credit == credit
      ensures hand == [] && currentBid == 0 && allGameBid == 0 && !folded && !bidden
    {
      this.id := id;
      this.credit := credit;
      hand := [];
      currentBid := 0;
      allGameBid := 0;
      folded := false;
      bidden := false;
    }

    /** receiveCard: appends the card at the end of the hand. */
    method ReceiveCard(card: Card)
      modifies this`hand
      ensures hand == old(hand) + [card]
    {
      hand := hand + [card];
    }

    /** discardCard: removes the card at `index` and shifts later cards down;
        ArrayList.remove fails for a position outside the hand. */
    method DiscardCard(index: int) returns (o: Outcome)
      modifies this`hand
      ensures 0 <= index < |old(hand)| ==>
                o == Ok && hand == old(hand)[..index] + old(hand)[index + 1..]
      ensures !(0 <= index < |old(hand)|) ==> o == Err(IndexOutOfBounds) && hand == old(hand)
    {
      if 0 <= index < |hand| {
        hand := hand[..index] + hand[index + 1..];
        o := Ok;
      } else {
        o := Err(IndexOutOfBounds);
      }
    }

    /** bid: rejects a bid above the credit and changes nothing; otherwise
        moves the bid from the credit into both bid totals. */
    method Bid(bidValue: int) returns (o: Outcome)
      modifies this`credit, this`allGameBid, this`currentBid
      ensures bidValue > old(credit) ==>
                o == Err(NotEnoughCredit) && credit == old(credit)
                && allGameBid == old(allGameBid) && currentBid == old(currentBid)
      ensures bidValue <= old(credit) ==>
                o == Ok && credit == old(credit) - bidValue
                && allGameBid == old(allGameBid) + bidValue
                && currentBid == old(currentBid) + bidValue
      ensures credit + allGameBid == old(credit + allGameBid)
      ensures credit + currentBid == old(credit + currentBid)
      ensures old(credit) >= 0 && bidValue >= 0 ==> credit >= 0
    {
      if bidValue > credit {
        return Err(NotEnoughCredit);
      }
      credit := credit - bidValue;
      allGameBid := allGameBid + bidValue;
      currentBid := currentBid + bidValue;
      o := Ok;
    }

    /** receivePrize: adds the prize to the credit. */
    method ReceivePrize(prizeValue: int)
      modifies this`credit
      ensures credit == old(credit) + prizeValue
    {
      credit := credit + prizeValue;
    }

    /** getHand: sorts the stored hand by rank in place and returns it. */
    method GetHand() returns (h: seq<Card>)
      modifies this`hand
      ensures hand == Sort(RankComparator, old(hand))
      ensures multiset(hand) == multiset(old(hand))
      ensures h == hand
    {
      hand := Sort(RankComparator, hand);
      h := hand;
    }

    /** getHandEvaluation: the value of the hand, which is left sorted. */
    method GetHandEvaluation() returns (v: HandValue)
      requires |hand| == HandSize
      modifies this`hand
      ensures hand == Sort(RankComparator, old(hand))
      ensures v == HandValueOf(old(hand))
    {
      var h := GetHand();
      SortSorted(RankComparator, old(hand));
      SortOfSorted(RankComparator, h);
      v := HandValueOf(h);
    }

    /** clearHand: empties the hand. */
    method ClearHand()
      modifies this`hand
      ensures hand == []
    {
      hand := [];
    }

    method SetCurrentBid(currentBid: int)
      modifies this`currentBid
      ensures this.currentBid == currentBid
    {
      this.currentBid := currentBid;
    }

    method SetFolded(folded: bool)
      modifies this`folded
      ensures this.folded == folded
    {
      this.folded := folded;
    }

    method SetBidden(bidden: bool)
      modifies this`bidden
      ensures this.bidden == bidden
    {
      this.bidden := bidden;
    }
  }
}
