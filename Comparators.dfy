/** The three card comparators (CardRankComparator.java, CardSuitComparator.java,
    CardComparator.java). Java's Enum.compareTo returns the difference of the
    ordinals, and so do these functions. */
module Comparators {
  import opened Cards

  /** CardRankComparator.compare: rank descending, then suit ascending. */
  function CompareByRank(a: Card, b: Card): (r: int)
    ensures a.rank > b.rank ==> r < 0
    ensures a.rank < b.rank ==> r > 0
    ensures a.rank == b.rank ==> r == a.suit - b.suit
    ensures r == 0 <==> a == b
  {
    if a.rank - b.rank != 0 then -(a.rank - b.rank) else a.suit - b.suit
  }

  /** CardSuitComparator.compare: suit ascending, then rank descending. */
  function CompareBySuit(a: Card, b: Card): (r: int)
    ensures a.suit < b.suit ==> r < 0
    ensures a.suit > b.suit ==> r > 0
    ensures a.suit == b.suit ==> r == b.rank - a.rank
    ensures r == 0 <==> a == b
  {
    if a.suit - b.suit != 0 then a.suit - b.suit else -(a.rank - b.rank)
  }

  /** CardComparator.compare: suit ascending, then rank ascending. */
  function CompareCanonical(a: Card, b: Card): (r: int)
    ensures a.suit < b.suit ==> r < 0
    ensures a.suit > b.suit ==> r > 0
    ensures a.suit == b.suit ==> r == a.rank - b.rank
    ensures r == 0 <==> a == b
  {
    if a.suit - b.suit != 0 then a.suit - b.suit else a.rank - b.rank
  }

  /** Which of the three comparators a sort uses. */
  datatype Comparator = RankComparator | SuitComparator | CanonicalComparator

  function Compare(c: Comparator, a: Card, b: Card): int
  {
    match c
    case RankComparator => CompareByRank(a, b)
    case SuitComparator => CompareBySuit(a, b)
    case CanonicalComparator => CompareCanonical(a, b)
  }

  /** Every comparator returns 0 exactly for equal cards. */
  lemma CompareZeroIffEqual(c: Comparator, a: Card, b: Card)
    ensures Compare(c, a, b) == 0 <==> a == b
  {
  }

  /** Antisymmetry: swapping the arguments negates the result. */
  lemma CompareAntisymmetric(c: Comparator, a: Card, b: Card)
    ensures Compare(c, a, b) == -Compare(c, b, a)
  {
  }

  /** Transitivity of the order each comparator induces. */
  lemma CompareTransitive(c: Comparator, a: Card, b: Card, d: Card)
    requires Compare(c, a, b) <= 0 && Compare(c, b, d) <= 0
    ensures Compare(c, a, d) <= 0
  {
  }

  /** Totality: of any two cards, one sorts no later than the other. */
  lemma CompareTotal(c: Comparator, a: Card, b: Card)
    ensures Compare(c, a, b) <= 0 || Compare(c, b, a) <= 0
  {
  }

  /** The canonical deck is in strictly increasing CardComparator order. */
  lemma NewDeckSortedCanonically(i: int, j: int)
    requires 0 <= i < j < DeckSize
    ensures CompareCanonical(NewDeck()[i], NewDeck()[j]) < 0
  {
    var d := NewDeck();
    assert d[i].suit * NumRanks + d[i].rank == i;
    assert d[j].suit * NumRanks + d[j].rank == j;
  }
}
