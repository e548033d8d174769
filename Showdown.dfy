/** The showdown of Game.java as functions of the seats' ids, hands and
    values: createRanking's two phases, createWinnersList and the integer
    share of the stake. The Game class's loops are proved equal to these. */
module Showdown {
  import opened Cards
  import opened HandEvaluator

  /** The first position of `x` in `s` from `i` on, or -1: the loop of playerIndexFromId. */
  function IndexFrom(s: seq<int>, x: int, i: nat): (r: int)
    ensures r == -1 <==> i >= |s| || x !in s[i..]
    ensures r != -1 ==> i <= r < |s| && s[r] == x && forall k :: i <= k < r ==> s[k] != x
    decreases |s| - i
  {
    if i >= |s| then -1
    else if s[i] == x then i
    else IndexFrom(s, x, i + 1)
  }

  /** The first position of `x` in `s`, or -1 when `x` does not occur. */
  function IndexOf(s: seq<int>, x: int): (r: int)
    ensures r == -1 <==> x !in s
    ensures r != -1 ==> 0 <= r < |s| && s[r] == x && x !in s[..r]
  {
    assert s[0..] == s;
    IndexFrom(s, x, 0)
  }

  predicate Distinct(s: seq<int>)
  {
    forall i, j :: 0 <= i < j < |s| ==> s[i] != s[j]
  }

  /** With distinct ids, the first position of an id is its only position. */
  lemma IndexOfDistinct(s: seq<int>, j: int)
    requires Distinct(s) && 0 <= j < |s|
    ensures IndexOf(s, s[j]) == j
  {
  }

  /** Every entry of `s` is a key of `values`. */
  predicate AllIn(values: map<int, HandValue>, s: seq<int>)
  {
    forall k :: 0 <= k < |s| ==> s[k] in values
  }

  /** What the showdown reads about the seats: distinct ids, a five-card hand
      per seat, and for each id the category of its hand as it now stands. */
  predicate Table(ids: seq<int>, hands: seq<seq<Card>>, values: map<int, HandValue>)
  {
    |ids| == |hands| && Distinct(ids)
    && (forall j :: 0 <= j < |ids| ==> ids[j] in values && |hands[j]| == HandSize)
    && forall j {:trigger Classify(hands[j])} :: 0 <= j < |ids| ==> Classify(hands[j]) == values[ids[j]]
  }

  /** players.get(playerIndexFromId(id)).getHand() for a seated id. */
  function HandOf(ids: seq<int>, hands: seq<seq<Card>>, id: int): seq<Card>
    requires |ids| == |hands| && id in ids
  {
    hands[IndexOf(ids, id)]
  }

  /** What settleDraw needs to read an id's hand: the id is seated, its first
      seat holds five cards, and those cards have the category the table
      records for the id. */
  predicate Readable(ids: seq<int>, hands: seq<seq<Card>>, values: map<int, HandValue>, id: int)
  {
    |ids| == |hands| && id in ids && id in values
    && |HandOf(ids, hands, id)| == HandSize && Classify(HandOf(ids, hands, id)) == values[id]
  }

  lemma HandOfTable(ids: seq<int>, hands: seq<seq<Card>>, values: map<int, HandValue>, id: int)
    requires Table(ids, hands, values) && id in ids
    ensures id in values && |HandOf(ids, hands, id)| == HandSize
    ensures Classify(HandOf(ids, hands, id)) == values[id]
  {
  }

  /** Seated keys of a table are keys of its values. */
  lemma TableKeys(ids: seq<int>, hands: seq<seq<Card>>, values: map<int, HandValue>, keys: seq<int>)
    requires Table(ids, hands, values) && Seated(ids, keys)
    ensures AllIn(values, keys)
  {
    forall k | 0 <= k < |keys| ensures keys[k] in values {
      assert ids[IndexOf(ids, keys[k])] == keys[k];
    }
  }

  // ---------------------------------------------------------------- ranking, phase 1

  /** The inner loop of the first phase: the first entry from `i` on whose
      category is strictly below `v`, or -1. */
  function FirstBelow(values: map<int, HandValue>, ranking: seq<int>, v: HandValue, i: nat): (r: int)
    requires AllIn(values, ranking)
    ensures r == -1 ==> forall k :: i <= k < |ranking| ==> values[ranking[k]].Ordinal() >= v.Ordinal()
    ensures r != -1 ==> i <= r < |ranking| && values[ranking[r]].Ordinal() < v.Ordinal()
    ensures r != -1 ==> forall k :: i <= k < r ==> values[ranking[k]].Ordinal() >= v.Ordinal()
    decreases |ranking| - i
  {
    if i >= |ranking| then -1
    else if values[ranking[i]].Ordinal() < v.Ordinal() then i
    else FirstBelow(values, ranking, v, i + 1)
  }

  /** One pass of the outer loop: the first key starts the ranking; a later
      key goes before the first entry of a strictly lower category and is
      dropped when there is none. */
  function Place(values: map<int, HandValue>, ranking: seq<int>, key: int): seq<int>
    requires key in values && AllIn(values, ranking)
  {
    if ranking == [] then [key]
    else
      var i := FirstBelow(values, ranking, values[key], 0);
      if i == -1 then ranking else ranking[..i] + [key] + ranking[i..]
  }

  /** The first phase over the keys in iteration order. */
  function RankingOf(values: map<int, HandValue>, keys: seq<int>): (r: seq<int>)
    requires AllIn(values, keys)
    ensures AllIn(values, r)
    ensures forall k :: 0 <= k < |r| ==> r[k] in keys
    ensures |r| <= |keys|
  {
    if keys == [] then []
    else
      var rest := RankingOf(values, keys[..|keys| - 1]);
      var r := Place(values, rest, keys[|keys| - 1]);
      assert forall k :: 0 <= k < |rest| ==> rest[k] in keys by {
        forall k | 0 <= k < |rest| ensures rest[k] in keys {
          assert rest[k] in keys[..|keys| - 1];
        }
      }
      r
  }

  /** Entries are in non-increasing category order. */
  ghost predicate Descending(values: map<int, HandValue>, r: seq<int>)
    requires AllIn(values, r)
  {
    forall i, j :: 0 <= i < j < |r| ==> values[r[i]].Ordinal() >= values[r[j]].Ordinal()
  }

  lemma PlaceDescending(values: map<int, HandValue>, ranking: seq<int>, key: int)
    requires key in values && AllIn(values, ranking) && Descending(values, ranking)
    ensures AllIn(values, Place(values, ranking, key))
    ensures Descending(values, Place(values, ranking, key))
  {
    if ranking != [] {
      var i := FirstBelow(values, ranking, values[key], 0);
      if i != -1 {
        var r := ranking[..i] + [key] + ranking[i..];
        forall a, b | 0 <= a < b < |r| ensures values[r[a]].Ordinal() >= values[r[b]].Ordinal() {
          InsertedInOrder(values, ranking, key, i, a, b);
        }
      }
    }
  }

  /** Two entries of the ranking with `key` inserted at `i`, just before the
      first entry of a category below it, are in order. */
  lemma InsertedInOrder(values: map<int, HandValue>, ranking: seq<int>, key: int, i: nat, a: nat, b: nat)
    requires key in values && AllIn(values, ranking) && Descending(values, ranking)
    requires i < |ranking| && values[ranking[i]].Ordinal() < values[key].Ordinal()
    requires forall k :: 0 <= k < i ==> values[ranking[k]].Ordinal() >= values[key].Ordinal()
    requires a < b <= |ranking|
    ensures var r := ranking[..i] + [key] + ranking[i..];
            values[r[a]].Ordinal() >= values[r[b]].Ordinal()
  {
    var r := ranking[..i] + [key] + ranking[i..];
    if a < i && b > i {
      assert r[a] == ranking[a] && r[b] == ranking[b - 1];
    } else if a == i {
      assert r[b] == ranking[b - 1];
    } else if b == i {
      assert r[a] == ranking[a];
    } else if a > i {
      assert r[a] == ranking[a - 1] && r[b] == ranking[b - 1];
    } else {
      assert r[a] == ranking[a] && r[b] == ranking[b];
    }
  }

  /** The first phase yields a ranking in non-increasing category order. */
  lemma {:induction false} RankingDescending(values: map<int, HandValue>, keys: seq<int>)
    requires AllIn(values, keys)
    ensures Descending(values, RankingOf(values, keys))
  {
    if keys != [] {
      RankingDescending(values, keys[..|keys| - 1]);
      PlaceDescending(values, RankingOf(values, keys[..|keys| - 1]), keys[|keys| - 1]);
    }
  }

  /** The first entry of the first phase has the best category of all keys. */
  lemma {:induction false} RankingLeads(values: map<int, HandValue>, keys: seq<int>)
    requires AllIn(values, keys)
    ensures keys != [] ==> RankingOf(values, keys) != []
    ensures forall k :: 0 <= k < |keys| ==>
              values[RankingOf(values, keys)[0]].Ordinal() >= values[keys[k]].Ordinal()
  {
    if keys != [] {
      var front := keys[..|keys| - 1];
      var key := keys[|keys| - 1];
      RankingLeads(values, front);
      var rest := RankingOf(values, front);
      forall k | 0 <= k < |keys|
        ensures values[RankingOf(values, keys)[0]].Ordinal() >= values[keys[k]].Ordinal()
      {
        if k < |keys| - 1 {
          assert keys[k] == front[k];
        }
      }
    }
  }

  /** Inserting a new entry keeps the entries distinct. */
  lemma InsertAtDistinct(s: seq<int>, i: nat, x: int)
    requires Distinct(s) && x !in s && i <= |s|
    ensures Distinct(s[..i] + [x] + s[i..])
  {
    var r := s[..i] + [x] + s[i..];
    forall a, b | 0 <= a < b < |r| ensures r[a] != r[b] {
      if a < i && b > i {
        assert r[a] == s[a] && r[b] == s[b - 1];
      } else if a == i {
        assert r[b] == s[b - 1];
      } else if b == i {
        assert r[a] == s[a];
      } else if a > i {
        assert r[a] == s[a - 1] && r[b] == s[b - 1];
      } else {
        assert r[a] == s[a] && r[b] == s[b];
      }
    }
  }

  /** The first phase keeps no key twice when no key repeats. */
  lemma {:induction false} RankingDistinct(values: map<int, HandValue>, keys: seq<int>)
    requires AllIn(values, keys) && Distinct(keys)
    ensures Distinct(RankingOf(values, keys))
  {
    if keys != [] {
      var front := keys[..|keys| - 1];
      var key := keys[|keys| - 1];
      assert Distinct(front);
      RankingDistinct(values, front);
      var rest := RankingOf(values, front);
      assert key !in rest by {
        forall k | 0 <= k < |rest| ensures rest[k] != key {
          assert rest[k] in front;
        }
      }
      if rest != [] {
        var i := FirstBelow(values, rest, values[key], 0);
        if i != -1 {
          InsertAtDistinct(rest, i, key);
        }
      }
    }
  }

  /** A key no entry ranks strictly below is left out of the ranking. */
  lemma PlaceDropsTies(values: map<int, HandValue>, ranking: seq<int>, key: int)
    requires key in values && AllIn(values, ranking) && ranking != []
    requires forall k :: 0 <= k < |ranking| ==> values[ranking[k]].Ordinal() >= values[key].Ordinal()
    ensures Place(values, ranking, key) == ranking
  {
  }

  // ---------------------------------------------------------------- ranking, phase 2

  /** Whether the entry `cur` takes the lead from `lead`: same category and a
      tie-break between the first seats' hands that does not favour the
      leader (false when either hand cannot be read). */
  function TakesLead(ids: seq<int>, hands: seq<seq<Card>>, values: map<int, HandValue>,
                     lead: int, cur: int): bool
  {
    Readable(ids, hands, values, lead) && Readable(ids, hands, values, cur)
    && values[lead] == values[cur]
    && SettleDraw(HandOf(ids, hands, lead), HandOf(ids, hands, cur), values[lead]) <= 0
  }

  /** TakesLead as a relation on entries. */
  function LeadOf(ids: seq<int>, hands: seq<seq<Card>>, values: map<int, HandValue>): (int, int) -> bool
  {
    (lead: int, cur: int) => TakesLead(ids, hands, values, lead, cur)
  }

  /** Every entry is a seated id. */
  predicate Seated(ids: seq<int>, r: seq<int>)
  {
    forall k :: 0 <= k < |r| ==> r[k] in ids
  }

  /** Moving the entry at `i` to the front keeps the same entries. */
  lemma MoveToFront(ranking: seq<int>, i: nat)
    requires i < |ranking|
    ensures var next := [ranking[i]] + ranking[..i] + ranking[i + 1..];
            |next| == |ranking| && multiset(next) == multiset(ranking)
  {
    assert ranking == ranking[..i] + [ranking[i]] + ranking[i + 1..];
  }

  /** Entries with the same multiset are seated alike. */
  lemma SeatedSame(ids: seq<int>, a: seq<int>, b: seq<int>)
    requires Seated(ids, a) && multiset(a) == multiset(b)
    ensures Seated(ids, b)
  {
    forall k | 0 <= k < |b| ensures b[k] in ids {
      assert b[k] in multiset(a);
    }
  }

  /** Entries with the same multiset are keys alike. */
  lemma AllInSame(values: map<int, HandValue>, a: seq<int>, b: seq<int>)
    requires AllIn(values, a) && multiset(a) == multiset(b)
    ensures AllIn(values, b)
  {
    forall k | 0 <= k < |b| ensures b[k] in values {
      assert b[k] in multiset(a);
      var j :| 0 <= j < |a| && a[j] == b[k];
    }
  }

  /** The second phase from position `i` on, for a relation `takes`: an entry
      that takes the lead from the current front is moved to the front. */
  function PromoteBy(ranking: seq<int>, takes: (int, int) -> bool, i: nat): (r: seq<int>)
    requires ranking != []
    ensures |r| == |ranking| && multiset(r) == multiset(ranking)
    decreases |ranking| - i
  {
    if i >= |ranking| then ranking
    else if takes(ranking[0], ranking[i]) then
      MoveToFront(ranking, i);
      PromoteBy([ranking[i]] + ranking[..i] + ranking[i + 1..], takes, i + 1)
    else PromoteBy(ranking, takes, i + 1)
  }

  /** A promotion by a relation that only holds between entries of equal value
      leaves a front entry of the same value. */
  lemma {:induction false} PromoteKeepsValue(ids: seq<int>, hands: seq<seq<Card>>, values: map<int, HandValue>,
                                             ranking: seq<int>, i: nat)
    requires AllIn(values, ranking) && ranking != []
    ensures var r := PromoteBy(ranking, LeadOf(ids, hands, values), i);
            r[0] in values && values[r[0]] == values[ranking[0]]
    decreases |ranking| - i
  {
    var takes := LeadOf(ids, hands, values);
    if i < |ranking| {
      if takes(ranking[0], ranking[i]) {
        var next := [ranking[i]] + ranking[..i] + ranking[i + 1..];
        MoveToFront(ranking, i);
        AllInSame(values, ranking, next);
        PromoteKeepsValue(ids, hands, values, next, i + 1);
      } else {
        PromoteKeepsValue(ids, hands, values, ranking, i + 1);
      }
    }
  }

  /** The second phase of createRanking from position `i` on. */
  function PromoteFrom(ids: seq<int>, hands: seq<seq<Card>>, values: map<int, HandValue>,
                       ranking: seq<int>, i: nat): (r: seq<int>)
    requires AllIn(values, ranking) && Seated(ids, ranking) && ranking != []
    ensures |r| == |ranking| && multiset(r) == multiset(ranking)
    ensures Seated(ids, r) && r[0] in values && values[r[0]] == values[ranking[0]]
  {
    var r := PromoteBy(ranking, LeadOf(ids, hands, values), i);
    SeatedSame(ids, ranking, r);
    PromoteKeepsValue(ids, hands, values, ranking, i);
    r
  }

  /** createRanking: both phases. */
  function CreateRankingOf(ids: seq<int>, hands: seq<seq<Card>>, values: map<int, HandValue>,
                           keys: seq<int>): (r: seq<int>)
    requires AllIn(values, keys) && Seated(ids, keys) && keys != []
    ensures |r| >= 1 && Seated(ids, r)
  {
    RankingLeads(values, keys);
    var first := RankingOf(values, keys);
    assert Seated(ids, first) by {
      forall k | 0 <= k < |first| ensures first[k] in ids {
        assert first[k] in keys;
        var j :| 0 <= j < |keys| && keys[j] == first[k];
      }
    }
    PromoteFrom(ids, hands, values, first, 1)
  }

  /** The leader after both phases holds the best category of all keys. */
  lemma CreateRankingLeads(ids: seq<int>, hands: seq<seq<Card>>, values: map<int, HandValue>,
                           keys: seq<int>, k: nat)
    requires AllIn(values, keys) && Seated(ids, keys) && keys != [] && k < |keys|
    ensures values[CreateRankingOf(ids, hands, values, keys)[0]].Ordinal() >= values[keys[k]].Ordinal()
  {
    RankingLeads(values, keys);
  }

  // ---------------------------------------------------------------- winners

  /** Whether the entry `next` after `prev` in the ranking ties with it:
      same category and a tie-break of 0 between the first seats' hands
      (false when either hand cannot be read). */
  function Ties(ids: seq<int>, hands: seq<seq<Card>>, values: map<int, HandValue>,
                prev: int, next: int): bool
  {
    Readable(ids, hands, values, prev) && Readable(ids, hands, values, next)
    && values[next] == values[prev]
    && SettleDraw(HandOf(ids, hands, prev), HandOf(ids, hands, next), values[prev]) == 0
  }

  /** The loop of createWinnersList from position `i` on, for a tie relation
      `tie`: each next entry joins while it ties with the one before it. */
  function ChainFrom(ranking: seq<int>, tie: (int, int) -> bool, i: nat): (w: seq<int>)
    requires i < |ranking|
    ensures |w| <= |ranking| - i - 1
    decreases |ranking| - i
  {
    if i + 1 >= |ranking| then []
    else if tie(ranking[i], ranking[i + 1]) then [ranking[i + 1]] + ChainFrom(ranking, tie, i + 1)
    else []
  }

  /** The chain from `i` is the stretch of the ranking right after `i`. */
  lemma {:induction false} ChainSlice(ranking: seq<int>, tie: (int, int) -> bool, i: nat)
    requires i < |ranking|
    ensures ChainFrom(ranking, tie, i) == ranking[i + 1..i + 1 + |ChainFrom(ranking, tie, i)|]
    decreases |ranking| - i
  {
    if i + 1 < |ranking| && tie(ranking[i], ranking[i + 1]) {
      ChainSlice(ranking, tie, i + 1);
      var w' := ChainFrom(ranking, tie, i + 1);
      assert ranking[i + 1..i + 2 + |w'|] == [ranking[i + 1]] + ranking[i + 2..i + 2 + |w'|];
    }
  }

  /** In that stretch each entry ties with its predecessor. */
  lemma {:induction false} ChainLinks(ranking: seq<int>, tie: (int, int) -> bool, i: nat, k: nat)
    requires i < |ranking| && i <= k < i + |ChainFrom(ranking, tie, i)|
    ensures tie(ranking[k], ranking[k + 1])
    decreases |ranking| - i
  {
    if k > i {
      ChainLinks(ranking, tie, i + 1, k);
    }
  }

  /** The entry right after the stretch, if any, does not tie with the last of it. */
  lemma {:induction false} ChainStops(ranking: seq<int>, tie: (int, int) -> bool, i: nat)
    requires i < |ranking| && i + 1 + |ChainFrom(ranking, tie, i)| < |ranking|
    ensures !tie(ranking[i + |ChainFrom(ranking, tie, i)|], ranking[i + 1 + |ChainFrom(ranking, tie, i)|])
    decreases |ranking| - i
  {
    if tie(ranking[i], ranking[i + 1]) {
      ChainStops(ranking, tie, i + 1);
    }
  }

  /** The leader and the next `i` entries, grown by one. */
  lemma LeadingGrow(ranking: seq<int>, i: nat)
    requires i + 1 < |ranking|
    ensures [ranking[0]] + ranking[1..i + 1] + [ranking[i + 1]] == [ranking[0]] + ranking[1..i + 2]
  {
    assert ranking[1..i + 2] == ranking[1..i + 1] + [ranking[i + 1]];
  }

  /** One more entry joins the chain from 0 when the entry at `i + 1` ties. */
  lemma ChainAdvance(ranking: seq<int>, tie: (int, int) -> bool, i: nat)
    requires i + 1 < |ranking| && tie(ranking[i], ranking[i + 1])
    requires ChainFrom(ranking, tie, 0) == ranking[1..i + 1] + ChainFrom(ranking, tie, i)
    ensures ChainFrom(ranking, tie, 0) == ranking[1..i + 2] + ChainFrom(ranking, tie, i + 1)
  {
    var rest := ChainFrom(ranking, tie, i + 1);
    assert ChainFrom(ranking, tie, i) == [ranking[i + 1]] + rest;
    assert ranking[1..i + 2] == ranking[1..i + 1] + [ranking[i + 1]];
    AppendAssoc(ranking[1..i + 1], [ranking[i + 1]], rest);
  }

  lemma AppendAssoc<T>(a: seq<T>, b: seq<T>, c: seq<T>)
    ensures a + (b + c) == (a + b) + c
  {
  }

  /** The chain from 0 ends where the entry at `i + 1` does not tie or the ranking ends. */
  lemma ChainHalt(ranking: seq<int>, tie: (int, int) -> bool, i: nat)
    requires i < |ranking| && (i + 1 < |ranking| ==> !tie(ranking[i], ranking[i + 1]))
    requires ChainFrom(ranking, tie, 0) == ranking[1..i + 1] + ChainFrom(ranking, tie, i)
    ensures ChainFrom(ranking, tie, 0) == ranking[1..i + 1]
  {
    assert ChainFrom(ranking, tie, i) == [];
  }

  /** The tie relation of one table, as a total function for the chain. */
  function TieOf(ids: seq<int>, hands: seq<seq<Card>>, values: map<int, HandValue>): (int, int) -> bool
  {
    (a, b) => Ties(ids, hands, values, a, b)
  }

  /** createWinnersList: the leader and the chain of ties after it. */
  function WinnersOf(ids: seq<int>, hands: seq<seq<Card>>, values: map<int, HandValue>,
                     ranking: seq<int>): seq<int>
    requires ranking != []
  {
    [ranking[0]] + ChainFrom(ranking, TieOf(ids, hands, values), 0)
  }

  /** The winners are a leading stretch of the ranking. */
  lemma WinnersArePrefix(ids: seq<int>, hands: seq<seq<Card>>, values: map<int, HandValue>,
                         ranking: seq<int>)
    requires ranking != []
    ensures var w := WinnersOf(ids, hands, values, ranking);
            1 <= |w| <= |ranking| && w == ranking[..|w|]
  {
    ChainSlice(ranking, TieOf(ids, hands, values), 0);
  }

  /** Each winner after the first ties with the one before it. */
  lemma WinnersTie(ids: seq<int>, hands: seq<seq<Card>>, values: map<int, HandValue>,
                   ranking: seq<int>, k: nat)
    requires ranking != [] && k + 1 < |WinnersOf(ids, hands, values, ranking)|
    ensures Ties(ids, hands, values, ranking[k], ranking[k + 1])
  {
    var tie := TieOf(ids, hands, values);
    ChainLinks(ranking, tie, 0, k);
    assert tie(ranking[k], ranking[k + 1]);
  }

  /** The entry after the winners, if any, does not tie with the last winner. */
  lemma WinnersStop(ids: seq<int>, hands: seq<seq<Card>>, values: map<int, HandValue>,
                    ranking: seq<int>)
    requires ranking != [] && |WinnersOf(ids, hands, values, ranking)| < |ranking|
    ensures var n := |WinnersOf(ids, hands, values, ranking)|;
            !Ties(ids, hands, values, ranking[n - 1], ranking[n])
  {
    var tie := TieOf(ids, hands, values);
    var c := ChainFrom(ranking, tie, 0);
    assert |WinnersOf(ids, hands, values, ranking)| == 1 + |c|;
    assert !tie(ranking[|c|], ranking[1 + |c|]) by {
      ChainStops(ranking, tie, 0);
    }
  }

  /** Every winner has the category of the ranking's leader. */
  lemma {:induction false} WinnersShareCategory(ids: seq<int>, hands: seq<seq<Card>>,
                                                values: map<int, HandValue>, ranking: seq<int>, k: nat)
    requires Table(ids, hands, values) && Seated(ids, ranking) && ranking != []
    requires k < |WinnersOf(ids, hands, values, ranking)|
    ensures WinnersOf(ids, hands, values, ranking)[k] in values
    ensures values[WinnersOf(ids, hands, values, ranking)[k]] == values[ranking[0]]
  {
    WinnersArePrefix(ids, hands, values, ranking);
    if k > 0 {
      WinnersShareCategory(ids, hands, values, ranking, k - 1);
      WinnersTie(ids, hands, values, ranking, k - 1);
    }
  }

  /** Every winner of the showdown holds the best category at the table. */
  lemma WinnersHoldBestCategory(ids: seq<int>, hands: seq<seq<Card>>, values: map<int, HandValue>,
                                keys: seq<int>, w: nat, k: nat)
    requires Table(ids, hands, values) && Seated(ids, keys) && keys != [] && k < |keys|
    requires AllIn(values, keys)
    requires w < |WinnersOf(ids, hands, values, CreateRankingOf(ids, hands, values, keys))|
    ensures var winner := WinnersOf(ids, hands, values, CreateRankingOf(ids, hands, values, keys))[w];
            winner in values && values[winner].Ordinal() >= values[keys[k]].Ordinal()
  {
    var ranking := CreateRankingOf(ids, hands, values, keys);
    CreateRankingLeads(ids, hands, values, keys, k);
    WinnersShareCategory(ids, hands, values, ranking, w);
  }

  // ---------------------------------------------------------------- the share

  /** Java's int division, which truncates toward zero. */
  function JavaDiv(a: int, b: int): (q: int)
    requires b != 0
    ensures (a >= 0) == (b > 0) ==> q >= 0
    ensures (a >= 0) != (b > 0) ==> q <= 0
  {
    var q := (if a >= 0 then a else -a) / (if b > 0 then b else -b);
    if (a >= 0) == (b > 0) then q else -q
  }

  /** Each of `w` winners receives the truncated share; what is not handed out
      stays below `w`, and for a non-negative stake nothing more than the stake is paid. */
  lemma ShareBounds(stake: int, w: int)
    requires w > 0
    ensures stake >= 0 ==> 0 <= stake - w * JavaDiv(stake, w) < w
    ensures stake < 0 ==> -w < stake - w * JavaDiv(stake, w) <= 0
  {
  }
}
