/**
 * Helpers a computer player uses to decide whether to take a card and where
 * to put it: matching a card, ranking its swappable cards, finding the
 * cheapest column, and avoiding values the next player wants.
 */
module SwapHeuristics {
  import opened Wrappers
  import opened Cards
  import opened Games

  /** A `[value, index]` pair: a card's value and its slot in the hand. */
  datatype Entry = Entry(value: Rank, index: nat)

  /** `c` is a swappable card with the same value as `card`. */
  predicate IsMatch(c: Card, card: Card) {
    Swappable(c) && c.value == card.value
  }

  /** The scan of checkForMatch from slot `i` on. */
  function MatchFrom(cards: seq<Card>, card: Card, i: nat): (r: (bool, int))
    requires i <= |cards|
    decreases |cards| - i
    ensures r.0 <==> exists j :: i <= j < |cards| && IsMatch(cards[j], card)
    ensures !r.0 ==> r.1 == -1
    ensures r.0 ==> exists j :: i <= j < |cards| && IsMatch(cards[j], card) && r.1 == Partner(j)
                                && forall l :: i <= l < j ==> !IsMatch(cards[l], card)
  {
    if i == |cards| then (false, -1)
    else if IsMatch(cards[i], card) then (true, Partner(i))
    else MatchFrom(cards, card, i + 1)
  }

  /**
   * checkForMatch: `[true, partner]` for the first swappable card of equal
   * value, where partner is the other slot of its column; `[false, -1]` if
   * there is none.
   */
  function CheckForMatch(card: Card, player: Player): (r: (bool, int))
    ensures r.0 <==> exists i :: 0 <= i < |player.cards| && IsMatch(player.cards[i], card)
    ensures !r.0 ==> r.1 == -1
    ensures r.0 ==> exists i :: 0 <= i < |player.cards| && IsMatch(player.cards[i], card) && r.1 == Partner(i)
                                && forall j :: 0 <= j < i ==> !IsMatch(player.cards[j], card)
  {
    MatchFrom(player.cards, card, 0)
  }

  /** On a six-card hand the slot checkForMatch returns is in the hand, across from a matching card. */
  lemma MatchCompletesColumn(card: Card, player: Player)
    requires |player.cards| == 6
    requires CheckForMatch(card, player).0
    ensures 0 <= CheckForMatch(card, player).1 < 6
    ensures IsMatch(player.cards[Partner(CheckForMatch(card, player).1)], card)
  {
    var i :| 0 <= i < |player.cards| && IsMatch(player.cards[i], card) && CheckForMatch(card, player).1 == Partner(i);
    PartnerInvolution(i);
  }

  /** The swappable cards' entries in slot order, as sortVals pushes them. */
  function SwappableEntries(cards: seq<Card>): (r: seq<Entry>)
    ensures forall k :: 0 <= k < |r| ==> r[k].index < |cards| && Swappable(cards[r[k].index]) && cards[r[k].index].value == r[k].value
    ensures forall a, b :: 0 <= a < b < |r| ==> r[a].index < r[b].index
  {
    if cards == [] then []
    else
      var n := |cards| - 1;
      SwappableEntries(cards[..n]) + (if Swappable(cards[n]) then [Entry(cards[n].value, n)] else [])
  }

  /** An entry is listed exactly when its slot holds a swappable card of that value. */
  lemma {:induction false} SwappableEntriesComplete(cards: seq<Card>, e: Entry)
    ensures e in SwappableEntries(cards) <==> e.index < |cards| && Swappable(cards[e.index]) && cards[e.index].value == e.value
  {
    if cards != [] {
      var n := |cards| - 1;
      SwappableEntriesComplete(cards[..n], e);
    }
  }

  /** Non-increasing point value. */
  predicate SortedByPoints(s: seq<Entry>) {
    forall a, b :: 0 <= a < b < |s| ==> Points(s[a].value) >= Points(s[b].value)
  }

  /** An entry worth at least the head of a sorted list can go in front of it. */
  lemma ConsSorted(x: Entry, t: seq<Entry>)
    requires SortedByPoints(t)
    requires t != [] ==> Points(x.value) >= Points(t[0].value)
    ensures SortedByPoints([x] + t)
  {
    var r := [x] + t;
    forall a, b | 0 <= a < b < |r|
      ensures Points(r[a].value) >= Points(r[b].value)
    {
      if a == 0 {
        assert r[b] == t[b - 1];
        if b > 1 {
          assert Points(t[0].value) >= Points(t[b - 1].value);
        }
      } else {
        assert r[a] == t[a - 1] && r[b] == t[b - 1];
      }
    }
  }

  /** Insert after every entry worth at least as much. */
  function InsertByPoints(e: Entry, s: seq<Entry>): (r: seq<Entry>)
    requires SortedByPoints(s)
    ensures SortedByPoints(r)
    ensures multiset(r) == multiset(s) + multiset{e}
    ensures |r| == |s| + 1
    ensures r[0] == e || (s != [] && r[0] == s[0])
  {
    if s == [] then [e]
    else if Points(s[0].value) < Points(e.value) then [e] + s
    else
      var rest := InsertByPoints(e, s[1..]);
      assert s == [s[0]] + s[1..];
      ConsSorted(s[0], rest);
      [s[0]] + rest
  }

  /** Insertion sort by point value; entries of equal points keep their order. */
  function SortByPoints(s: seq<Entry>): (r: seq<Entry>)
    ensures SortedByPoints(r)
    ensures multiset(r) == multiset(s)
  {
    if s == [] then []
    else
      var n := |s| - 1;
      assert s == s[..n] + [s[n]];
      InsertByPoints(s[n], SortByPoints(s[..n]))
  }

  /**
   * sortVals: the entries of the current player's swappable cards, a
   * permutation of them ordered from most to fewest points.
   */
  method SortVals(g: Game) returns (sortedVals: seq<Entry>)
    ensures SortedByPoints(sortedVals)
    ensures multiset(sortedVals) == multiset(SwappableEntries(g.currPlayer.cards))
  {
    var cards := g.currPlayer.cards;
    var pushed: seq<Entry> := [];
    for i := 0 to |cards|
      invariant pushed == SwappableEntries(cards[..i])
    {
      assert cards[..i + 1][..i] == cards[..i];
      if cards[i].flipped && !cards[i].locked {
        pushed := pushed + [Entry(cards[i].value, i)];
      }
    }
    assert cards[..|cards|] == cards;
    sortedVals := SortByPoints(pushed);
  }

  /** What getLowColPoints returns when no card is swappable; above any real column total. */
  const NoColumnPoints := 21

  /**
   * getLowColPoints: the smallest `points(card) + points(c)` over the current
   * player's swappable cards c, with the other slot of the first card that
   * attains it; `[21, -1]` when there is no swappable card.
   */
  method GetLowColPoints(g: Game, card: Card) returns (lowColPoints: int, lowColInd: int)
    ensures lowColInd == -1 <==> forall i :: 0 <= i < |g.currPlayer.cards| ==> !Swappable(g.currPlayer.cards[i])
    ensures lowColInd == -1 ==> lowColPoints == NoColumnPoints
    ensures lowColInd != -1 ==>
              exists k :: 0 <= k < |g.currPlayer.cards| && Swappable(g.currPlayer.cards[k])
                          && lowColPoints == Points(g.currPlayer.cards[k].value) + Points(card.value)
                          && lowColInd == Partner(k)
                          && forall j :: 0 <= j < k && Swappable(g.currPlayer.cards[j])
                               ==> Points(g.currPlayer.cards[j].value) + Points(card.value) > lowColPoints
    ensures forall j :: 0 <= j < |g.currPlayer.cards| && Swappable(g.currPlayer.cards[j])
              ==> lowColPoints <= Points(g.currPlayer.cards[j].value) + Points(card.value)
  {
    var cards := g.currPlayer.cards;
    var val := Points(card.value);
    lowColPoints := NoColumnPoints;
    lowColInd := -1;
    ghost var lowK := -1;
    for i := 0 to |cards|
      invariant lowColInd == -1 <==> forall j :: 0 <= j < i ==> !Swappable(cards[j])
      invariant lowColInd == -1 ==> lowColPoints == NoColumnPoints && lowK == -1
      invariant lowColInd != -1 ==>
                  && 0 <= lowK < i && Swappable(cards[lowK])
                  && lowColPoints == Points(cards[lowK].value) + val
                  && lowColInd == Partner(lowK)
                  && forall j :: 0 <= j < lowK && Swappable(cards[j]) ==> Points(cards[j].value) + val > lowColPoints
      invariant forall j :: 0 <= j < i && Swappable(cards[j]) ==> lowColPoints <= Points(cards[j].value) + val
    {
      if !cards[i].locked && cards[i].flipped {
        var colPoints := Points(cards[i].value) + val;
        if colPoints < lowColPoints {
          lowColPoints := colPoints;
          lowColInd := if i < 3 then i + 3 else i - 3;
          lowK := i;
        }
      }
    }
  }

  /** The values of a hand's swappable cards. */
  function WantedVals(cards: seq<Card>): (r: set<Rank>)
    ensures forall v :: v in r <==> exists i :: 0 <= i < |cards| && Swappable(cards[i]) && cards[i].value == v
  {
    if cards == [] then {}
    else
      var n := |cards| - 1;
      var prev := WantedVals(cards[..n]);
      assert forall i :: 0 <= i < n ==> cards[..n][i] == cards[i];
      prev + (if Swappable(cards[n]) then {cards[n].value} else {})
  }

  /**
   * getBadVals: a record whose keys are the values of the next player's
   * swappable (flipped, unlocked) cards, each mapped to 1. A game with no
   * seats makes getNextPlayer return undefined, whose `cards` the source
   * cannot read.
   */
  method GetBadVals(g: Game) returns (badVals: map<Rank, int>)
    requires g.players != []
    ensures badVals.Keys == WantedVals(GetNextPlayer(g.players, g.currPlayer).value.cards)
    ensures forall v :: v in badVals ==> badVals[v] == 1
  {
    var nextCards := GetNextPlayer(g.players, g.currPlayer).value.cards;
    badVals := map[];
    for i := 0 to |nextCards|
      invariant badVals.Keys == WantedVals(nextCards[..i])
      invariant forall v :: v in badVals ==> badVals[v] == 1
    {
      assert nextCards[..i + 1][..i] == nextCards[..i];
      var card := nextCards[i];
      if card.flipped && !card.locked {
        badVals := badVals[card.value := 1];
      }
    }
    assert nextCards[..|nextCards|] == nextCards;
  }

  /**
   * Position of the entry getBestToSwap settles on: the first whose value the
   * next player does not want, or whose 5% override (`overrides[k]`, the
   * outcome of `chanceTrue(.05)` drawn while entry k is at the front) fired;
   * `|entries|` when there is none.
   */
  function SwapPick(entries: seq<Entry>, bad: set<Rank>, overrides: seq<bool>): (k: nat)
    requires |overrides| >= |entries|
    ensures k <= |entries|
    ensures forall j :: 0 <= j < k ==> entries[j].value in bad && !overrides[j]
    ensures k < |entries| ==> entries[k].value !in bad || overrides[k]
  {
    if entries == [] then 0
    else if entries[0].value !in bad || overrides[0] then 0
    else 1 + SwapPick(entries[1..], bad, overrides[1..])
  }

  /**
   * Without the override, on entries sorted by points, getBestToSwap picks the
   * entry worth the most points among those the next player does not want, and
   * finds none exactly when the next player wants every value.
   */
  lemma BestToSwapIsCostliestSafe(entries: seq<Entry>, bad: set<Rank>, overrides: seq<bool>)
    requires |overrides| >= |entries|
    requires SortedByPoints(entries)
    requires forall j :: 0 <= j < |overrides| ==> !overrides[j]
    ensures SwapPick(entries, bad, overrides) == |entries| <==> forall e :: e in entries ==> e.value in bad
    ensures SwapPick(entries, bad, overrides) < |entries| ==>
              && entries[SwapPick(entries, bad, overrides)].value !in bad
              && forall e :: e in entries && e.value !in bad ==>
                   Points(e.value) <= Points(entries[SwapPick(entries, bad, overrides)].value)
  {
    var k := SwapPick(entries, bad, overrides);
    if k < |entries| {
      forall e | e in entries && e.value !in bad
        ensures Points(e.value) <= Points(entries[k].value)
      {
        var j :| 0 <= j < |entries| && entries[j] == e;
        assert k <= j;
      }
    }
  }

  /** A JavaScript array of entries, which getBestToSwap consumes from the front with `shift()`. */
  class EntryList {
    var items: seq<Entry>

    constructor (items: seq<Entry>)
      ensures this.items == items
    {
      this.items := items;
    }
  }

  /**
   * getBestToSwap: the entry at SwapPick, or undefined (None) when there is
   * none. Each rejected front entry is shifted off the caller's array before
   * the recursive call, so the array is left starting at the chosen entry, or
   * holding only its last entry when nothing was chosen.
   */
  method GetBestToSwap(g: Game, sortedVals: EntryList, overrides: seq<bool>) returns (r: Option<Entry>)
    requires g.players != []
    requires |overrides| >= |sortedVals.items|
    modifies sortedVals
    decreases |sortedVals.items|
    ensures var bad := WantedVals(GetNextPlayer(g.players, g.currPlayer).value.cards);
            var k := SwapPick(old(sortedVals.items), bad, overrides);
            && (k < |old(sortedVals.items)| ==> r == Some(old(sortedVals.items)[k]) && sortedVals.items == old(sortedVals.items)[k..])
            && (k == |old(sortedVals.items)| ==> r == None)
            && (k == |old(sortedVals.items)| && old(sortedVals.items) != [] ==>
                  sortedVals.items == old(sortedVals.items)[|old(sortedVals.items)| - 1..])
            && (old(sortedVals.items) == [] ==> sortedVals.items == [])
  {
    if |sortedVals.items| < 1 {
      return None;
    }
    var badVals := GetBadVals(g);
    if !(sortedVals.items[0].value in badVals) || overrides[0] {
      return Some(sortedVals.items[0]);
    }
    if |sortedVals.items| >= 2 {
      sortedVals.items := sortedVals.items[1..];
      r := GetBestToSwap(g, sortedVals, overrides[1..]);
      return;
    }
    return None;
  }

  /**
   * getIndInPinch: -1 (discard) when there are no entries, or when the drawn
   * card is worth more than 7 and the 75% coin (`chanceTrue(.75)`) comes up;
   * otherwise the other slot of the column of the last entry.
   */
  function GetIndInPinch(drawnVal: int, srtdVals: seq<Entry>, coin: bool): (r: int)
    ensures r == -1 <==> (drawnVal > 7 && coin) || srtdVals == []
    ensures r >= -1
  {
    if (drawnVal > 7 && coin) || |srtdVals| < 1 then -1
    else
      var lastInd := srtdVals[|srtdVals| - 1].index;
      if lastInd < 3 then lastInd + 3 else lastInd - 3
  }

  /**
   * On entries sorted by points from a six-card hand, the slot getIndInPinch
   * returns lies across from a card of the lowest point value among them.
   */
  lemma PinchTakesAcrossLowest(drawnVal: int, srtdVals: seq<Entry>, coin: bool)
    requires SortedByPoints(srtdVals)
    requires forall e :: e in srtdVals ==> e.index < 6
    requires GetIndInPinch(drawnVal, srtdVals, coin) != -1
    ensures 0 <= GetIndInPinch(drawnVal, srtdVals, coin) < 6
    ensures exists e :: e in srtdVals && Partner(GetIndInPinch(drawnVal, srtdVals, coin)) == e.index
                        && forall f :: f in srtdVals ==> Points(e.value) <= Points(f.value)
  {
    var last := srtdVals[|srtdVals| - 1];
    PartnerInvolution(last.index);
    forall f | f in srtdVals
      ensures Points(last.value) <= Points(f.value)
    {
      var j :| 0 <= j < |srtdVals| && srtdVals[j] == f;
    }
  }
}
