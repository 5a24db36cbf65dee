/**
 * Choosing a card for a computer player to flip: only cards in an "empty
 * column", one whose two cards are both still face down.
 */
module FlipSelection {
  import opened Wrappers
  import opened Cards
  import opened Games

  /** The column whose top card is at `c` has both cards face down. */
  predicate EmptyColumnAt(cards: seq<Card>, c: int) {
    0 <= c && c + 3 < |cards| && !cards[c].flipped && !cards[c + 3].flipped
  }

  /** Some column has both cards face down. */
  ghost predicate HasEmptyColumn(cards: seq<Card>) {
    exists c :: EmptyColumnAt(cards, c)
  }

  /** Indices of the face-down cards, in increasing order. */
  function UnflippedInds(cards: seq<Card>): (r: seq<int>)
    ensures forall k :: 0 <= k < |r| ==> 0 <= r[k] < |cards| && !cards[r[k]].flipped
  {
    if cards == [] then []
    else
      var n := |cards| - 1;
      UnflippedInds(cards[..n]) + (if cards[n].flipped then [] else [n])
  }

  /** The face-down indices are listed in strictly increasing order. */
  lemma {:induction false} UnflippedIndsIncreasing(cards: seq<Card>, a: int, b: int)
    requires 0 <= a < b < |UnflippedInds(cards)|
    ensures UnflippedInds(cards)[a] < UnflippedInds(cards)[b]
  {
    var n := |cards| - 1;
    var prev := UnflippedInds(cards[..n]);
    if b < |prev| {
      UnflippedIndsIncreasing(cards[..n], a, b);
    } else {
      assert prev[a] < |cards[..n]|;
    }
  }

  /** Every face-down card's index is listed. */
  lemma {:induction false} UnflippedIndsComplete(cards: seq<Card>, i: int)
    requires 0 <= i < |cards| && !cards[i].flipped
    ensures i in UnflippedInds(cards)
  {
    var n := |cards| - 1;
    if i < n {
      UnflippedIndsComplete(cards[..n], i);
    }
  }

  /** getUnflippedInds: push every index whose card is face down. */
  method GetUnflippedInds(plr: Player) returns (unflippedInds: seq<int>)
    ensures unflippedInds == UnflippedInds(plr.cards)
  {
    var cards := plr.cards;
    unflippedInds := [];
    for i := 0 to |cards|
      invariant unflippedInds == UnflippedInds(cards[..i])
    {
      assert cards[..i + 1][..i] == cards[..i];
      if cards[i].flipped == false {
        unflippedInds := unflippedInds + [i];
      }
    }
    assert cards[..|cards|] == cards;
  }

  /**
   * What getBestInds builds: walking the indices in order, each index whose
   * value minus 3 was seen earlier contributes the pair (index, index - 3).
   */
  function BestIndsOf(inds: seq<int>): (r: seq<int>)
    ensures |r| % 2 == 0
    ensures forall k :: 0 <= k < |r| ==> r[k] in inds && (r[k] - 3 in inds || r[k] + 3 in inds)
  {
    if inds == [] then []
    else
      var n := |inds| - 1;
      var prev := BestIndsOf(inds[..n]);
      assert forall x :: x in inds[..n] ==> x in inds;
      if inds[n] - 3 in inds[..n] then prev + [inds[n], inds[n] - 3] else prev
  }

  /** getBestInds' list is made of consecutive pairs (j, j - 3). */
  lemma {:induction false} BestIndsPairs(inds: seq<int>, k: int)
    requires 0 <= k < |BestIndsOf(inds)| / 2
    ensures BestIndsOf(inds)[2 * k + 1] == BestIndsOf(inds)[2 * k] - 3
  {
    var n := |inds| - 1;
    var prev := BestIndsOf(inds[..n]);
    if k < |prev| / 2 {
      BestIndsPairs(inds[..n], k);
    }
  }

  /** getBestInds: the loop over `inds` with the `passedInds` record. */
  method GetBestInds(inds: seq<int>) returns (bestInds: seq<int>)
    ensures bestInds == BestIndsOf(inds)
  {
    bestInds := [];
    var passedInds: map<int, int> := map[];
    for i := 0 to |inds|
      invariant bestInds == BestIndsOf(inds[..i])
      invariant forall x :: x in passedInds <==> x in inds[..i]
    {
      var ind := inds[i];
      assert inds[..i + 1][..i] == inds[..i];
      if ind - 3 in passedInds {
        bestInds := bestInds + [ind];
        bestInds := bestInds + [ind - 3];
      }
      passedInds := passedInds[ind := 1];
    }
    assert inds[..|inds|] == inds;
  }

  /** The index at position j has its value minus 3 somewhere before it. */
  predicate PairAt(inds: seq<int>, j: int) {
    0 <= j < |inds| && inds[j] - 3 in inds[..j]
  }

  /** getBestInds finds a pair exactly when some index has its value minus 3 earlier in the list. */
  lemma {:induction false} BestIndsNonEmpty(inds: seq<int>)
    ensures |BestIndsOf(inds)| >= 2 <==> exists j :: PairAt(inds, j)
  {
    if inds != [] {
      var n := |inds| - 1;
      BestIndsNonEmpty(inds[..n]);
      assert forall j :: PairAt(inds[..n], j) <==> 0 <= j < n && PairAt(inds, j) by {
        assert forall j :: 0 <= j < n ==> inds[..n][j] == inds[j] && inds[..n][..j] == inds[..j];
      }
      if inds[n] - 3 in inds[..n] {
        assert PairAt(inds, n);
      } else {
        assert forall j :: PairAt(inds, j) ==> PairAt(inds[..n], j);
      }
    }
  }

  /** An empty column (j - 3, j) shows up in the face-down indices as j with j - 3 before it. */
  lemma EmptyColumnGivesPair(cards: seq<Card>, c: int)
    requires EmptyColumnAt(cards, c)
    ensures exists b :: PairAt(UnflippedInds(cards), b)
  {
    var inds := UnflippedInds(cards);
    var j := c + 3;
    UnflippedIndsComplete(cards, j);
    UnflippedIndsComplete(cards, c);
    var b :| 0 <= b < |inds| && inds[b] == j;
    var a :| 0 <= a < |inds| && inds[a] == j - 3;
    if b < a {
      UnflippedIndsIncreasing(cards, b, a);
    }
    assert inds[..b][a] == j - 3;
    assert PairAt(inds, b);
  }

  /** A pair found among the face-down indices is an empty column. */
  lemma PairGivesEmptyColumn(cards: seq<Card>, b: int)
    requires PairAt(UnflippedInds(cards), b)
    ensures HasEmptyColumn(cards)
  {
    var inds := UnflippedInds(cards);
    var j := inds[b];
    var a :| 0 <= a < b && inds[..b][a] == j - 3;
    assert inds[a] == j - 3;
    assert 0 <= inds[a] && !cards[inds[a]].flipped;
    assert 0 <= j < |cards| && !cards[j].flipped;
    assert EmptyColumnAt(cards, j - 3);
  }

  /** On a hand's face-down indices, getBestInds finds a pair exactly when a column is empty. */
  lemma EmptyColumnIffBestInds(cards: seq<Card>)
    ensures |BestIndsOf(UnflippedInds(cards))| >= 2 <==> HasEmptyColumn(cards)
  {
    var inds := UnflippedInds(cards);
    BestIndsNonEmpty(inds);
    forall c | EmptyColumnAt(cards, c)
      ensures exists b :: PairAt(inds, b)
    {
      EmptyColumnGivesPair(cards, c);
    }
    forall b | PairAt(inds, b)
      ensures HasEmptyColumn(cards)
    {
      PairGivesEmptyColumn(cards, b);
    }
  }

  /** unflippedCol: true exactly when the current player has an empty column. */
  method UnflippedCol(g: Game) returns (r: bool)
    ensures r <==> HasEmptyColumn(g.currPlayer.cards)
  {
    var unflippedInds := GetUnflippedInds(g.currPlayer);
    var bestInds := GetBestInds(unflippedInds);
    EmptyColumnIffBestInds(g.currPlayer.cards);
    r := |bestInds| >= 2;
  }

  /** Slot x is face down and so is the slot 3 above or 3 below it: x is in an empty column. */
  predicate InEmptyColumn(cards: seq<Card>, x: int) {
    && 0 <= x < |cards| && !cards[x].flipped
    && ((3 <= x && !cards[x - 3].flipped) || (x + 3 < |cards| && !cards[x + 3].flipped))
  }

  /** A listed index is a face-down slot of the hand. */
  lemma ListedIsFaceDown(cards: seq<Card>, y: int)
    requires y in UnflippedInds(cards)
    ensures 0 <= y < |cards| && !cards[y].flipped
  {
    var inds := UnflippedInds(cards);
    var i :| 0 <= i < |inds| && inds[i] == y;
  }

  /** Every candidate getBestInds offers is a listed index with a listed index 3 away. */
  lemma CandidateIsPaired(inds: seq<int>, x: int)
    requires x in BestIndsOf(inds)
    ensures x in inds && (x - 3 in inds || x + 3 in inds)
  {
    var best := BestIndsOf(inds);
    var k :| 0 <= k < |best| && best[k] == x;
  }

  /** Every candidate getBestInds offers is a face-down card whose column partner is face down. */
  lemma CandidateHasEmptyPartner(cards: seq<Card>, x: int)
    requires x in BestIndsOf(UnflippedInds(cards))
    ensures InEmptyColumn(cards, x)
  {
    var inds := UnflippedInds(cards);
    CandidateIsPaired(inds, x);
    ListedIsFaceDown(cards, x);
    if x - 3 in inds {
      ListedIsFaceDown(cards, x - 3);
    } else {
      ListedIsFaceDown(cards, x + 3);
    }
  }

  /**
   * randSelectCardInd: fails when the player has no empty column; otherwise
   * the card at position `floor(rand * count)` of getBestInds' list, which is
   * face down and has a face-down column partner. `rand` stands for `Math.random()`.
   */
  method RandSelectCardInd(plyr: Player, rand: real) returns (r: Result<int>)
    requires 0.0 <= rand < 1.0
    ensures r.Err? <==> !HasEmptyColumn(plyr.cards)
    ensures r.Ok? ==> InEmptyColumn(plyr.cards, r.value)
  {
    var unflippedInds := GetUnflippedInds(plyr);
    var bestInds := GetBestInds(unflippedInds);
    EmptyColumnIffBestInds(plyr.cards);
    if |bestInds| < 2 {
      return Err("Only invoke randSelectCardInd with on a player with a\n      column with no cards flipped");
    }
    var k := ScaledFloor(rand, |bestInds|);
    var ind := bestInds[k];
    CandidateHasEmptyPartner(plyr.cards, ind);
    r := Ok(ind);
  }
}
