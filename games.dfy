/** Players, the game record, turn rotation and the score table. */
module Games {
  import opened Wrappers
  import opened Cards

  /** A seat: its name, its six-card hand and the card it has drawn this turn, if any. */
  datatype Player = Player(name: string, cards: seq<Card>, drawnCard: Option<Card>)

  /**
   * The parts of a game these helpers read: the seats in turn order, the seat
   * whose turn it is (the player itself, as the source keeps it) and the
   * cumulative score of each seat.
   */
  datatype Game = Game(players: seq<Player>, currPlayer: Player, scores: seq<int>)

  /** Score that no real cumulative score reaches; getWinnerInd starts from it. */
  const ScoreSentinel := 100000

  /** No seat appears twice, so value equality is seat identity. */
  ghost predicate Distinct(players: seq<Player>) {
    forall i, j :: 0 <= i < j < |players| ==> players[i] != players[j]
  }

  /** `Array.prototype.indexOf`: first position holding `p`, or -1. */
  function IndexOf(players: seq<Player>, p: Player): (i: int)
    ensures -1 <= i < |players|
    ensures i == -1 <==> p !in players
    ensures 0 <= i ==> players[i] == p && forall j :: 0 <= j < i ==> players[j] != p
  {
    if players == [] then -1
    else if players[0] == p then 0
    else
      var i := IndexOf(players[1..], p);
      if i == -1 then -1 else i + 1
  }

  /** getPlayerIndex: the seat's position in the game, -1 if it is not seated. */
  function GetPlayerIndex(g: Game, p: Player): (i: int)
    ensures -1 <= i < |g.players|
    ensures i == -1 <==> p !in g.players
    ensures 0 <= i ==> g.players[i] == p && forall j :: 0 <= j < i ==> g.players[j] != p
  {
    IndexOf(g.players, p)
  }

  /** On distinct seats, the position of the seat at k is k. */
  lemma IndexOfDistinct(players: seq<Player>, k: nat)
    requires Distinct(players) && k < |players|
    ensures IndexOf(players, players[k]) == k
  {
    var i := IndexOf(players, players[k]);
    assert i <= k;
  }

  /**
   * getNextPlayer: the seat after `player`, wrapping from the last seat to the
   * first; a player who is not seated also gets the first seat. `undefined`
   * (None) only when there are no seats.
   */
  function GetNextPlayer(players: seq<Player>, player: Player): (r: Option<Player>)
    ensures r.None? <==> players == []
    ensures r.Some? ==> r.value in players
    ensures player !in players && players != [] ==> r == Some(players[0])
  {
    var curr := IndexOf(players, player);
    if curr + 1 < |players| then Some(players[curr + 1])
    else if players != [] then Some(players[0])
    else None
  }

  /** Turn order is round-robin: the seat after seat k is seat k + 1, and after the last seat the first. */
  lemma NextPlayerRotation(players: seq<Player>, k: nat)
    requires Distinct(players) && k < |players|
    ensures GetNextPlayer(players, players[k]) == Some(players[if k + 1 < |players| then k + 1 else 0])
  {
    IndexOfDistinct(players, k);
  }

  /** The early-return scan of checkAllFlipped over a hand. */
  function AllFlipped(cards: seq<Card>): (r: bool)
    ensures r <==> forall i :: 0 <= i < |cards| ==> cards[i].flipped
  {
    if cards == [] then true
    else if !cards[0].flipped then false
    else
      assert forall i :: 1 <= i < |cards| ==> cards[i] == cards[1..][i - 1];
      AllFlipped(cards[1..])
  }

  /** checkAllFlipped: true exactly when every card of the current player is face up. */
  function CheckAllFlipped(g: Game): (r: bool)
    ensures r <==> forall i :: 0 <= i < |g.currPlayer.cards| ==> g.currPlayer.cards[i].flipped
  {
    AllFlipped(g.currPlayer.cards)
  }

  /**
   * getWinnerInd: the first seat holding the lowest score, so ties go to the
   * lowest seat; -1 when no score is below the sentinel 100000.
   */
  method GetWinnerInd(g: Game) returns (lowInd: int)
    ensures -1 <= lowInd < |g.scores|
    ensures lowInd == -1 <==> forall i :: 0 <= i < |g.scores| ==> g.scores[i] >= ScoreSentinel
    ensures 0 <= lowInd ==> g.scores[lowInd] < ScoreSentinel
    ensures 0 <= lowInd ==> forall i :: 0 <= i < |g.scores| ==> g.scores[lowInd] <= g.scores[i]
    ensures 0 <= lowInd ==> forall i :: 0 <= i < lowInd ==> g.scores[lowInd] < g.scores[i]
  {
    var lowScore := ScoreSentinel;
    lowInd := -1;
    for i := 0 to |g.scores|
      invariant -1 <= lowInd < i
      invariant lowInd == -1 ==> lowScore == ScoreSentinel
      invariant lowInd == -1 ==> forall j :: 0 <= j < i ==> g.scores[j] >= ScoreSentinel
      invariant 0 <= lowInd ==> lowScore == g.scores[lowInd] < ScoreSentinel
      invariant 0 <= lowInd ==> forall j :: 0 <= j < i ==> lowScore <= g.scores[j]
      invariant 0 <= lowInd ==> forall j :: 0 <= j < lowInd ==> lowScore < g.scores[j]
    {
      if g.scores[i] < lowScore {
        lowScore := g.scores[i];
        lowInd := i;
      }
    }
  }

  /** `Math.floor(rand * n)`: for `rand` in [0, 1) a position below n. */
  function ScaledFloor(rand: real, n: nat): (k: int)
    requires 0.0 <= rand < 1.0 && n > 0
    ensures 0 <= k < n
  {
    assert 0.0 <= rand * n as real;
    assert rand * n as real < n as real by {
      assert (1.0 - rand) * n as real > 0.0;
    }
    (rand * n as real).Floor
  }

  /**
   * randSelectPlayer: the seat at `floor(rand * count)`; `undefined` (None)
   * when there are no seats. `rand` stands for `Math.random()`.
   */
  function RandSelectPlayer(players: seq<Player>, rand: real): (r: Option<Player>)
    requires 0.0 <= rand < 1.0
    ensures r.None? <==> players == []
    ensures r.Some? ==> r.value in players
  {
    if players == [] then None else Some(players[ScaledFloor(rand, |players|)])
  }

  /** Every seat can be picked: a draw of k / count selects seat k. */
  lemma RandSelectPlayerReachesEverySeat(players: seq<Player>, k: nat)
    requires k < |players|
    ensures 0.0 <= k as real / |players| as real < 1.0
    ensures RandSelectPlayer(players, k as real / |players| as real) == Some(players[k])
  {
    var n := |players| as real;
    DivTimes(k as real, n);
    QuotientBelowOne(k as real, n);
  }

  /** Dividing by a positive real and multiplying back is the identity. */
  lemma DivTimes(a: real, n: real)
    requires n > 0.0
    ensures (a / n) * n == a
  {
  }

  /** A share of a larger positive real lies in [0, 1). */
  lemma QuotientBelowOne(a: real, n: real)
    requires 0.0 <= a < n
    ensures 0.0 <= a / n < 1.0
  {
    DivTimes(a, n);
  }
}
