/**
 * Ids of the card spaces on the page: `p{position}-{card index}`, where the
 * position is the seat's 1-based place in the game. The index is read back
 * from character 3 of the id.
 */
module CardSpaceIds {
  import opened Wrappers
  import opened Cards
  import opened Games

  /** A number rendered in a template string: its decimal digits. */
  function DecimalString(n: nat): (s: string)
    ensures |s| >= 1 && AllDigits(s)
    ensures n < 10 <==> |s| == 1
    ensures 10 <= n < 100 <==> |s| == 2
    ensures DecimalValue(s) == n
  {
    if n < 10 then
      var s := [DigitChar(n)];
      assert s[..0] == [];
      s
    else
      var s := DecimalString(n / 10) + [DigitChar(n % 10)];
      assert s[..|s| - 1] == DecimalString(n / 10);
      s
  }

  /** getCardSpaceId: the id of a seat's card space, `p{index + 1}-{cardInd}`. */
  function GetCardSpaceId(cardInd: nat, g: Game, player: Player): (id: string)
    ensures |id| >= 4 && id[0] == 'p'
    ensures var m := |DecimalString(GetPlayerIndex(g, player) + 1)| + 1;
            && m < |id| && id[m] == '-'
            && AllDigits(id[1..m]) && DecimalValue(id[1..m]) == GetPlayerIndex(g, player) + 1
            && AllDigits(id[m + 1..]) && DecimalValue(id[m + 1..]) == cardInd
  {
    var pos := DecimalString(GetPlayerIndex(g, player) + 1);
    var id := "p" + pos + "-" + DecimalString(cardInd);
    assert id[1..|pos| + 1] == pos;
    assert id[|pos| + 2..] == DecimalString(cardInd);
    id
  }

  /** getIndFromCardSpaceId: `Number(id[3])`, NaN (None) when the id is shorter or that character is not a digit. */
  function GetIndFromCardSpaceId(id: string): (r: Option<nat>)
    ensures r.Some? <==> |id| > 3 && '0' <= id[3] <= '9'
    ensures r.Some? ==> r.value == id[3] as int - '0' as int
  {
    if |id| <= 3 then None
    else
      var c := [id[3]];
      assert c[..0] == [];
      assert AllDigits(c) ==> DecimalValue(c) == id[3] as int - '0' as int;
      NumberOf(c)
  }

  /**
   * Reading the card index back from the id returns the index whenever it is a
   * single digit and the seat's position is a single digit; a two-digit position
   * (the tenth to the ninety-ninth seat) shifts the index away from character 3
   * and the read gives NaN.
   */
  lemma {:induction false} CardSpaceIdRoundTrip(cardInd: nat, g: Game, player: Player)
    requires cardInd < 10
    requires GetPlayerIndex(g, player) < 99
    ensures GetPlayerIndex(g, player) < 9 ==> GetIndFromCardSpaceId(GetCardSpaceId(cardInd, g, player)) == Some(cardInd)
    ensures GetPlayerIndex(g, player) >= 9 ==> GetIndFromCardSpaceId(GetCardSpaceId(cardInd, g, player)) == None
  {
    var pos := DecimalString(GetPlayerIndex(g, player) + 1);
    var ind := DecimalString(cardInd);
    var id := GetCardSpaceId(cardInd, g, player);
    assert id == "p" + pos + "-" + ind;
    if GetPlayerIndex(g, player) < 9 {
      assert id[3] == ind[0];
      assert [id[3]] == ind;
    } else {
      assert id[3] == '-';
    }
  }

  /** getDrawnCardSpaceId: `drawn-card-{index + 1}` for the current player; a seat that is not found gives `drawn-card-0`. */
  function GetDrawnCardSpaceId(g: Game): (id: string)
    ensures |id| >= 12 && id[..11] == "drawn-card-"
    ensures AllDigits(id[11..]) && DecimalValue(id[11..]) == GetPlayerIndex(g, g.currPlayer) + 1
  {
    var id := "drawn-card-" + DecimalString(GetPlayerIndex(g, g.currPlayer) + 1);
    assert id[11..] == DecimalString(GetPlayerIndex(g, g.currPlayer) + 1);
    id
  }

  /** A drawn-card space id is never a hand card space id, so the two kinds of element never share an id. */
  lemma DrawnAndHandIdsDiffer(cardInd: nat, g: Game, player: Player)
    ensures GetDrawnCardSpaceId(g) != GetCardSpaceId(cardInd, g, player)
  {
    assert GetDrawnCardSpaceId(g)[0] == 'd';
  }
}
