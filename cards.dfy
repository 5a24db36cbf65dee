/** Option and Result, used where the source returns `undefined`, NaN or throws. */
module Wrappers {
  datatype Option<T> = None | Some(value: T)

  datatype Result<T> = Ok(value: T) | Err(message: string)
}

/** Cards, their point values and the 2x3 hand layout. */
module Cards {
  import opened Wrappers

  /** Face value of a numeral card. */
  type PipFace = n: int | 2 <= n <= 10 witness 2

  /** The thirteen ranks the deck service deals. */
  datatype Rank = King | Ace | Jack | Queen | Pip(face: PipFace)

  /** A dealt card: its value and its monotonic flip/lock state. */
  datatype Card = Card(value: Rank, flipped: bool, locked: bool)

  /** A card the computer player may still swap out: face up and not in a locked column. */
  predicate Swappable(c: Card) {
    c.flipped && !c.locked
  }

  function DigitChar(d: nat): (c: char)
    requires d < 10
    ensures '0' <= c <= '9' && c as int - '0' as int == d
  {
    ('0' as int + d) as char
  }

  /** The deck service's spelling of a rank, which is what the source stores in `value`. */
  function RankName(r: Rank): string {
    match r
    case King => "KING"
    case Ace => "ACE"
    case Jack => "JACK"
    case Queen => "QUEEN"
    case Pip(n) => if n == 10 then "10" else [DigitChar(n)]
  }

  predicate AllDigits(s: string) {
    forall k :: 0 <= k < |s| ==> '0' <= s[k] <= '9'
  }

  /** Value of a string of decimal digits. */
  function DecimalValue(s: string): nat
    requires AllDigits(s)
  {
    if s == [] then 0
    else DecimalValue(s[..|s| - 1]) * 10 + (s[|s| - 1] as int - '0' as int)
  }

  /**
   * JavaScript's `Number(s)`, restricted to the strings this program feeds it:
   * a non-empty run of decimal digits gives its value, anything else gives NaN (None).
   */
  function NumberOf(s: string): (r: Option<nat>)
    ensures r.Some? <==> s != [] && AllDigits(s)
  {
    if s != [] && AllDigits(s) then Some(DecimalValue(s)) else None
  }

  /** numberifyVal: KING, ACE, JACK and QUEEN by name, everything else through Number. */
  function NumberifyVal(val: string): (r: Option<nat>)
    ensures val == "KING" ==> r == Some(0)
    ensures val == "ACE" ==> r == Some(1)
    ensures val == "JACK" || val == "QUEEN" ==> r == Some(10)
    ensures |val| == 1 && '0' <= val[0] <= '9' ==> r == Some(val[0] as int - '0' as int)
    ensures val != "KING" && val != "ACE" && val != "JACK" && val != "QUEEN" ==>
              (r.None? <==> val == [] || !AllDigits(val))
  {
    match val
    case "KING" => Some(0)
    case "ACE" => Some(1)
    case "JACK" => Some(10)
    case "QUEEN" => Some(10)
    case _ =>
      if |val| == 1 && '0' <= val[0] <= '9' then
        assert val[..0] == [] && AllDigits(val);
        assert DecimalValue(val) == val[0] as int - '0' as int;
        NumberOf(val)
      else
        NumberOf(val)
  }

  /** Point value of a card's rank: KING 0, ACE 1, numerals their face, JACK and QUEEN 10. */
  function Points(r: Rank): (p: nat)
    ensures p <= 10
    ensures p == 0 <==> r == King
  {
    match r
    case King => 0
    case Ace => 1
    case Jack => 10
    case Queen => 10
    case Pip(n) => n
  }

  /** numberifyVal on a rank's name gives that rank's points, so every dealt card scores 0 to 10. */
  lemma NumberifyValOfRank(r: Rank)
    ensures NumberifyVal(RankName(r)) == Some(Points(r))
  {
    match r
    case Pip(n) =>
      if n == 10 {
        assert "10"[..1] == "1" && "1"[..0] == [];
      } else {
        assert RankName(r) == [DigitChar(n)];
      }
    case _ =>
  }

  /** Distinct ranks have distinct names, so comparing values as strings is comparing ranks. */
  lemma RankNameInjective(r1: Rank, r2: Rank)
    requires RankName(r1) == RankName(r2)
    ensures r1 == r2
  {
    if r1.Pip? && r2.Pip? && r1.face != 10 && r2.face != 10 {
      assert RankName(r1)[0] == RankName(r2)[0];
    }
  }

  /** The other slot of the same column: `i < 3 ? i + 3 : i - 3`. */
  function Partner(i: int): int {
    if i < 3 then i + 3 else i - 3
  }

  /** On a six-card hand the partner map stays in the hand, is an involution and keeps the column. */
  lemma PartnerInvolution(i: int)
    requires 0 <= i < 6
    ensures 0 <= Partner(i) < 6
    ensures Partner(i) != i
    ensures Partner(Partner(i)) == i
    ensures Partner(i) % 3 == i % 3
  {
  }
}
