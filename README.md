# Golf card game: rules and computer-player helpers

A model, in Dafny, of `utilities.ts` from the golf card game. In this game four seats each hold a six-card hand laid out as two rows of three. A column is slots `i` and `i + 3`. A card scores its point value: KING 0, ACE 1, numerals their face value, JACK and QUEEN 10. The lowest cumulative score wins. The library is a set of small helpers:

- turn rotation, the "all flipped" test and the winner lookup (`games.dfy`);
- the point value of a card (`cards.dfy`);
- the ids of the card-space elements on the page, and reading a card index back from such an id (`ids.dfy`);
- the computer player's heuristics:
  - finding the "empty columns" to flip a card in (`flip.dfy`);
  - matching a card, ranking its swappable cards, the cheapest column to complete, the values the next seat wants, which card to swap out, and what to do "in a pinch" (`swap.dfy`).

Modelling choices:

- A card's value is the datatype `Rank`. `RankName` gives the string the deck service uses. `numberifyVal` is modelled on strings, including its `NaN` result for a string that is neither a face name nor a run of digits.
- `game.currPlayer` is the player object itself, as the code keeps it and looks it up with `indexOf`. Seats are compared by value. Where identity matters, a lemma assumes that the seats are distinct.
- Parameters that default to `game.currPlayer` are passed explicitly. Where the game served only to supply that default, it is dropped.
- `Math.random()` is a parameter `rand` in `[0, 1)`. Each `chanceTrue(p)` outcome is a boolean parameter.
- `getBestToSwap` removes entries from the front of its argument array, which the caller owns. That array is the class `EntryList`.
- The six loops `getWinnerInd`, `getUnflippedInds`, `getBestInds`, `sortVals`, `getLowColPoints` and `getBadVals` are methods whose loops carry invariants. Each is proved against a specification function or an explicit post-state.

## Model

| member | source | states |
|---|---|---|
| Cards.NumberifyVal | utilities.ts:71-90 | KING gives 0, ACE 1, JACK and QUEEN 10, and a one-digit string its digit. Any other string gives a number exactly when it is a non-empty run of digits, and NaN (None) otherwise; this is narrower than JavaScript (see Left out). |
| Cards.Points | utilities.ts:71-90 | Every rank scores at most 10, and only KING scores 0. |
| Cards.NumberifyValOfRank | utilities.ts:71-90 | numberifyVal on the name of any of the thirteen ranks gives that rank's points, never NaN, so every dealt card scores 0 to 10. |
| Cards.RankNameInjective | utilities.ts:239 | Distinct ranks have distinct names, so comparing `value` strings compares ranks. |
| Cards.PartnerInvolution | utilities.ts:240 | The partner map `i < 3 ? i + 3 : i - 3` sends 0..5 into 0..5 and never to itself. It is an involution and keeps `i % 3`, the column. |
| Games.GetPlayerIndex | utilities.ts:137-139 | The first seat equal to the player, or -1 exactly when the player is not seated. |
| Games.IndexOfDistinct | utilities.ts:137-139 | On distinct seats, the index of seat k is k. |
| Games.GetNextPlayer | utilities.ts:22-29 | Undefined (None) only with no seats. Otherwise a seated player. A player who is not seated gets seat 0. |
| Games.NextPlayerRotation | utilities.ts:22-29 | On distinct seats the player after seat k is seat k + 1, and after the last seat it is seat 0. |
| Games.CheckAllFlipped | utilities.ts:37-45 | True exactly when every card of the current player is face up. |
| Games.GetWinnerInd | utilities.ts:53-63 | -1 exactly when no score is below 100000. Otherwise the chosen score is below 100000 and no greater than any score, and every earlier seat has a strictly higher score, so ties go to the lowest seat. |
| Games.ScaledFloor | utilities.ts:165 | `Math.floor(rand * n)` with rand in [0, 1) is a valid position below n. |
| Games.RandSelectPlayer | utilities.ts:9-12 | Undefined (None) exactly when there are no seats. Otherwise one of the seats. |
| Games.RandSelectPlayerReachesEverySeat | utilities.ts:9-12 | Every seat k is picked by the draw k / count. |
| CardSpaceIds.DecimalString | utilities.ts:116 | A number in a template string is a non-empty digit string that reads back as that number. It has one digit below 10 and two digits from 10 to 99. |
| CardSpaceIds.GetCardSpaceId | utilities.ts:112-117 | The id is `p`, then digits that read back as the seat's index plus 1, then `-`, then digits that read back as the card index. |
| CardSpaceIds.GetIndFromCardSpaceId | utilities.ts:98-100 | A number exactly when the id has a digit at position 3, and then it is that digit's value. Otherwise NaN (None), including for whitespace at position 3 (see Left out). |
| CardSpaceIds.CardSpaceIdRoundTrip | utilities.ts:98-117 | Reading back the id of card i (i < 10) gives i when the seat's position is one digit. From the tenth to the ninety-ninth seat, it gives NaN. |
| CardSpaceIds.GetDrawnCardSpaceId | utilities.ts:125-127 | The id is `drawn-card-` followed by digits that read back as the current seat's index plus 1. |
| CardSpaceIds.DrawnAndHandIdsDiffer | utilities.ts:112-127 | A drawn-card space id never equals a hand card space id. |
| FlipSelection.UnflippedInds | utilities.ts:200-210 | Every listed index is a face-down slot of the hand. |
| FlipSelection.UnflippedIndsIncreasing | utilities.ts:203-207 | The face-down indices are listed in strictly increasing order. |
| FlipSelection.UnflippedIndsComplete | utilities.ts:203-207 | Every face-down slot is listed. |
| FlipSelection.GetUnflippedInds | utilities.ts:200-210 | The loop pushes exactly the list UnflippedInds specifies. |
| FlipSelection.BestIndsOf | utilities.ts:176-190 | The list has even length. Each element is taken from the input and has its value minus 3 or plus 3 in the input. |
| FlipSelection.BestIndsPairs | utilities.ts:182-185 | The list is made of consecutive pairs (j, j - 3). |
| FlipSelection.GetBestInds | utilities.ts:176-190 | The loop with its `passedInds` record builds exactly the list BestIndsOf specifies. |
| FlipSelection.BestIndsNonEmpty | utilities.ts:176-190 | The list has at least one pair exactly when some index has its value minus 3 earlier in the input. |
| FlipSelection.EmptyColumnIffBestInds | utilities.ts:218-222 | On a hand's face-down indices, getBestInds finds a pair exactly when some column has both cards face down. |
| FlipSelection.UnflippedCol | utilities.ts:218-222 | True exactly when the current player has a column with both cards face down. |
| FlipSelection.CandidateHasEmptyPartner | utilities.ts:154-166 | Every candidate is a face-down slot whose column partner is face down. |
| FlipSelection.RandSelectCardInd | utilities.ts:154-166 | Throws (Err) exactly when the player has no column with both cards face down. Otherwise returns a face-down slot whose column partner is also face down. |
| SwapHeuristics.MatchFrom | utilities.ts:238-244 | The scan from slot i finds a match exactly when one exists at or after i. It then returns the partner of the first such slot, and otherwise -1. |
| SwapHeuristics.CheckForMatch | utilities.ts:235-245 | `[true, partner(i)]` for the first flipped, unlocked slot i of equal value. `[false, -1]` exactly when there is none. |
| SwapHeuristics.MatchCompletesColumn | utilities.ts:235-245 | On a six-card hand the returned slot is in the hand, and its partner holds the matching card. |
| SwapHeuristics.SwappableEntries | utilities.ts:259-264 | Each entry names a flipped, unlocked slot holding that value. The entries are in slot order. |
| SwapHeuristics.SwappableEntriesComplete | utilities.ts:259-264 | An entry is listed exactly when its slot is flipped, unlocked and holds its value. |
| SwapHeuristics.InsertByPoints | utilities.ts:265-271 | Inserting into a list sorted by non-increasing points keeps it sorted and adds exactly that entry. |
| SwapHeuristics.SortByPoints | utilities.ts:265-271 | The result is sorted by non-increasing points and is a permutation of the input. |
| SwapHeuristics.SortVals | utilities.ts:256-273 | Exactly the (value, index) pairs of the current player's flipped, unlocked cards, as a permutation, sorted by non-increasing points. |
| SwapHeuristics.GetLowColPoints | utilities.ts:286-302 | Returns `[21, -1]` exactly when no card is flipped and unlocked. Otherwise returns the minimum of `points(c) + points(card)` over such cards c, with the partner of the first card that attains it. |
| SwapHeuristics.WantedVals | utilities.ts:313-317 | A value is in the set exactly when some flipped, unlocked card holds it. |
| SwapHeuristics.GetBadVals | utilities.ts:310-319 | The keys are exactly the values of the next seat's flipped, unlocked cards, each mapped to 1. |
| SwapHeuristics.SwapPick | utilities.ts:346-352 | Picks the first entry whose value the next seat does not want or whose 5% override fired. Every entry before it was rejected. |
| SwapHeuristics.BestToSwapIsCostliestSafe | utilities.ts:321-355 | Without the override, on sorted entries, the pick is the entry worth the most among those not wanted. It is none exactly when every value is wanted. |
| SwapHeuristics.GetBestToSwap | utilities.ts:333-355 | Returns the entry at SwapPick, or undefined. The caller's array is left starting at that entry, or holding only its last entry when nothing was picked. |
| SwapHeuristics.GetIndInPinch | utilities.ts:367-376 | -1 exactly when the list is empty, or when the drawn value exceeds 7 and the 75% coin came up. Otherwise a slot index. |
| SwapHeuristics.PinchTakesAcrossLowest | utilities.ts:367-376 | On sorted entries from a six-card hand, the slot returned is in the hand. It lies across from a card whose points are the lowest among the entries. |

## Left out

- ui.ts (DOM rendering and message timing), main.ts (start-up) and models.ts (placeholder classes whose fields the code does not use) are not part of this model. The `Game`/`Player` methods that deal and draw through the remote deck service are not part of this model either.
- `Math.random()` and `chanceTrue`: randomness enters as parameters, a real `rand` in [0, 1) or one boolean per coin. The model does not capture that the draws are uniform, and it does not capture floating-point rounding of `rand * n`.
- `chanceTrue` is not a separate member. Each of its outcomes is the boolean parameter `coin` or an element of `overrides`.
- Cards.NumberifyVal: JavaScript's `Number` is modelled only for runs of decimal digits. Inputs such as the empty string, whitespace, signs, decimals and hexadecimal are reported as NaN, although `Number` accepts some of them (`Number("")` and `Number(" ")` are 0). Card values are always one of the thirteen rank names.
- Games.GetPlayerIndex: `indexOf` compares objects by identity, and the model compares seats by value. Lemmas that depend on identity require the seats to be distinct.
- SwapHeuristics.SortVals: the comparator in the source never returns 0, so the order of equal-point entries depends on the JavaScript engine. The model sorts stably and states only sortedness and permutation. It also sorts a sequence rather than the array in place.
- SwapHeuristics.GetBadVals: the source's doc comment says "unflipped" cards. The code keeps flipped, unlocked cards, and the model follows the code. The record keys are the value strings, and the model keys by rank, which is equivalent because `RankNameInjective` holds. A game with no seats is excluded, because the source then reads `cards` of `undefined`.
- SwapHeuristics.GetBestToSwap: a game with no seats is excluded for every input, although the source returns `undefined` without reaching getBadVals when the list is empty.
- CardSpaceIds.GetIndFromCardSpaceId: when character 3 of the id is whitespace, `Number` gives 0 in JavaScript, but the model gives NaN (None), following the digits-only reading of `Number`. Ids built by getCardSpaceId never have whitespace there.
- SwapHeuristics.GetBestToSwap: the default argument `sortVals(game)` is not modelled; the caller passes the sorted list.
- SwapHeuristics.GetIndInPinch: the source takes `drawnVal` as an arbitrary number. The model uses integers.
