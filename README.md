# Two-player Yahtzee: scoring engine and turn state machine

This project models the core of a two-player Yahtzee game written as a
Streamlit application (`streamlit_app.py`), and proves properties of the model.

- `rules.dfy` (module `Rules`) is the scoring engine. It has:
  - the thirteen categories and the upper-face table;
  - five dice and the re-roll of the dice that are not held;
  - `score_category`, the score of one roll in one category;
  - `score_totals`, the upper subtotal, 35-point bonus, lower subtotal and
    grand total of a scorecard.

  Everything in it is a pure function.
- `turns.dfy` (module `Turns`) is the turn state machine. The session
  state is the class `Game`, with the fields `players`, `current`,
  `turnsUsed`, `scorecards`, `available`, `dice`, `holds`, `rollsLeft` and
  `phase`. Its methods are the handlers `new_game`, `toggle_hold`,
  `do_roll`, `go_score`, `switch_to_next_player` and
  `finish_and_pass_turn`. They update those fields in place, with the
  same loop and early returns as the source.

  Each method's contract ties its new state, `State()`, to a pure
  transition function of the old state (`StartGame`, `ToggleStep`,
  `RollStep`, `ScoreStep`, `SwitchStep`, `RecordStep`, `FinishStep`).
  Lemmas then prove what the game promises about these functions. Chiefly,
  they preserve the session invariant `Inv`:
  - each player's scorecard, available categories and turn count agree;
  - `rollsLeft` stays in 0..3;
  - only positions 0..4 of the five dice are ever held;
  - the phase is "done" exactly when every player has used all 13 turns;
  - otherwise the current player still has turns.

  The next-player search is proved against the recursive reference
  function `FirstActive`, and against the declarative `NextActive` ("the
  first seat after the current one, going round the table, whose player
  has turns left").
- `endgame.dfy` (module `Endgame`) is the end-of-game banner. It takes the
  grand totals in player order. The position of the first highest total
  (Python's `max`) wins, unless that total occurs more than once, which is
  a tie.

Every random draw is an argument of type `Dice`:
- `roll_all()` becomes the `roll` argument of start-of-turn operations;
- the fresh values of `roll_selected` become the `drawn` argument, and only
  its free positions are used.

Two behaviours are modelled as the code has them, although a stricter game
engine would guard them:
- `finish_and_pass_turn` checks no phase. It needs only that the chosen
  category is still available to the current player, since `list.remove`
  fails otherwise.
- The Score button (`go_score`) is disabled only in phase "scoring". It is
  not a no-op outside "rolling" (see Findings).

## Model

| member | source | states |
|---|---|---|
| Rules.CategoriesAreDistinct | streamlit_app.py:8-12 | thirteen categories, none repeated |
| Rules.CategoriesComplete | streamlit_app.py:8-13 | every category is on the card, and the upper ones are exactly the first six |
| Rules.UpperFaces | streamlit_app.py:13 | each upper category counts a face 1..6, and different upper categories count different faces |
| Rules.UpperCategory | streamlit_app.py:13 | for every face there is the upper category that counts it (inverse of the face table) |
| Rules.UpperCategoryOfFace | streamlit_app.py:13 | the face table is one-to-one: the category of a category's face is that category |
| Rules.Position | streamlit_app.py:8-13 | each category has a place in scorecard order, which holds it; upper categories come before place 6 |
| Rules.RollSelected | streamlit_app.py:18-19 | a held position keeps its die and every other position takes the freshly drawn value |
| Rules.RollSelectedExtremes | streamlit_app.py:15-19 | holding nothing gives a fresh roll of every die; holding all five keeps the dice |
| Rules.Count | streamlit_app.py:34 | Counter(dice)[v]: at most the number of dice, positive exactly when v is shown |
| Rules.CountIsMultiplicity | streamlit_app.py:34 | the count of v is the multiplicity of v in the multiset of the dice |
| Rules.CountAll | streamlit_app.py:50-51 | v occurs on every die exactly when its count is the number of dice |
| Rules.MaxCount | streamlit_app.py:35 | max(counts.values()) is the count of some die shown, no value occurs more often, and it lies in 1..5 |
| Rules.MaxCountAtLeast | streamlit_app.py:35-43 | the largest count reaches k exactly when some value shows at least k times |
| Rules.Sum | streamlit_app.py:36 | sum(dice): the total of the pips shown |
| Rules.SumOfDiceBounds | streamlit_app.py:36 | the sum of the dice lies between their number and six times their number |
| Rules.ScoreUpper | streamlit_app.py:29-30 | score_upper: the sum of those dice that show the face |
| Rules.ScoreUpperIsFaceTimesCount | streamlit_app.py:29-30 | score_upper is the face times the number of dice showing it |
| Rules.UpperScoreBounds | streamlit_app.py:29-30 | score_upper of a face lies between 0 and 5 times the face |
| Rules.ScoreCategory | streamlit_app.py:32-54 | every category scores between 0 and 50 |
| Rules.UpperCategoryScore | streamlit_app.py:38-39 | an upper category scores face × count, a multiple of the face, between 0 and 5·face |
| Rules.ThreeOfAKindScore | streamlit_app.py:40-41 | Three of a Kind scores the sum of the dice when some value shows three times, else 0 |
| Rules.FourOfAKindScore | streamlit_app.py:42-43 | Four of a Kind scores the sum of the dice when some value shows four times, else 0 |
| Rules.ChanceScore | streamlit_app.py:52-53 | Chance scores the sum of the dice, which lies in 5..30 |
| Rules.ValueCounts | streamlit_app.py:34-35 | Counter(dice).values(): one count per face shown, as a multiset, since only their sorted order is ever used |
| Rules.ValueCountsAreCounts | streamlit_app.py:34-45 | Counter(dice).values() holds exactly the positive counts of values shown |
| Rules.CountProfileMember | streamlit_app.py:34-45 | a count is in the profile over some faces exactly when one of those faces shows that many times |
| Rules.IsFullHouse | streamlit_app.py:45 | sorted(counts.values()) == [2, 3]: the multiset of counts is exactly {2, 3} |
| Rules.FullHouseCounts | streamlit_app.py:44-45 | sorted counts are [2, 3] exactly when one value shows three times and another twice |
| Rules.FullHouseProfile | streamlit_app.py:44-45 | a triple and a pair of another value make the counts [2, 3] |
| Rules.OnlyTwoValues | streamlit_app.py:44-45 | with a triple and a pair no third value is shown |
| Rules.FullHouseExactly | streamlit_app.py:44-45 | Full House scores 0 or 25, and 25 exactly when one value shows three times and another twice |
| Rules.FiveOfAKindIsNoFullHouse | streamlit_app.py:44-45 | five of a kind scores 0 as a Full House |
| Rules.YahtzeeExactly | streamlit_app.py:50-51 | Yahtzee scores 0 or 50, and 50 exactly when all five dice are equal |
| Rules.Values | streamlit_app.py:22 | set(dice): the distinct values shown |
| Rules.IsSmallStraight | streamlit_app.py:21-23 | set(dice) contains 1-4, 2-5 or 3-6 |
| Rules.IsLargeStraight | streamlit_app.py:25-27 | set(dice) is exactly 1-5 or exactly 2-6 |
| Rules.LargeStraightIsSmallStraight | streamlit_app.py:21-27 | every large straight is a small straight |
| Rules.FiveDistinctValues | streamlit_app.py:25-27 | five dice showing five distinct values show each of them exactly once |
| Rules.SameCountsSameMultiset | streamlit_app.py:34 | two rolls with the same counts are permutations of each other |
| Rules.ValuesAsMultiset | streamlit_app.py:25-27 | five dice whose value set is five distinct values are a permutation of those values |
| Rules.LargeStraightToPermutation | streamlit_app.py:25-27 | a large straight is a permutation of 1..5 or of 2..6 |
| Rules.PermutationToLargeStraight | streamlit_app.py:25-27 | every permutation of 1..5 or of 2..6 is a large straight |
| Rules.LargeStraightIsPermutation | streamlit_app.py:25-27 | a roll is a large straight exactly when it is a permutation of 1..5 or of 2..6 |
| Rules.StraightScores | streamlit_app.py:46-49 | the straights score 30 and 40 exactly when their tests hold, and a scoring large straight also scores as a small one |
| Rules.StraightExamples | streamlit_app.py:21-49 | [1,2,3,4,4] is no large straight, [2,3,4,5,6] scores 40 and [1,1,2,3,4] scores 30 as a small straight |
| Rules.EmptyCard | streamlit_app.py:70 | a fresh card lists every category, all unscored |
| Rules.Scored | streamlit_app.py:57-58 | what one entry adds to a subtotal: its value, or 0 while it is None |
| Rules.UpperSum | streamlit_app.py:57 | upper_total: the sum of the scored entries of the six upper categories |
| Rules.LowerSum | streamlit_app.py:58 | lower_total: the sum of the scored entries of the seven lower categories |
| Rules.ScoreTotals | streamlit_app.py:56-61 | the bonus is 35 exactly when the upper subtotal reaches 63, and the grand total is upper + bonus + lower |
| Rules.EmptyCardTotals | streamlit_app.py:56-61 | None entries count as 0, so a fresh card totals 0 everywhere |
| Rules.ScoredAfterRecord | streamlit_app.py:57-58 | entering v in an unscored category adds v to that category's contribution and nothing elsewhere |
| Rules.UpperSumAfterRecord | streamlit_app.py:57 | entering v raises the upper subtotal by v for an upper category and leaves it for a lower one |
| Rules.LowerSumAfterRecord | streamlit_app.py:58 | entering v raises the lower subtotal by v for a lower category and leaves it for an upper one |
| Rules.RecordingAScore | streamlit_app.py:56-61 | entering a score changes only its side's subtotal, and a non-negative score never lowers the grand total |
| Endgame.FirstArgMax | streamlit_app.py:248 | max(totals, key=totals.get): a highest total, and the first position holding it |
| Endgame.TwoOccurrences | streamlit_app.py:250 | count(v) > 1 exactly when two different positions hold v |
| Endgame.GameOutcome | streamlit_app.py:244-255 | every total is at most the banner's total; a winner holds it and everyone else has less; a tie has two players holding it |
| Endgame.TieExactly | streamlit_app.py:250-253 | the banner is a tie exactly when the highest total is shared by two players |
| Endgame.TwoPlayerOutcome | streamlit_app.py:244-255 | with two players, equal totals tie and otherwise the higher total wins |
| Turns.AllCategoriesComplete | streamlit_app.py:71 | CATEGORIES.copy() holds every category, 13 in all |
| Turns.DistinctCardinality | streamlit_app.py:71 | a list without repetitions has as many members as entries |
| Turns.FreshPlayerConsistent | streamlit_app.py:68-71 | a new player's card, available set and turn count agree |
| Turns.Finished | streamlit_app.py:110 | all(turns_used[p] >= 13 for p in players), the game-over test of lines 110 and 137 |
| Turns.TurnsBounded | streamlit_app.py:137 | a player never has more than 13 turns, and has 13 exactly when nothing is left to score |
| Turns.RecordKeepsConsistent | streamlit_app.py:132-134 | entering a score in an available category keeps card, available set and turn count in agreement |
| Turns.ZeroTurns | streamlit_app.py:69 | {p: 0 for p in players}: every listed player at 0 turns |
| Turns.EmptyCards | streamlit_app.py:70 | {p: {cat: None ...} for p in players}: every listed player with an empty card |
| Turns.FullAvailability | streamlit_app.py:71 | {p: CATEGORIES.copy() for p in players}: every listed player with all categories open |
| Turns.FreshRecords | streamlit_app.py:67-71 | the tables of new_game agree, and nobody has finished |
| Turns.RecordTurn | streamlit_app.py:130-134 | recording a score keeps all players' tables in agreement |
| Turns.Seat | streamlit_app.py:120 | the seat after a seat exists |
| Turns.SeatIsSuccessorMod | streamlit_app.py:107 | (i + 1) % len(players) is the next seat round the table |
| Turns.CycleValue | streamlit_app.py:116-121 | within one round the count wraps past the last seat at most once |
| Turns.CycleCovers | streamlit_app.py:116-121 | len(players) steps round the table visit every seat |
| Turns.NoneActiveAfterFullCircle | streamlit_app.py:109-121 | if nobody at any seat has turns left, every player has finished |
| Turns.FirstActive | streamlit_app.py:116-121 | the loop's search yields an existing seat |
| Turns.FirstActiveFinds | streamlit_app.py:109-121 | unless everybody has finished, the search yields the first seat after the current one whose player has turns left |
| Turns.NextActiveUnique | streamlit_app.py:116-121 | that next active seat is unique |
| Turns.TwoPlayersAlternate | streamlit_app.py:104-126 | with two players the turn goes to the other one whenever they still have turns |
| Turns.Toggled | streamlit_app.py:179-183 | clicking die i flips the membership of i in the hold set and of nothing else |
| Turns.ToggleTwice | streamlit_app.py:179-183 | clicking the same die twice restores the hold set |
| Turns.RemainingAfterUse | streamlit_app.py:133 | using an available category lowers the number of categories left to all players by one |
| Turns.RemainingUnchanged | streamlit_app.py:133 | the number left depends only on the listed players' sets |
| Turns.NothingRemaining | streamlit_app.py:137 | when nobody has a category left, none is left in all |
| Turns.StartGame | streamlit_app.py:66-76 | new_game: the two default players, player 0 to move, the three fresh tables, the opening roll, no holds, three rolls and phase rolling |
| Turns.StartGameValid | streamlit_app.py:66-76 | a new game satisfies the invariant, and its first turn has started with the first player: three rolls, nothing held, the dice of the opening roll |
| Turns.StartGameRows | streamlit_app.py:68-71 | in a new game nobody has played, every category is open and every grand total is 0 |
| Turns.ToggleStep | streamlit_app.py:179-183 | toggle_hold(i): the hold set with i flipped, everything else kept |
| Turns.ToggleStepValid | streamlit_app.py:179-190 | clicking one of the five dice (the only positions the page offers) changes only the holds and keeps the invariant, holds included |
| Turns.RollStep | streamlit_app.py:195-201 | do_roll: unchanged without rolls or outside rolling; else one roll fewer, the free dice re-drawn, and scoring once no roll is left |
| Turns.RollStepValid | streamlit_app.py:195-201 | do_roll is a no-op without rolls left or outside rolling; otherwise it spends one roll, keeps the held dice, draws the free ones and enters scoring exactly when no roll is left; nothing else changes and the invariant holds |
| Turns.ThreeRollsPerTurn | streamlit_app.py:195-201 | from the start of a turn three rolls reach scoring with no roll left, and a fourth changes nothing |
| Turns.ScoreStep | streamlit_app.py:208-210 | go_score as intended: phase scoring, except that a finished game stays done |
| Turns.ScoreStepValid | streamlit_app.py:208-210 | the corrected go_score enters scoring, leaves a finished game finished, changes nothing else and keeps the invariant |
| Turns.ScoreStepAsWritten | streamlit_app.py:208-209 | go_score as written: phase scoring, whatever the phase was |
| Turns.ScoreStepAsWrittenReopens | streamlit_app.py:208-231 | go_score as written, pressed after the game is over, gives phase "scoring" with every player finished, so the invariant breaks and the picker has no category |
| Turns.ScoreStepsAgreeBeforeTheEnd | streamlit_app.py:208-210 | before the game is over the written and the corrected go_score agree |
| Turns.NothingLeftWhenDone | streamlit_app.py:137 | once the game is done every player has used 13 turns and has no category left |
| Turns.SwitchStep | streamlit_app.py:104-126 | switch_to_next_player: done when everyone has finished, else the seat the loop finds with three rolls, no holds, a fresh roll and phase rolling |
| Turns.SwitchStepValid | streamlit_app.py:104-126 | if everyone has finished the phase becomes done and nothing else changes; otherwise the next active player's turn starts with three rolls, no holds, a fresh roll and phase rolling; the tables are untouched and the invariant holds |
| Turns.RecordStep | streamlit_app.py:130-134 | the three updates of finish_and_pass_turn: the score of the dice entered in cat, cat removed from the available set, one more turn used |
| Turns.RecordStepRows | streamlit_app.py:130-134 | the current player's card gets the score of the dice in cat, cat leaves their available set, and their turn count grows by one |
| Turns.RecordStepOthers | streamlit_app.py:130-134 | the other players' cards and turn counts are unchanged |
| Turns.RecordStepAvailable | streamlit_app.py:133 | available sets only shrink, and nobody else's changes |
| Turns.RecordStepValid | streamlit_app.py:130-134 | recording a score in an available category keeps the tables in agreement |
| Turns.FinishStep | streamlit_app.py:128-142 | finish_and_pass_turn: record, then done if everyone has finished, else switch_to_next_player |
| Turns.FinishStepValid | streamlit_app.py:128-142 | after saving, the game is done exactly when everyone has used 13 turns, otherwise the next active player's turn starts; the invariant holds |
| Turns.Game.constructor | streamlit_app.py:66-80 | the first session state is the state new_game sets up |
| Turns.Game.NewGame | streamlit_app.py:66-76 | the new state is StartGame(roll) |
| Turns.Game.ToggleHold | streamlit_app.py:179-183 | the new state is ToggleStep of the old state |
| Turns.Game.DoRoll | streamlit_app.py:195-201 | the new state is RollStep of the old state and the drawn dice |
| Turns.Game.GoScoreAsWritten | streamlit_app.py:208-209 | the new state is the old one with phase "scoring", whatever the phase was |
| Turns.Game.GoScore | streamlit_app.py:208-210 | the new state is ScoreStep of the old state |
| Turns.Game.SwitchToNextPlayer | streamlit_app.py:104-126 | the new state is SwitchStep of the old state: the loop finds the seat FirstActive names |
| Turns.Game.RecordScore | streamlit_app.py:130-134 | the new state is RecordStep of the old state |
| Turns.Game.FinishAndPassTurn | streamlit_app.py:128-142 | the new state is FinishStep of the old state |
| Turns.GrandTotals | streamlit_app.py:244-247 | the totals loop: each player's grand total, in player order |
| Turns.Game.Outcome | streamlit_app.py:244-253 | for distinct player names (the keys of the totals dictionary), the banner is GameOutcome of the players' grand totals in player order |
| Turns.FreshRemaining | streamlit_app.py:67-71 | a new game has 26 categories left to fill, 13 per player |
| Turns.PlayTurn | streamlit_app.py:128-209 | a roll, go_score and saving keep the invariant and use up exactly one category |
| Turns.PlayToTheEnd | streamlit_app.py:128-142 | whatever category is chosen, play reaches phase done after one turn per category left, with every player at 13 turns and nothing left |
| Turns.PlayWholeGame | streamlit_app.py:66-142 | a whole game of the two default players ends after 26 turns |
| Turns.ScoreAfterTheEnd | streamlit_app.py:208-210 | after a whole game, go_score as written breaks the invariant and the corrected one keeps it |

## Left out

- Rendering: the page layout, buttons, metrics, the scoreboard table, the
  category previews and the sorted option list are display only and are not
  modelled (`dice_button` and `render_scoreboard`, lines 85-102, and the
  page script at lines 147-242 outside the handlers).
- `ensure_state` (lines 78-80) and Streamlit's session persistence and
  reruns are not modelled. The `Game` object stands for the session.
- Randomness: `roll_all` and the fresh values in `roll_selected` are
  arguments (`roll`, `drawn`), not drawn inside the model.
- `available` is a set rather than a list. Its order only matters for the
  option list, which is sorted for display anyway.
- The unknown-category `return 0` of `score_category` (line 54) cannot
  happen, because `Category` is an enumeration.
- Rules.ScoreTotals: `card.items()` is read through the thirteen categories.
  A key outside the categories cannot occur, since `Scorecard` is keyed by
  `Category`.
- Turns.Game.FinishAndPassTurn: the failure of `list.remove` for a used
  category becomes a precondition (`FinishReady`), so that path is not
  modelled.
- Turns.Game.SwitchToNextPlayer: the precondition `SwitchReady` demands what
  the code's indexing and dictionary lookups need: an existing seat, and a
  turn count for every player.
- Integer widths: Python integers do not wrap, and neither do the model's.
- The Yahtzee category scores 50 (`YahtzeeScore`), the value at line 51.
  The source has no bonus for further Yahtzees, and neither has the model.

## Findings

| source | as written | input that shows it | evidently intended | confidence | as-written member | corrected member |
|---|---|---|---|---|---|---|
| streamlit_app.py:208-210 | The Score button is disabled only when the phase is "scoring", and `go_score` sets "scoring" in any phase, "done" included. After the game is over, the scoring pane (line 215) then opens with no category available, and `preview[cat]` (line 231) is looked up with no selection. | Play both players' 13 turns to the end, then press "Score this roll". | Stop rolling only from phase "rolling"; a finished game stays finished. | not executed; medium | Turns.Game.GoScoreAsWritten, Turns.ScoreStepAsWrittenReopens | Turns.Game.GoScore, Turns.ScoreStepValid |
