/**
 * The turn state machine of the two-player game: the session state as one
 * object, and the handlers behind the New Game, die, Roll, Score and Save
 * buttons. Every die the game would draw at random is an argument.
 */
module Turns {
  import opened Rules
  import opened Endgame

  datatype Phase = Rolling | Scoring | Done

  const TurnsPerPlayer: nat := 13
  const RollsPerTurn: nat := 3
  const DefaultPlayers: seq<string> := ["Player 1", "Player 2"]

  /** CATEGORIES.copy(): every category, none used yet. */
  const AllCategories: set<Category> := set c | c in Categories

  lemma AllCategoriesComplete()
    ensures forall c: Category :: c in AllCategories
    ensures |AllCategories| == TurnsPerPlayer
  {
    CategoriesComplete();
    CategoriesAreDistinct();
    DistinctCardinality(Categories);
  }

  /** A list without repetitions has as many distinct elements as entries. */
  lemma {:induction false} DistinctCardinality<T>(s: seq<T>)
    requires Distinct(s)
    ensures |set x | x in s| == |s|
    decreases |s|
  {
    if s != [] {
      var rest := s[1..];
      assert Distinct(rest);
      DistinctCardinality(rest);
      assert s[0] !in rest;
      assert (set x | x in s) == {s[0]} + (set x | x in rest) by {
        assert s == [s[0]] + rest;
      }
    }
  }

  // ---------------------------------------------------------------------
  // One player's records

  /**
   * A scorecard, available list and turn counter that agree with each other:
   * the card lists every category, a category is available exactly while its
   * entry is None, every entry is a possible score, and every used turn
   * filled exactly one entry.
   */
  ghost predicate PlayerConsistent(card: Scorecard, avail: set<Category>, turns: nat) {
    && (forall c :: c in card && (c in avail <==> card[c] == None))
    && (forall c :: c in card && card[c].Some? ==> 0 <= card[c].value <= YahtzeeScore)
    && turns + |avail| == TurnsPerPlayer
  }

  lemma FreshPlayerConsistent()
    ensures PlayerConsistent(EmptyCard(), AllCategories, 0)
  {
    AllCategoriesComplete();
  }

  /** A player never uses more than 13 turns, and has used all 13 exactly when nothing is left to score. */
  lemma TurnsBounded(card: Scorecard, avail: set<Category>, turns: nat)
    requires PlayerConsistent(card, avail, turns)
    ensures turns <= TurnsPerPlayer
    ensures turns == TurnsPerPlayer <==> avail == {}
  {
    if turns == TurnsPerPlayer {
      assert |avail| == 0;
    }
  }

  /** Saving a score: entering a possible score for an available category keeps one player's records in agreement. */
  lemma RecordKeepsConsistent(card: Scorecard, avail: set<Category>, turns: nat, cat: Category, v: int)
    requires PlayerConsistent(card, avail, turns)
    requires cat in avail && 0 <= v <= YahtzeeScore
    ensures PlayerConsistent(card[cat := Some(v)], avail - {cat}, turns + 1)
  {
    var card' := card[cat := Some(v)];
    assert |avail - {cat}| == |avail| - 1;
    forall c ensures c in card' && (c in avail - {cat} <==> card'[c] == None) {
      assert c in card;
    }
  }

  /** A player still has turns to play. */
  predicate Active(turnsUsed: map<string, nat>, p: string) {
    p in turnsUsed && turnsUsed[p] < TurnsPerPlayer
  }

  // ---------------------------------------------------------------------
  // Choosing the next player

  /** The seat after seat i at a table of n players. */
  function Seat(i: nat, n: nat): (j: nat)
    requires i < n
    ensures j < n
  {
    if i + 1 < n then i + 1 else 0
  }

  /** The seat k + 1 places after seat from, counting round the table of n players. */
  function Cycle(from: nat, k: nat, n: nat): (i: nat)
    requires from < n
    ensures i < n
    decreases k
  {
    if k == 0 then Seat(from, n) else Seat(Cycle(from, k - 1, n), n)
  }

  lemma ModRange(x: int, n: int)
    requires 0 < n && 0 <= x <= n
    ensures x % n == if x < n then x else 0
  {
  }

  /** (i + 1) % len(players) is the next seat. */
  lemma SeatIsSuccessorMod(i: nat, n: nat)
    requires i < n
    ensures (i + 1) % n == Seat(i, n)
  {
    ModRange(i + 1, n);
  }

  /** Within one round the count wraps past the last seat at most once. */
  lemma {:induction false} CycleValue(from: nat, k: nat, n: nat)
    requires from < n && k < n
    ensures Cycle(from, k, n) == if from + 1 + k < n then from + 1 + k else from + 1 + k - n
    decreases k
  {
    if k > 0 {
      CycleValue(from, k - 1, n);
    }
  }

  /** Within n steps the count visits every seat. */
  lemma CycleCovers(from: nat, i: nat, n: nat)
    requires from < n && i < n
    ensures exists k :: 0 <= k < n && Cycle(from, k, n) == i
  {
    if i > from {
      CycleValue(from, i - from - 1, n);
    } else {
      CycleValue(from, i + n - from - 1, n);
    }
  }

  /**
   * to is the first seat after from, counting round the table (from itself
   * last), whose player still has turns.
   */
  ghost predicate NextActive(players: seq<string>, turnsUsed: map<string, nat>, from: nat, to: nat)
    requires from < |players|
  {
    exists k :: 0 <= k < |players| && to == Cycle(from, k, |players|)
      && Active(turnsUsed, players[to])
      && forall j :: 0 <= j < k ==> !Active(turnsUsed, players[Cycle(from, j, |players|)])
  }

  /** The next active player is determined by the table. */
  lemma NextActiveUnique(players: seq<string>, turnsUsed: map<string, nat>, from: nat, to1: nat, to2: nat)
    requires from < |players|
    requires NextActive(players, turnsUsed, from, to1) && NextActive(players, turnsUsed, from, to2)
    ensures to1 == to2
  {
    var n := |players|;
    var k1 :| 0 <= k1 < n && to1 == Cycle(from, k1, n) && Active(turnsUsed, players[to1])
      && forall j :: 0 <= j < k1 ==> !Active(turnsUsed, players[Cycle(from, j, n)]);
    var k2 :| 0 <= k2 < n && to2 == Cycle(from, k2, n) && Active(turnsUsed, players[to2])
      && forall j :: 0 <= j < k2 ==> !Active(turnsUsed, players[Cycle(from, j, n)]);
  }

  /** Two players alternate: the turn passes to the other one whenever they still have turns. */
  lemma TwoPlayersAlternate(players: seq<string>, turnsUsed: map<string, nat>, from: nat, to: nat)
    requires |players| == 2 && from < 2
    requires NextActive(players, turnsUsed, from, to)
    requires Active(turnsUsed, players[1 - from])
    ensures to == 1 - from
  {
    assert Cycle(from, 0, 2) == 1 - from;
    assert NextActive(players, turnsUsed, from, 1 - from);
    NextActiveUnique(players, turnsUsed, from, to, 1 - from);
  }

  // ---------------------------------------------------------------------
  // Holds

  /** The hold set after clicking die i: exactly the membership of i flips. */
  function Toggled(holds: set<int>, i: int): (r: set<int>)
    ensures i in r <==> i !in holds
    ensures forall j :: j != i ==> (j in r <==> j in holds)
  {
    if i in holds then holds - {i} else holds + {i}
  }

  /** Clicking the same die twice restores the hold set. */
  lemma ToggleTwice(holds: set<int>, i: int)
    ensures Toggled(Toggled(holds, i), i) == holds
  {
    var once := Toggled(holds, i);
    assert forall j :: j in Toggled(once, i) <==> j in holds;
  }

  // ---------------------------------------------------------------------
  // Grand totals and the final banner

  /** The grand total of each listed player, in order. */
  function GrandTotals(cards: map<string, Scorecard>, players: seq<string>): seq<int>
    requires forall p :: p in players ==> p in cards
  {
    seq(|players|, i requires 0 <= i < |players| => ScoreTotals(cards[players[i]]).grand)
  }

  /** The number of categories the listed players still have to fill. */
  function Remaining(players: seq<string>, available: map<string, set<Category>>): nat
    requires forall p :: p in players ==> p in available
  {
    if players == [] then 0 else |available[players[0]]| + Remaining(players[1..], available)
  }

  /** Filling one available category of one (listed once) player lowers the count by one. */
  lemma {:induction false} RemainingAfterUse(players: seq<string>, available: map<string, set<Category>>, p: string, cat: Category)
    requires forall q :: q in players ==> q in available
    requires Distinct(players) && p in players && cat in available[p]
    ensures Remaining(players, available[p := available[p] - {cat}]) == Remaining(players, available) - 1
    decreases |players|
  {
    var after := available[p := available[p] - {cat}];
    assert |available[p] - {cat}| == |available[p]| - 1;
    var rest := players[1..];
    assert Distinct(rest);
    if players[0] == p {
      assert p !in rest;
      RemainingUnchanged(rest, available, after);
    } else {
      assert p in rest;
      RemainingAfterUse(rest, available, p, cat);
    }
  }

  lemma {:induction false} RemainingUnchanged(players: seq<string>, a: map<string, set<Category>>, b: map<string, set<Category>>)
    requires forall q :: q in players ==> q in a && q in b && a[q] == b[q]
    ensures Remaining(players, a) == Remaining(players, b)
    decreases |players|
  {
    if players != [] {
      RemainingUnchanged(players[1..], a, b);
    }
  }

  lemma {:induction false} NothingRemaining(players: seq<string>, available: map<string, set<Category>>)
    requires forall q :: q in players ==> q in available && available[q] == {}
    ensures Remaining(players, available) == 0
    decreases |players|
  {
    if players != [] {
      NothingRemaining(players[1..], available);
    }
  }

  // ---------------------------------------------------------------------
  // The tables of all players

  /** {p: 0 for p in players}: nobody has used a turn. */
  function ZeroTurns(players: seq<string>): map<string, nat> {
    map p | p in players :: 0
  }

  /** {p: {cat: None for cat in CATEGORIES} for p in players}: nothing scored. */
  function EmptyCards(players: seq<string>): map<string, Scorecard> {
    map p | p in players :: EmptyCard()
  }

  /** {p: CATEGORIES.copy() for p in players}: every category open to everyone. */
  function FullAvailability(players: seq<string>): map<string, set<Category>> {
    map p | p in players :: AllCategories
  }

  /**
   * Distinct players, each with a turn counter, a scorecard and an
   * available set that agree with each other.
   */
  ghost predicate RecordsAgree(players: seq<string>, turnsUsed: map<string, nat>,
                               scorecards: map<string, Scorecard>, available: map<string, set<Category>>)
  {
    && |players| > 0 && Distinct(players)
    && forall p :: p in players ==>
         && p in turnsUsed && p in scorecards && p in available
         && PlayerConsistent(scorecards[p], available[p], turnsUsed[p])
  }

  /** all(turns_used[p] >= 13 for p in players). */
  predicate Finished(players: seq<string>, turnsUsed: map<string, nat>) {
    forall p :: p in players ==> p in turnsUsed && turnsUsed[p] >= TurnsPerPlayer
  }

  /** The tables of new_game agree, and nobody has finished. */
  lemma FreshRecords(players: seq<string>)
    requires |players| > 0 && Distinct(players)
    ensures RecordsAgree(players, ZeroTurns(players), EmptyCards(players), FullAvailability(players))
    ensures !Finished(players, ZeroTurns(players))
  {
    FreshPlayerConsistent();
    assert players[0] in players;
  }

  /** Saving a score for one listed player keeps every player's tables in agreement. */
  lemma RecordTurn(players: seq<string>, turnsUsed: map<string, nat>, scorecards: map<string, Scorecard>,
                   available: map<string, set<Category>>, p: string, cat: Category, v: int)
    requires RecordsAgree(players, turnsUsed, scorecards, available)
    requires p in players && cat in available[p] && 0 <= v <= YahtzeeScore
    ensures RecordsAgree(players, turnsUsed[p := turnsUsed[p] + 1],
                         scorecards[p := scorecards[p][cat := Some(v)]], available[p := available[p] - {cat}])
  {
    RecordKeepsConsistent(scorecards[p], available[p], turnsUsed[p], cat, v);
  }

  /** Nobody active at any of the n seats after from means every player is finished. */
  lemma NoneActiveAfterFullCircle(players: seq<string>, turnsUsed: map<string, nat>, from: nat)
    requires from < |players|
    requires forall p :: p in players ==> p in turnsUsed
    requires forall j :: 0 <= j < |players| ==> !Active(turnsUsed, players[Cycle(from, j, |players|)])
    ensures Finished(players, turnsUsed)
  {
    var n := |players|;
    forall p | p in players ensures turnsUsed[p] >= TurnsPerPlayer {
      var i :| 0 <= i < n && players[i] == p;
      CycleCovers(from, i, n);
      var k :| 0 <= k < n && Cycle(from, k, n) == i;
      assert !Active(turnsUsed, players[Cycle(from, k, n)]);
    }
  }

  // ---------------------------------------------------------------------
  // The session state as a value

  /** Everything the session keeps between reruns. */
  datatype Session = Session(
    players: seq<string>,
    current: nat,
    turnsUsed: map<string, nat>,
    scorecards: map<string, Scorecard>,
    available: map<string, set<Category>>,
    dice: Dice,
    holds: set<int>,
    rollsLeft: int,
    phase: Phase)

  /**
   * The invariant of the session: consistent tables, a seat that exists, a
   * roll counter in range, a rolling phase only with rolls left, phase
   * "done" exactly when every player has used all turns, and otherwise a
   * current player who still has turns.
   */
  ghost predicate Inv(s: Session) {
    && RecordsAgree(s.players, s.turnsUsed, s.scorecards, s.available)
    && s.current < |s.players| && 0 <= s.rollsLeft <= RollsPerTurn
    && ValidHolds(s.holds)
    && (s.phase == Rolling ==> s.rollsLeft > 0)
    && (s.phase == Done <==> Finished(s.players, s.turnsUsed))
    && (s.phase != Done ==> Active(s.turnsUsed, s.players[s.current]))
  }

  /** Only positions of the five dice are ever held. */
  predicate ValidHolds(holds: set<int>) {
    forall i :: i in holds ==> 0 <= i < 5
  }

  /** The start of a turn: three rolls left, nothing held, the dice freshly rolled. */
  predicate TurnStarted(s: Session, roll: Dice) {
    s.rollsLeft == RollsPerTurn && s.dice == roll && s.holds == {} && s.phase == Rolling
  }

  /** new_game, with roll the dice roll_all draws. */
  function StartGame(roll: Dice): Session {
    Session(DefaultPlayers, 0, ZeroTurns(DefaultPlayers), EmptyCards(DefaultPlayers),
            FullAvailability(DefaultPlayers), roll, {}, RollsPerTurn, Rolling)
  }

  /** toggle_hold(i). */
  function ToggleStep(s: Session, i: int): Session {
    s.(holds := Toggled(s.holds, i))
  }

  /** do_roll, with drawn the dice roll_selected draws for the free positions. */
  function RollStep(s: Session, drawn: Dice): Session {
    if s.rollsLeft <= 0 || s.phase != Rolling then s
    else
      var left := s.rollsLeft - 1;
      s.(rollsLeft := left,
         dice := RollSelected(s.dice, s.holds, drawn),
         phase := if left == 0 then Scoring else s.phase)
  }

  /** go_score as written: phase "scoring", whatever the phase was. */
  function ScoreStepAsWritten(s: Session): Session {
    s.(phase := Scoring)
  }

  /** go_score as intended: a finished game stays finished. */
  function ScoreStep(s: Session): Session {
    if s.phase == Done then s else s.(phase := Scoring)
  }

  /**
   * The loop of switch_to_next_player from its k-th step on: the first seat
   * Cycle(from, j) with j >= k whose player has turns left, or from when
   * there is none.
   */
  function FirstActive(players: seq<string>, turnsUsed: map<string, nat>, from: nat, k: nat): (i: nat)
    requires from < |players|
    ensures i < |players|
    decreases |players| - k
  {
    if k >= |players| then from
    else if Active(turnsUsed, players[Cycle(from, k, |players|)]) then Cycle(from, k, |players|)
    else FirstActive(players, turnsUsed, from, k + 1)
  }

  /** What switch_to_next_player needs: a seat that exists and a turn count for everyone. */
  predicate SwitchReady(s: Session) {
    s.current < |s.players| && forall p :: p in s.players ==> p in s.turnsUsed
  }

  /** switch_to_next_player, with roll the dice roll_all draws. */
  function SwitchStep(s: Session, roll: Dice): Session
    requires SwitchReady(s)
  {
    if Finished(s.players, s.turnsUsed) then s.(phase := Done)
    else
      s.(current := FirstActive(s.players, s.turnsUsed, s.current, 0),
         rollsLeft := RollsPerTurn, dice := roll, holds := {}, phase := Rolling)
  }

  /** What finish_and_pass_turn needs: the current player's rows, and cat still available to them. */
  predicate FinishReady(s: Session, cat: Category) {
    && SwitchReady(s)
    && var p := s.players[s.current];
       p in s.scorecards && p in s.available && cat in s.available[p]
  }

  /** Saving a score: enter the score of the dice and use up the category and the turn. */
  function RecordStep(s: Session, cat: Category): Session
    requires FinishReady(s, cat)
  {
    var p := s.players[s.current];
    s.(scorecards := s.scorecards[p := s.scorecards[p][cat := Some(ScoreCategory(s.dice, cat))]],
       available := s.available[p := s.available[p] - {cat}],
       turnsUsed := s.turnsUsed[p := s.turnsUsed[p] + 1])
  }

  /** finish_and_pass_turn(cat), with roll the dice the next turn starts with. */
  function FinishStep(s: Session, cat: Category, roll: Dice): Session
    requires FinishReady(s, cat)
  {
    var r := RecordStep(s, cat);
    if Finished(r.players, r.turnsUsed) then r.(phase := Done) else SwitchStep(r, roll)
  }

  // ---------------------------------------------------------------------
  // What the steps promise

  /** A new game is consistent, and its first turn has started with the first player. */
  lemma StartGameValid(roll: Dice)
    ensures Inv(StartGame(roll))
    ensures TurnStarted(StartGame(roll), roll) && StartGame(roll).current == 0
  {
    var s := StartGame(roll);
    assert Distinct(s.players) by {
      assert s.players[0][7] != s.players[1][7];
    }
    FreshRecords(s.players);
  }

  /** In a new game nobody has played, nothing is scored and every category is open. */
  lemma StartGameRows(roll: Dice)
    ensures var s := StartGame(roll);
      forall p :: p in s.players ==>
        s.turnsUsed[p] == 0 && s.available[p] == AllCategories && ScoreTotals(s.scorecards[p]).grand == 0
  {
    EmptyCardTotals();
  }

  /** Clicking one of the five dice changes only the holds, and keeps the invariant. */
  lemma ToggleStepValid(s: Session, i: int)
    requires Inv(s) && 0 <= i < 5
    ensures Inv(ToggleStep(s, i))
    ensures ToggleStep(s, i).(holds := s.holds) == s
  {
  }

  /**
   * do_roll does nothing without rolls left or outside the rolling phase;
   * otherwise it spends exactly one roll, keeps the held dice, draws the
   * free ones, and moves to scoring exactly when no roll is left. Nothing
   * else changes, and the invariant holds after it.
   */
  lemma RollStepValid(s: Session, drawn: Dice)
    ensures var t := RollStep(s, drawn);
      && (s.rollsLeft <= 0 || s.phase != Rolling ==> t == s)
      && (s.rollsLeft > 0 && s.phase == Rolling ==>
            && t.rollsLeft == s.rollsLeft - 1
            && (forall i :: i in s.holds && 0 <= i < 5 ==> t.dice[i] == s.dice[i])
            && (forall i :: i !in s.holds && 0 <= i < 5 ==> t.dice[i] == drawn[i])
            && (t.phase == Scoring <==> t.rollsLeft == 0)
            && (t.phase == Rolling <==> t.rollsLeft > 0))
      && t.(dice := s.dice, rollsLeft := s.rollsLeft, phase := s.phase) == s
    ensures Inv(s) ==> Inv(RollStep(s, drawn))
  {
  }

  /** The corrected go_score keeps the invariant, and leaves a finished game finished. */
  lemma ScoreStepValid(s: Session)
    requires Inv(s)
    ensures Inv(ScoreStep(s))
    ensures ScoreStep(s).phase == if s.phase == Done then Done else Scoring
    ensures ScoreStep(s).(phase := s.phase) == s
  {
  }

  /** Once the game is done no category is left to score for anyone. */
  lemma NothingLeftWhenDone(s: Session)
    requires Inv(s) && s.phase == Done
    ensures forall p :: p in s.players ==> s.available[p] == {} && s.turnsUsed[p] == TurnsPerPlayer
  {
    forall p | p in s.players ensures s.available[p] == {} && s.turnsUsed[p] == TurnsPerPlayer {
      TurnsBounded(s.scorecards[p], s.available[p], s.turnsUsed[p]);
    }
  }

  /**
   * go_score as written, pressed after the game is over, puts a finished
   * game back into scoring: the invariant breaks and the current player has
   * no category to pick.
   */
  lemma ScoreStepAsWrittenReopens(s: Session)
    requires Inv(s) && s.phase == Done
    ensures var t := ScoreStepAsWritten(s);
      && t.phase == Scoring && Finished(t.players, t.turnsUsed) && !Inv(t)
      && t.available[t.players[t.current]] == {}
  {
    NothingLeftWhenDone(s);
  }

  /** Outside a finished game, go_score as written and as intended agree. */
  lemma ScoreStepsAgreeBeforeTheEnd(s: Session)
    requires s.phase != Done
    ensures ScoreStepAsWritten(s) == ScoreStep(s)
  {
  }

  /**
   * The loop finds the next active seat: when some player still has turns,
   * the seat reached from step k on is the first active one after from,
   * provided none of the steps before k was active.
   */
  lemma {:induction false} FirstActiveFinds(players: seq<string>, turnsUsed: map<string, nat>, from: nat, k: nat)
    requires from < |players| && forall p :: p in players ==> p in turnsUsed
    requires !Finished(players, turnsUsed)
    requires forall j :: 0 <= j < k && j < |players| ==> !Active(turnsUsed, players[Cycle(from, j, |players|)])
    ensures NextActive(players, turnsUsed, from, FirstActive(players, turnsUsed, from, k))
    decreases |players| - k
  {
    var n := |players|;
    if k >= n {
      NoneActiveAfterFullCircle(players, turnsUsed, from);
      assert false;
    } else if !Active(turnsUsed, players[Cycle(from, k, n)]) {
      FirstActiveFinds(players, turnsUsed, from, k + 1);
    }
  }

  /**
   * switch_to_next_player ends the game when every player has used all
   * turns, changing nothing else; otherwise the turn passes to the next
   * active player and starts afresh, and the tables are untouched. Given
   * consistent tables the invariant holds afterwards.
   */
  lemma SwitchStepValid(s: Session, roll: Dice)
    requires SwitchReady(s)
    ensures var t := SwitchStep(s, roll);
      && t.players == s.players && t.turnsUsed == s.turnsUsed
      && t.scorecards == s.scorecards && t.available == s.available
      && (Finished(s.players, s.turnsUsed) ==> t == s.(phase := Done))
      && (!Finished(s.players, s.turnsUsed) ==>
            TurnStarted(t, roll) && NextActive(s.players, s.turnsUsed, s.current, t.current))
    ensures (RecordsAgree(s.players, s.turnsUsed, s.scorecards, s.available) && 0 <= s.rollsLeft <= RollsPerTurn
             && ValidHolds(s.holds)) ==> Inv(SwitchStep(s, roll))
  {
    if !Finished(s.players, s.turnsUsed) {
      FirstActiveFinds(s.players, s.turnsUsed, s.current, 0);
    }
  }

  /**
   * Saving a score records the score of the dice in the chosen category of
   * the current player and use up that category and one of their turns.
   */
  lemma RecordStepRows(s: Session, cat: Category)
    requires FinishReady(s, cat)
    ensures var r := RecordStep(s, cat);
      var p := s.players[s.current];
      && r.players == s.players && r.current == s.current && r.dice == s.dice
      && r.scorecards[p] == s.scorecards[p][cat := Some(ScoreCategory(s.dice, cat))]
      && r.available[p] == s.available[p] - {cat}
      && r.turnsUsed[p] == s.turnsUsed[p] + 1
  {
  }

  /** Saving a score leaves the other players' scorecards and turn counts as they were. */
  lemma RecordStepOthers(s: Session, cat: Category)
    requires FinishReady(s, cat)
    ensures var r := RecordStep(s, cat);
      var p := s.players[s.current];
      && (forall q :: q in s.scorecards && q != p ==> r.scorecards[q] == s.scorecards[q])
      && (forall q :: q in s.turnsUsed && q != p ==> r.turnsUsed[q] == s.turnsUsed[q])
  {
  }

  /** Saving a score uses up no category of another player, and gives nobody a category back. */
  lemma RecordStepAvailable(s: Session, cat: Category)
    requires FinishReady(s, cat)
    ensures var r := RecordStep(s, cat);
      var p := s.players[s.current];
      && (forall q :: q in s.available ==> q in r.available && r.available[q] <= s.available[q])
      && (forall q :: q in s.available && q != p ==> r.available[q] == s.available[q])
  {
  }

  /** Recording a score in an available category keeps the tables in agreement. */
  lemma RecordStepValid(s: Session, cat: Category)
    requires RecordsAgree(s.players, s.turnsUsed, s.scorecards, s.available)
    requires s.current < |s.players| && cat in s.available[s.players[s.current]]
    ensures var r := RecordStep(s, cat);
      RecordsAgree(r.players, r.turnsUsed, r.scorecards, r.available)
  {
    var p := s.players[s.current];
    var v := ScoreCategory(s.dice, cat);
    RecordTurn(s.players, s.turnsUsed, s.scorecards, s.available, p, cat, v);
    var r := RecordStep(s, cat);
    assert r.turnsUsed == s.turnsUsed[p := s.turnsUsed[p] + 1];
    assert r.scorecards == s.scorecards[p := s.scorecards[p][cat := Some(v)]];
    assert r.available == s.available[p := s.available[p] - {cat}];
  }

  /**
   * After a score is saved the game is done exactly when every player has
   * used all turns, and otherwise the next active player's turn starts; the
   * tables are those of the recorded score, and the invariant holds.
   */
  lemma FinishStepValid(s: Session, cat: Category, roll: Dice)
    requires Inv(s) && cat in s.available[s.players[s.current]]
    ensures var t := FinishStep(s, cat, roll);
      var r := RecordStep(s, cat);
      && Inv(t) && t.players == r.players && t.turnsUsed == r.turnsUsed
      && t.scorecards == r.scorecards && t.available == r.available
      && (t.phase == Done <==> Finished(t.players, t.turnsUsed))
      && (t.phase != Done ==> TurnStarted(t, roll) && NextActive(t.players, t.turnsUsed, s.current, t.current))
  {
    RecordStepValid(s, cat);
    SwitchStepValid(RecordStep(s, cat), roll);
  }

  // ---------------------------------------------------------------------
  // The session state as an object

  class Game {
    var players: seq<string>
    var current: nat
    var turnsUsed: map<string, nat>
    var scorecards: map<string, Scorecard>
    var available: map<string, set<Category>>
    var dice: Dice
    var holds: set<int>
    var rollsLeft: int
    var phase: Phase

    /** The fields, as one value. */
    ghost function State(): Session
      reads this
    {
      Session(players, current, turnsUsed, scorecards, available, dice, holds, rollsLeft, phase)
    }

    ghost predicate Consistent()
      reads this
    {
      Inv(State())
    }

    constructor (roll: Dice)
      ensures State() == StartGame(roll)
    {
      players := DefaultPlayers;
      current := 0;
      turnsUsed := ZeroTurns(DefaultPlayers);
      scorecards := EmptyCards(DefaultPlayers);
      available := FullAvailability(DefaultPlayers);
      dice := roll;
      holds := {};
      rollsLeft := RollsPerTurn;
      phase := Rolling;
    }

    /** new_game: two players, empty scorecards, every category available, first roll made. */
    method NewGame(roll: Dice)
      modifies this
      ensures State() == StartGame(roll)
    {
      players := DefaultPlayers;
      current := 0;
      turnsUsed := ZeroTurns(players);
      scorecards := EmptyCards(players);
      available := FullAvailability(players);
      dice := roll;
      holds := {};
      rollsLeft := RollsPerTurn;
      phase := Rolling;
    }

    /** toggle_hold: clicking die i holds it if it was free and frees it if it was held. */
    method ToggleHold(i: int)
      modifies this`holds
      ensures State() == ToggleStep(old(State()), i)
    {
      if i in holds {
        holds := holds - {i};
      } else {
        holds := holds + {i};
      }
    }

    /** do_roll: spend a roll and re-roll the free dice, when a roll is allowed. */
    method DoRoll(drawn: Dice)
      modifies this`rollsLeft, this`dice, this`phase
      ensures State() == RollStep(old(State()), drawn)
    {
      if rollsLeft <= 0 || phase != Rolling {
        return;
      }
      rollsLeft := rollsLeft - 1;
      dice := RollSelected(dice, holds, drawn);
      if rollsLeft == 0 {
        phase := Scoring;
      }
    }

    /** go_score as written. */
    method GoScoreAsWritten()
      modifies this`phase
      ensures State() == ScoreStepAsWritten(old(State()))
    {
      phase := Scoring;
    }

    /** go_score as intended: stop rolling and score, unless the game is over. */
    method GoScore()
      modifies this`phase
      ensures State() == ScoreStep(old(State()))
    {
      if phase != Done {
        phase := Scoring;
      }
    }

    /** switch_to_next_player: end the game, or start the next active player's turn. */
    method SwitchToNextPlayer(roll: Dice)
      requires SwitchReady(State())
      modifies this`current, this`rollsLeft, this`dice, this`holds, this`phase
      ensures State() == SwitchStep(old(State()), roll)
    {
      var n := |players|;
      var next := (current + 1) % n;
      if Finished(players, turnsUsed) {
        phase := Done;
        return;
      }
      ghost var from := current;
      SeatIsSuccessorMod(current, n);
      var k := 0;
      while k < n
        invariant 0 <= k <= n
        invariant current == from && next == Cycle(from, k, n)
        invariant FirstActive(players, turnsUsed, from, k) == FirstActive(players, turnsUsed, from, 0)
      {
        if turnsUsed[players[next]] < TurnsPerPlayer {
          current := next;
          break;
        }
        SeatIsSuccessorMod(next, n);
        next := (next + 1) % n;
        k := k + 1;
      }
      rollsLeft := RollsPerTurn;
      dice := roll;
      holds := {};
      phase := Rolling;
    }

    /** Saving a score: enter the score of the dice in cat, and use up cat and one turn of the current player. */
    method RecordScore(cat: Category)
      requires FinishReady(State(), cat)
      modifies this`scorecards, this`available, this`turnsUsed
      ensures State() == RecordStep(old(State()), cat)
    {
      var p := players[current];
      var pts := ScoreCategory(dice, cat);
      scorecards := scorecards[p := scorecards[p][cat := Some(pts)]];
      available := available[p := available[p] - {cat}];
      turnsUsed := turnsUsed[p := turnsUsed[p] + 1];
    }

    /** finish_and_pass_turn: save the score of the dice in cat, then end the game or pass the turn. */
    method FinishAndPassTurn(cat: Category, roll: Dice)
      requires FinishReady(State(), cat)
      modifies this
      ensures State() == FinishStep(old(State()), cat, roll)
    {
      RecordScore(cat);
      if Finished(players, turnsUsed) {
        phase := Done;
      } else {
        SwitchToNextPlayer(roll);
      }
    }

    /**
     * The end-of-game banner: each player's grand total, in player order,
     * and the winner or tie they give.
     */
    method Outcome() returns (o: Outcome)
      requires |players| > 0 && Distinct(players) && forall p :: p in players ==> p in scorecards
      ensures o == GameOutcome(GrandTotals(scorecards, players))
    {
      var totals: seq<int> := [];
      for i := 0 to |players|
        invariant |totals| == i
        invariant forall j :: 0 <= j < i ==> totals[j] == ScoreTotals(scorecards[players[j]]).grand
      {
        var t := ScoreTotals(scorecards[players[i]]);
        totals := totals + [t.grand];
      }
      assert totals == GrandTotals(scorecards, players);
      o := GameOutcome(totals);
    }
  }

  // ---------------------------------------------------------------------
  // Whole games

  /** Both players of a new game have 13 categories to fill. */
  lemma FreshRemaining()
    ensures Remaining(DefaultPlayers, FullAvailability(DefaultPlayers)) == |DefaultPlayers| * TurnsPerPlayer
  {
    var ps := DefaultPlayers;
    var av := FullAvailability(ps);
    AllCategoriesComplete();
    assert av[ps[0]] == AllCategories && av[ps[1]] == AllCategories;
    assert ps[1..][1..] == [];
    assert Remaining(ps[1..][1..], av) == 0;
    assert Remaining(ps[1..], av) == |AllCategories|;
  }

  /**
   * A turn has three rolls: from the start of a turn three rolls reach the
   * scoring phase, and a fourth changes nothing.
   */
  method ThreeRollsPerTurn(g: Game, d1: Dice, d2: Dice, d3: Dice, d4: Dice)
    requires g.Consistent() && g.phase == Rolling && g.rollsLeft == RollsPerTurn
    modifies g
    ensures g.Consistent() && g.phase == Scoring && g.rollsLeft == 0
    ensures g.dice == RollSelected(RollSelected(RollSelected(old(g.dice), g.holds, d1), g.holds, d2), g.holds, d3)
  {
    g.DoRoll(d1);
    g.DoRoll(d2);
    g.DoRoll(d3);
    ghost var s := g.State();
    RollStepValid(s, d4);
    g.DoRoll(d4);
  }

  /** One turn: roll once, choose to score, and save the score in cat. */
  method PlayTurn(g: Game, cat: Category, roll: Dice)
    requires g.Consistent() && cat in g.available[g.players[g.current]]
    modifies g
    ensures g.Consistent() && g.players == old(g.players)
    ensures Remaining(g.players, g.available) == old(Remaining(g.players, g.available)) - 1
  {
    ghost var s0 := g.State();
    RollStepValid(s0, roll);
    g.DoRoll(roll);
    ghost var s1 := g.State();
    ScoreStepValid(s1);
    g.GoScore();
    ghost var s2 := g.State();
    FinishStepValid(s2, cat, roll);
    RecordStepRows(s2, cat);
    RemainingAfterUse(s2.players, s2.available, s2.players[s2.current], cat);
    g.FinishAndPassTurn(cat, roll);
  }

  /**
   * Playing on to the end: whatever category is chosen each turn, the game
   * ends after every player has filled all categories, one turn per
   * category left.
   */
  method PlayToTheEnd(g: Game, roll: Dice) returns (turns: nat)
    requires g.Consistent()
    modifies g
    ensures g.Consistent() && g.phase == Done && g.players == old(g.players)
    ensures forall p :: p in g.players ==> g.turnsUsed[p] == TurnsPerPlayer && g.available[p] == {}
    ensures turns == old(Remaining(g.players, g.available))
  {
    turns := 0;
    while g.phase != Done
      invariant g.Consistent() && g.players == old(g.players)
      invariant turns + Remaining(g.players, g.available) == old(Remaining(g.players, g.available))
      decreases Remaining(g.players, g.available)
    {
      var p := g.players[g.current];
      TurnsBounded(g.scorecards[p], g.available[p], g.turnsUsed[p]);
      var cat :| cat in g.available[p];
      PlayTurn(g, cat, roll);
      turns := turns + 1;
    }
    NothingLeftWhenDone(g.State());
    NothingRemaining(g.players, g.available);
  }

  /** A whole game of the two default players takes 26 turns, 13 each. */
  method PlayWholeGame(roll: Dice) returns (g: Game, turns: nat)
    ensures fresh(g) && g.Consistent() && g.phase == Done && g.players == DefaultPlayers
    ensures forall p :: p in g.players ==> g.turnsUsed[p] == TurnsPerPlayer && g.available[p] == {}
    ensures turns == |DefaultPlayers| * TurnsPerPlayer
  {
    g := new Game(roll);
    StartGameValid(roll);
    FreshRemaining();
    turns := PlayToTheEnd(g, roll);
  }

  /** At the end of a game, go_score as written breaks the invariant; the corrected one does not. */
  method ScoreAfterTheEnd(roll: Dice) returns (asWritten: Game, corrected: Game)
    ensures asWritten.phase == Scoring && !asWritten.Consistent()
    ensures asWritten.current < |asWritten.players| && asWritten.players[asWritten.current] in asWritten.available
    ensures asWritten.available[asWritten.players[asWritten.current]] == {}
    ensures corrected.phase == Done && corrected.Consistent()
  {
    var t;
    asWritten, t := PlayWholeGame(roll);
    ScoreStepAsWrittenReopens(asWritten.State());
    asWritten.GoScoreAsWritten();
    corrected, t := PlayWholeGame(roll);
    ScoreStepValid(corrected.State());
    corrected.GoScore();
  }
}
