/**
 * The end-of-game banner: from the players' grand totals, either a
 * winner with the highest total or a tie at that total.
 */
module Endgame {
  import opened Rules

  /** The banner: a tie at some total, or the winner's position and total. */
  datatype Outcome = Tie(points: int) | Win(winner: nat, points: int)

  /**
   * max(totals, key=totals.get): the position of the first highest total.
   * Like Python's max, a later total replaces the candidate only when it is
   * strictly greater.
   */
  function FirstArgMax(s: seq<int>): (i: nat)
    requires |s| > 0
    ensures i < |s|
    ensures forall j :: 0 <= j < |s| ==> s[j] <= s[i]
    ensures forall j :: 0 <= j < i ==> s[j] < s[i]
    decreases |s|
  {
    if |s| == 1 then 0
    else
      var k := FirstArgMax(s[..|s| - 1]);
      assert forall j :: 0 <= j < |s| - 1 ==> s[..|s| - 1][j] == s[j];
      if s[|s| - 1] > s[k] then |s| - 1 else k
  }

  /** A value occurs at least twice exactly when two different positions hold it. */
  lemma {:induction false} TwoOccurrences(s: seq<int>, v: int)
    ensures Count(s, v) >= 2 <==> exists i, j :: 0 <= i < j < |s| && s[i] == v && s[j] == v
    decreases |s|
  {
    if s != [] {
      var t := s[1..];
      TwoOccurrences(t, v);
      if Count(s, v) >= 2 {
        if s[0] == v {
          assert v in t;
          var j :| 0 <= j < |t| && t[j] == v;
          assert s[0] == v && s[j + 1] == v;
        } else {
          var i, j :| 0 <= i < j < |t| && t[i] == v && t[j] == v;
          assert s[i + 1] == v && s[j + 1] == v;
        }
      }
      if exists i, j :: 0 <= i < j < |s| && s[i] == v && s[j] == v {
        var i, j :| 0 <= i < j < |s| && s[i] == v && s[j] == v;
        if i == 0 {
          assert t[j - 1] == v;
        } else {
          assert t[i - 1] == v && t[j - 1] == v;
        }
      }
    }
  }

  /**
   * The banner for the grand totals, in player order: a tie when the highest
   * total occurs more than once, otherwise the first player with it wins.
   */
  function GameOutcome(totals: seq<int>): (o: Outcome)
    requires |totals| > 0
    ensures forall j :: 0 <= j < |totals| ==> totals[j] <= o.points
    ensures o.Win? ==> o.winner < |totals| && totals[o.winner] == o.points
    ensures o.Win? ==> forall j :: 0 <= j < |totals| && j != o.winner ==> totals[j] < o.points
    ensures o.Tie? ==> exists i, j :: 0 <= i < j < |totals| && totals[i] == o.points && totals[j] == o.points
  {
    var w := FirstArgMax(totals);
    TwoOccurrences(totals, totals[w]);
    if Count(totals, totals[w]) > 1 then Tie(totals[w])
    else
      assert forall j :: 0 <= j < |totals| && j != w ==> totals[j] != totals[w] by {
        forall j | 0 <= j < |totals| && j != w ensures totals[j] != totals[w] {
          if j > w && totals[j] == totals[w] {
            assert false;
          }
        }
      }
      Win(w, totals[w])
  }

  /** A tie is reported exactly when two players share the highest total. */
  lemma TieExactly(totals: seq<int>)
    requires |totals| > 0
    ensures GameOutcome(totals).Tie? <==>
      exists i, j :: 0 <= i < j < |totals| && totals[i] == totals[j] &&
        forall k :: 0 <= k < |totals| ==> totals[k] <= totals[i]
  {
    var o := GameOutcome(totals);
    if exists i, j :: 0 <= i < j < |totals| && totals[i] == totals[j] &&
        forall k :: 0 <= k < |totals| ==> totals[k] <= totals[i]
    {
      var i, j :| 0 <= i < j < |totals| && totals[i] == totals[j] &&
        forall k :: 0 <= k < |totals| ==> totals[k] <= totals[i];
    }
  }

  /** With two players: the higher total wins, and equal totals tie. */
  lemma TwoPlayerOutcome(a: int, b: int)
    ensures GameOutcome([a, b]) ==
      if a == b then Tie(a) else if a > b then Win(0, a) else Win(1, b)
  {
    var o := GameOutcome([a, b]);
    assert [a, b][0] == a && [a, b][1] == b;
  }
}
