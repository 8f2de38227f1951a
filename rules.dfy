/**
 * The scoring engine of the two-player Yahtzee game: the thirteen categories,
 * the upper-face table, the dice, the score one roll earns in one category,
 * and the subtotals, bonus and grand total of a scorecard.
 *
 * Everything here is a pure function of its arguments.
 */
module Rules {

  datatype Option<T> = None | Some(value: T)

  datatype Category =
    | Ones | Twos | Threes | Fours | Fives | Sixes
    | ThreeOfAKind | FourOfAKind | FullHouse
    | SmallStraight | LargeStraight | Yahtzee | Chance

  /** The categories of a scorecard, in scorecard order. */
  const Categories: seq<Category> :=
    [Ones, Twos, Threes, Fours, Fives, Sixes,
     ThreeOfAKind, FourOfAKind, FullHouse,
     SmallStraight, LargeStraight, Yahtzee, Chance]

  /** The upper categories: those scored by counting one face. */
  predicate IsUpper(c: Category) {
    c.Ones? || c.Twos? || c.Threes? || c.Fours? || c.Fives? || c.Sixes?
  }

  /** The face an upper category counts. */
  function Face(c: Category): int
    requires IsUpper(c)
  {
    match c
    case Ones => 1
    case Twos => 2
    case Threes => 3
    case Fours => 4
    case Fives => 5
    case Sixes => 6
  }

  /** The faces of a die. */
  const Faces: seq<int> := [1, 2, 3, 4, 5, 6]

  const FullHouseScore := 25
  const SmallStraightScore := 30
  const LargeStraightScore := 40
  const YahtzeeScore := 50
  const UpperBonusThreshold := 63
  const UpperBonus := 35

  predicate Distinct<T(==)>(s: seq<T>) {
    forall i, j :: 0 <= i < j < |s| ==> s[i] != s[j]
  }

  lemma CategoriesAreDistinct()
    ensures |Categories| == 13 && Distinct(Categories)
  {
    forall i, j | 0 <= i < j < 13 ensures Categories[i] != Categories[j] {
      assert Position(Categories[i]) == i;
    }
  }

  /** Every category is on the card, and the upper ones are its first six. */
  lemma CategoriesComplete()
    ensures forall c: Category :: c in Categories
    ensures forall c :: IsUpper(c) <==> c in Categories[..6]
  {
    forall c: Category ensures c in Categories && (IsUpper(c) <==> c in Categories[..6]) {
      assert Categories[Position(c)] == c;
      if Position(c) < 6 {
        assert Categories[..6][Position(c)] == c;
      }
    }
  }

  /** The upper categories count the six faces, one each. */
  lemma UpperFaces()
    ensures forall c :: IsUpper(c) ==> IsDie(Face(c)) && Faces[Face(c) - 1] == Face(c)
    ensures forall c, c' :: IsUpper(c) && IsUpper(c') && c != c' ==> Face(c) != Face(c')
  {
  }

  /** The upper category that counts face f: the inverse of Face. */
  function UpperCategory(f: int): (c: Category)
    requires IsDie(f)
    ensures IsUpper(c) && Face(c) == f
  {
    [Ones, Twos, Threes, Fours, Fives, Sixes][f - 1]
  }

  lemma UpperCategoryOfFace(c: Category)
    requires IsUpper(c)
    ensures UpperCategory(Face(c)) == c
  {
  }

  /** The position of a category in scorecard order. */
  function Position(c: Category): (i: nat)
    ensures i < |Categories| && Categories[i] == c
    ensures IsUpper(c) <==> i < 6
  {
    match c
    case Ones => 0
    case Twos => 1
    case Threes => 2
    case Fours => 3
    case Fives => 4
    case Sixes => 5
    case ThreeOfAKind => 6
    case FourOfAKind => 7
    case FullHouse => 8
    case SmallStraight => 9
    case LargeStraight => 10
    case Yahtzee => 11
    case Chance => 12
  }

  // ---------------------------------------------------------------------
  // Dice

  predicate IsDie(v: int) {
    1 <= v <= 6
  }

  /** A roll: exactly five dice, each showing a face from 1 to 6. */
  type Dice = d: seq<int> | |d| == 5 && forall i | 0 <= i < |d| :: IsDie(d[i])
    witness [1, 1, 1, 1, 1]

  lemma FacesAreDistinct()
    ensures |Faces| == 6 && Distinct(Faces)
    ensures forall f :: f in Faces <==> IsDie(f)
  {
    assert forall i | 0 <= i < 6 :: Faces[i] == i + 1;
    forall f | IsDie(f) ensures f in Faces {
      assert Faces[f - 1] == f;
    }
  }

  lemma DieValue(d: Dice, v: int)
    requires v in d
    ensures IsDie(v) && v in Faces
  {
  }

  /**
   * The outcome of a re-roll: every held position keeps its die, every other
   * position takes the freshly drawn value at that position.
   */
  function RollSelected(dice: Dice, holds: set<int>, drawn: Dice): (r: Dice)
    ensures forall i :: 0 <= i < |r| && i in holds ==> r[i] == dice[i]
    ensures forall i :: 0 <= i < |r| && i !in holds ==> r[i] == drawn[i]
  {
    seq(5, i requires 0 <= i < 5 => if i in holds then dice[i] else drawn[i])
  }

  lemma RollSelectedExtremes(dice: Dice, drawn: Dice)
    ensures RollSelected(dice, {}, drawn) == drawn
    ensures RollSelected(dice, {0, 1, 2, 3, 4}, drawn) == dice
  {
  }

  // ---------------------------------------------------------------------
  // Counting

  /** The number of dice showing v, that is, Counter(dice)[v]. */
  function Count(d: seq<int>, v: int): (n: nat)
    ensures n <= |d|
    ensures n > 0 <==> v in d
    decreases |d|
  {
    if d == [] then 0
    else
      assert v in d <==> d[0] == v || v in d[1..] by { assert d == [d[0]] + d[1..]; }
      (if d[0] == v then 1 else 0) + Count(d[1..], v)
  }

  lemma {:induction false} CountIsMultiplicity(d: seq<int>, v: int)
    ensures Count(d, v) == multiset(d)[v]
    decreases |d|
  {
    if d != [] {
      CountIsMultiplicity(d[1..], v);
      assert d == [d[0]] + d[1..];
    }
  }

  lemma {:induction false} CountOfDistinct(vs: seq<int>, x: int)
    requires Distinct(vs)
    ensures Count(vs, x) <= 1
    decreases |vs|
  {
    if vs != [] {
      assert Distinct(vs[1..]);
      CountOfDistinct(vs[1..], x);
      if vs[0] == x {
        assert x !in vs[1..];
      }
    }
  }

  lemma {:induction false} CountAll(d: seq<int>, v: int)
    ensures Count(d, v) == |d| <==> forall i :: 0 <= i < |d| ==> d[i] == v
    decreases |d|
  {
    if d != [] {
      CountAll(d[1..], v);
      if forall i :: 0 <= i < |d| ==> d[i] == v {
        assert forall i :: 0 <= i < |d[1..]| ==> d[1..][i] == v by {
          forall i | 0 <= i < |d[1..]| ensures d[1..][i] == v {
            assert d[1..][i] == d[i + 1];
          }
        }
      }
      if Count(d, v) == |d| {
        forall i | 0 <= i < |d| ensures d[i] == v {
          if i > 0 {
            assert d[i] == d[1..][i - 1];
          }
        }
      }
    }
  }

  /** The sum of the counts of the listed values. */
  function SumCounts(d: seq<int>, vs: seq<int>): nat
    decreases |vs|
  {
    if vs == [] then 0 else Count(d, vs[0]) + SumCounts(d, vs[1..])
  }

  lemma {:induction false} SumCountsOfEmpty(vs: seq<int>)
    ensures SumCounts([], vs) == 0
    decreases |vs|
  {
    if vs != [] {
      SumCountsOfEmpty(vs[1..]);
    }
  }

  lemma {:induction false} SumCountsCons(x: int, t: seq<int>, vs: seq<int>)
    ensures SumCounts([x] + t, vs) == Count(vs, x) + SumCounts(t, vs)
    decreases |vs|
  {
    if vs != [] {
      SumCountsCons(x, t, vs[1..]);
      assert ([x] + t)[1..] == t;
    }
  }

  /** Distinct values together occur at most as often as there are dice. */
  lemma {:induction false} SumCountsAtMostLength(d: seq<int>, vs: seq<int>)
    requires Distinct(vs)
    ensures SumCounts(d, vs) <= |d|
    decreases |d|
  {
    if d == [] {
      SumCountsOfEmpty(vs);
    } else {
      SumCountsAtMostLength(d[1..], vs);
      assert d == [d[0]] + d[1..];
      SumCountsCons(d[0], d[1..], vs);
      CountOfDistinct(vs, d[0]);
    }
  }

  lemma CountsOfTwo(d: seq<int>, a: int, b: int)
    requires a != b
    ensures Count(d, a) + Count(d, b) <= |d|
  {
    SumCountsAtMostLength(d, [a, b]);
    assert [a, b][1..] == [b];
    assert [b][1..] == [];
  }

  lemma CountsOfThree(d: seq<int>, a: int, b: int, c: int)
    requires a != b && a != c && b != c
    ensures Count(d, a) + Count(d, b) + Count(d, c) <= |d|
  {
    SumCountsAtMostLength(d, [a, b, c]);
    assert [a, b, c][1..] == [b, c];
    assert [b, c][1..] == [c];
    assert [c][1..] == [];
  }

  /** When every listed value occurs, each of them counts at least one in the sum. */
  lemma {:induction false} SumCountsLowerBound(d: seq<int>, vs: seq<int>, i: nat)
    requires i < |vs|
    requires forall j :: 0 <= j < |vs| ==> Count(d, vs[j]) >= 1
    ensures SumCounts(d, vs) >= |vs| - 1 + Count(d, vs[i])
    decreases |vs|
  {
    if i == 0 {
      if |vs| > 1 {
        SumCountsLowerBound(d, vs[1..], 0);
        assert Count(d, vs[1..][0]) >= 1;
      }
    } else {
      assert forall j :: 0 <= j < |vs[1..]| ==> Count(d, vs[1..][j]) >= 1 by {
        forall j | 0 <= j < |vs[1..]| ensures Count(d, vs[1..][j]) >= 1 {
          assert vs[1..][j] == vs[j + 1];
        }
      }
      SumCountsLowerBound(d, vs[1..], i - 1);
      assert vs[1..][i - 1] == vs[i];
    }
  }

  // ---------------------------------------------------------------------
  // Sums, upper scores, the value counts and their maximum

  function Sum(d: seq<int>): int
    decreases |d|
  {
    if d == [] then 0 else d[0] + Sum(d[1..])
  }

  lemma {:induction false} SumOfDiceBounds(d: seq<int>)
    requires forall i :: 0 <= i < |d| ==> IsDie(d[i])
    ensures |d| <= Sum(d) <= 6 * |d|
    decreases |d|
  {
    if d != [] {
      assert forall i :: 0 <= i < |d[1..]| ==> IsDie(d[1..][i]) by {
        forall i | 0 <= i < |d[1..]| ensures IsDie(d[1..][i]) {
          assert d[1..][i] == d[i + 1];
        }
      }
      SumOfDiceBounds(d[1..]);
    }
  }

  /** score_upper: the sum of the dice that show the given face. */
  function ScoreUpper(d: seq<int>, face: int): int
    decreases |d|
  {
    if d == [] then 0 else (if d[0] == face then d[0] else 0) + ScoreUpper(d[1..], face)
  }

  lemma {:induction false} ScoreUpperIsFaceTimesCount(d: seq<int>, face: int)
    ensures ScoreUpper(d, face) == face * Count(d, face)
    decreases |d|
  {
    if d != [] {
      ScoreUpperIsFaceTimesCount(d[1..], face);
      var n := Count(d[1..], face);
      if d[0] == face {
        assert face * (1 + n) == face + face * n;
      }
    }
  }

  lemma UpperScoreBounds(d: Dice, face: int)
    requires IsDie(face)
    ensures 0 <= ScoreUpper(d, face) <= 5 * face <= 30
  {
    ScoreUpperIsFaceTimesCount(d, face);
    var n := Count(d, face);
    assert face * n <= face * 5;
  }

  /** The largest count among the values shown by the first k dice. */
  function MaxCountAmong(d: seq<int>, k: nat): (m: nat)
    requires 0 < k <= |d|
    ensures exists i :: 0 <= i < k && m == Count(d, d[i])
    ensures forall i :: 0 <= i < k ==> Count(d, d[i]) <= m
    decreases k
  {
    if k == 1 then Count(d, d[0])
    else
      var m' := MaxCountAmong(d, k - 1);
      var c := Count(d, d[k - 1]);
      if c > m' then c else m'
  }

  /** max(Counter(dice).values()): the largest number of dice showing one value. */
  function MaxCount(d: seq<int>): (m: nat)
    requires |d| > 0
    ensures 1 <= m <= |d|
    ensures exists i :: 0 <= i < |d| && m == Count(d, d[i])
    ensures forall v :: Count(d, v) <= m
  {
    var m := MaxCountAmong(d, |d|);
    assert forall v :: v in d ==> exists i :: 0 <= i < |d| && d[i] == v;
    assert Count(d, d[0]) >= 1;
    m
  }

  /** Some value shows at least k times exactly when the largest count is at least k. */
  lemma MaxCountAtLeast(d: seq<int>, k: int)
    requires |d| > 0
    ensures MaxCount(d) >= k <==> exists v :: Count(d, v) >= k
  {
    var m := MaxCount(d);
    var i :| 0 <= i < |d| && m == Count(d, d[i]);
    if m >= k {
      assert Count(d, d[i]) >= k;
    }
    if exists v :: Count(d, v) >= k {
      var v :| Count(d, v) >= k;
      assert Count(d, v) <= m;
    }
  }

  /**
   * The multiset of the non-zero counts of the listed faces. Over all six
   * faces it is the multiset of Counter(dice).values(), since a die shows
   * nothing else.
   */
  function CountProfile(d: seq<int>, faces: seq<int>): multiset<nat>
    decreases |faces|
  {
    if faces == [] then multiset{}
    else
      var n := Count(d, faces[0]);
      (if n > 0 then multiset{n} else multiset{}) + CountProfile(d, faces[1..])
  }

  function ValueCounts(d: Dice): multiset<nat> {
    CountProfile(d, Faces)
  }

  /** sorted(Counter(dice).values()) == [2, 3]: the counts are one pair and one triple. */
  predicate IsFullHouse(d: Dice) {
    ValueCounts(d) == multiset{2, 3}
  }

  lemma {:induction false} CountProfileMember(d: seq<int>, faces: seq<int>, k: int)
    ensures k in CountProfile(d, faces) <==> k > 0 && exists f :: f in faces && Count(d, f) == k
    decreases |faces|
  {
    if faces != [] {
      CountProfileMember(d, faces[1..], k);
      var n := Count(d, faces[0]);
      var head: multiset<nat> := if n > 0 then multiset{n} else multiset{};
      assert CountProfile(d, faces) == head + CountProfile(d, faces[1..]);
      if k in CountProfile(d, faces) {
        if k in head {
          assert faces[0] in faces && Count(d, faces[0]) == k;
        } else {
          var f :| f in faces[1..] && Count(d, f) == k;
          assert f in faces;
        }
      }
      if k > 0 && exists f :: f in faces && Count(d, f) == k {
        var f :| f in faces && Count(d, f) == k;
        if f != faces[0] {
          assert faces == [faces[0]] + faces[1..];
          assert f in faces[1..];
        }
      }
    }
  }

  /** Counter(dice).values() holds exactly the counts of values that occur. */
  lemma ValueCountsAreCounts(d: Dice, k: int)
    ensures k in ValueCounts(d) <==> k > 0 && exists v :: Count(d, v) == k
  {
    CountProfileMember(d, Faces, k);
    if k > 0 && exists v :: Count(d, v) == k {
      var v :| Count(d, v) == k;
      DieValue(d, v);
    }
  }

  /** The profile when at most the two values a and b occur among the faces. */
  lemma {:induction false} CountProfileOfTwo(d: seq<int>, faces: seq<int>, a: int, b: int)
    requires Distinct(faces) && a != b
    requires forall f :: f in faces && f != a && f != b ==> Count(d, f) == 0
    ensures CountProfile(d, faces) == Present(d, faces, a) + Present(d, faces, b)
    decreases |faces|
  {
    if faces != [] {
      var f, rest := faces[0], faces[1..];
      assert faces == [f] + rest;
      assert f !in rest && Distinct(rest);
      CountProfileOfTwo(d, rest, a, b);
      CountProfileStep(d, f, rest, a, b);
    }
  }

  lemma CountProfileStep(d: seq<int>, f: int, rest: seq<int>, a: int, b: int)
    requires a != b && f !in rest
    requires f != a && f != b ==> Count(d, f) == 0
    requires CountProfile(d, rest) == Present(d, rest, a) + Present(d, rest, b)
    ensures CountProfile(d, [f] + rest) == Present(d, [f] + rest, a) + Present(d, [f] + rest, b)
  {
    var faces := [f] + rest;
    assert faces[1..] == rest;
    var n := Count(d, f);
    var head: multiset<nat> := if n > 0 then multiset{n} else multiset{};
    assert CountProfile(d, faces) == head + CountProfile(d, rest);
    PresentStep(d, f, rest, a);
    PresentStep(d, f, rest, b);
  }

  lemma PresentStep(d: seq<int>, f: int, rest: seq<int>, v: int)
    requires f !in rest
    ensures v == f ==> Present(d, rest, v) == multiset{}
    ensures Present(d, [f] + rest, v) ==
      if v == f then (if Count(d, f) > 0 then multiset{Count(d, f)} else multiset{})
      else Present(d, rest, v)
  {
    assert v in [f] + rest <==> v == f || v in rest;
  }

  /** The count of v as a one-element multiset, when v is listed and occurs. */
  function Present(d: seq<int>, faces: seq<int>, v: int): multiset<nat> {
    if v in faces && Count(d, v) > 0 then multiset{Count(d, v)} else multiset{}
  }

  // ---------------------------------------------------------------------
  // Straights

  /** set(dice): the distinct values shown. */
  function Values(d: seq<int>): set<int> {
    set x | x in d
  }

  predicate IsSmallStraight(d: seq<int>) {
    var s := Values(d);
    {1, 2, 3, 4} <= s || {2, 3, 4, 5} <= s || {3, 4, 5, 6} <= s
  }

  predicate IsLargeStraight(d: seq<int>) {
    var s := Values(d);
    s == {1, 2, 3, 4, 5} || s == {2, 3, 4, 5, 6}
  }

  lemma LargeStraightIsSmallStraight(d: seq<int>)
    requires IsLargeStraight(d)
    ensures IsSmallStraight(d)
  {
  }

  /** Five dice showing five distinct values show each of them once. */
  lemma FiveDistinctValues(d: Dice, vs: seq<int>)
    requires |vs| == 5 && Distinct(vs)
    requires Values(d) == set x | x in vs
    ensures forall v :: Count(d, v) == Count(vs, v)
  {
    forall j | 0 <= j < |vs| ensures Count(d, vs[j]) >= 1 {
      assert vs[j] in Values(d);
    }
    SumCountsAtMostLength(d, vs);
    forall v ensures Count(d, v) == Count(vs, v) {
      CountOfDistinct(vs, v);
      if v in vs {
        var i :| 0 <= i < |vs| && vs[i] == v;
        SumCountsLowerBound(d, vs, i);
      } else {
        assert v !in Values(d);
      }
    }
  }

  lemma SameCountsSameMultiset(d: seq<int>, e: seq<int>)
    requires forall v :: Count(d, v) == Count(e, v)
    ensures multiset(d) == multiset(e)
  {
    forall v ensures multiset(d)[v] == multiset(e)[v] {
      CountIsMultiplicity(d, v);
      CountIsMultiplicity(e, v);
    }
  }

  lemma ValuesAsMultiset(d: Dice, vs: seq<int>)
    requires |vs| == 5 && Distinct(vs)
    requires Values(d) == set x | x in vs
    ensures multiset(d) == multiset(vs)
  {
    FiveDistinctValues(d, vs);
    SameCountsSameMultiset(d, vs);
  }

  lemma LargeStraightToPermutation(d: Dice)
    requires IsLargeStraight(d)
    ensures multiset(d) == multiset{1, 2, 3, 4, 5} || multiset(d) == multiset{2, 3, 4, 5, 6}
  {
    if Values(d) == {1, 2, 3, 4, 5} {
      var vs := [1, 2, 3, 4, 5];
      assert (set x | x in vs) == {1, 2, 3, 4, 5};
      ValuesAsMultiset(d, vs);
    } else {
      var vs := [2, 3, 4, 5, 6];
      assert (set x | x in vs) == {2, 3, 4, 5, 6};
      ValuesAsMultiset(d, vs);
    }
  }

  lemma PermutationToLargeStraight(d: Dice)
    requires multiset(d) == multiset{1, 2, 3, 4, 5} || multiset(d) == multiset{2, 3, 4, 5, 6}
    ensures IsLargeStraight(d)
  {
    assert forall x :: x in Values(d) <==> x in multiset(d);
  }

  /** A large straight is exactly a roll that is a permutation of 1..5 or of 2..6. */
  lemma LargeStraightIsPermutation(d: Dice)
    ensures IsLargeStraight(d) <==>
      multiset(d) == multiset{1, 2, 3, 4, 5} || multiset(d) == multiset{2, 3, 4, 5, 6}
  {
    if IsLargeStraight(d) {
      LargeStraightToPermutation(d);
    }
    if multiset(d) == multiset{1, 2, 3, 4, 5} || multiset(d) == multiset{2, 3, 4, 5, 6} {
      PermutationToLargeStraight(d);
    }
  }

  // ---------------------------------------------------------------------
  // The score of one roll in one category

  /** score_category: what the roll would score if entered in the category. */
  function ScoreCategory(d: Dice, c: Category): (r: int)
    ensures 0 <= r <= YahtzeeScore
  {
    SumOfDiceBounds(d);
    match c
    case ThreeOfAKind => if MaxCount(d) >= 3 then Sum(d) else 0
    case FourOfAKind => if MaxCount(d) >= 4 then Sum(d) else 0
    case FullHouse => if IsFullHouse(d) then FullHouseScore else 0
    case SmallStraight => if IsSmallStraight(d) then SmallStraightScore else 0
    case LargeStraight => if IsLargeStraight(d) then LargeStraightScore else 0
    case Yahtzee => if MaxCount(d) == 5 then YahtzeeScore else 0
    case Chance => Sum(d)
    case _ =>
      UpperScoreBounds(d, Face(c));
      ScoreUpper(d, Face(c))
  }

  /** An upper category scores its face times the number of dice showing it. */
  lemma UpperCategoryScore(d: Dice, c: Category)
    requires IsUpper(c)
    ensures ScoreCategory(d, c) == Face(c) * Count(d, Face(c))
    ensures ScoreCategory(d, c) % Face(c) == 0
    ensures 0 <= ScoreCategory(d, c) <= 5 * Face(c)
  {
    var f := Face(c);
    ScoreUpperIsFaceTimesCount(d, f);
    var n := Count(d, f);
    assert f * n <= f * 5;
    assert (f * n) % f == 0;
  }

  /** Three of a Kind scores the sum when some value shows three times, else nothing. */
  lemma ThreeOfAKindScore(d: Dice)
    ensures ScoreCategory(d, ThreeOfAKind) == if exists v :: Count(d, v) >= 3 then Sum(d) else 0
  {
    MaxCountAtLeast(d, 3);
  }

  /** Four of a Kind scores the sum when some value shows four times, else nothing. */
  lemma FourOfAKindScore(d: Dice)
    ensures ScoreCategory(d, FourOfAKind) == if exists v :: Count(d, v) >= 4 then Sum(d) else 0
  {
    MaxCountAtLeast(d, 4);
  }

  /** Chance always scores the sum of the dice, which lies between 5 and 30. */
  lemma ChanceScore(d: Dice)
    ensures ScoreCategory(d, Chance) == Sum(d)
    ensures 5 <= Sum(d) <= 30
  {
    SumOfDiceBounds(d);
  }

  /** Counter(dice).values() is {2, 3} exactly when one value shows three times and another twice. */
  lemma FullHouseCounts(d: Dice)
    ensures IsFullHouse(d) <==>
      exists a, b :: a != b && Count(d, a) == 3 && Count(d, b) == 2
  {
    if ValueCounts(d) == multiset{2, 3} {
      CountProfileMember(d, Faces, 3);
      CountProfileMember(d, Faces, 2);
      var a :| a in Faces && Count(d, a) == 3;
      var b :| b in Faces && Count(d, b) == 2;
      assert a != b && Count(d, a) == 3 && Count(d, b) == 2;
    }
    if exists a, b :: a != b && Count(d, a) == 3 && Count(d, b) == 2 {
      var a, b :| a != b && Count(d, a) == 3 && Count(d, b) == 2;
      FullHouseProfile(d, a, b);
    }
  }

  lemma FullHouseProfile(d: Dice, a: int, b: int)
    requires a != b && Count(d, a) == 3 && Count(d, b) == 2
    ensures IsFullHouse(d)
  {
    DieValue(d, a);
    DieValue(d, b);
    OnlyTwoValues(d, a, b);
    FacesAreDistinct();
    CountProfileOfTwo(d, Faces, a, b);
  }

  /** A triple and a pair fill all five dice. */
  lemma OnlyTwoValues(d: Dice, a: int, b: int)
    requires a != b && Count(d, a) == 3 && Count(d, b) == 2
    ensures forall f :: f != a && f != b ==> Count(d, f) == 0
  {
    forall f | f != a && f != b ensures Count(d, f) == 0 {
      CountsOfThree(d, a, b, f);
    }
  }

  /** Full House scores 25 exactly when one value shows three times and another twice. */
  lemma FullHouseExactly(d: Dice)
    ensures ScoreCategory(d, FullHouse) in {0, FullHouseScore}
    ensures ScoreCategory(d, FullHouse) == FullHouseScore <==>
      exists a, b :: a != b && Count(d, a) == 3 && Count(d, b) == 2
  {
    FullHouseCounts(d);
  }

  /** Five of a kind is not a full house. */
  lemma FiveOfAKindIsNoFullHouse(d: Dice)
    requires forall i :: 0 <= i < |d| ==> d[i] == d[0]
    ensures ScoreCategory(d, FullHouse) == 0
  {
    FullHouseExactly(d);
    CountAll(d, d[0]);
    forall a, b | a != b ensures !(Count(d, a) == 3 && Count(d, b) == 2) {
      if a == d[0] {
        CountsOfTwo(d, a, b);
      } else {
        CountsOfTwo(d, d[0], a);
      }
    }
  }

  /** Yahtzee scores 50 exactly when all five dice show the same value. */
  lemma YahtzeeExactly(d: Dice)
    ensures ScoreCategory(d, Yahtzee) in {0, YahtzeeScore}
    ensures ScoreCategory(d, Yahtzee) == YahtzeeScore <==> forall i :: 0 <= i < |d| ==> d[i] == d[0]
  {
    var m := MaxCount(d);
    if m == 5 {
      var i :| 0 <= i < |d| && m == Count(d, d[i]);
      CountAll(d, d[i]);
    }
    CountAll(d, d[0]);
  }

  /** The straights score 30 and 40 exactly when their tests hold. */
  lemma StraightScores(d: Dice)
    ensures ScoreCategory(d, SmallStraight) == (if IsSmallStraight(d) then SmallStraightScore else 0)
    ensures ScoreCategory(d, LargeStraight) == (if IsLargeStraight(d) then LargeStraightScore else 0)
    ensures ScoreCategory(d, LargeStraight) == LargeStraightScore ==>
            ScoreCategory(d, SmallStraight) == SmallStraightScore
  {
  }

  lemma StraightExamples()
    ensures !IsLargeStraight([1, 2, 3, 4, 4])
    ensures ScoreCategory([2, 3, 4, 5, 6], LargeStraight) == LargeStraightScore
    ensures ScoreCategory([1, 1, 2, 3, 4], SmallStraight) == SmallStraightScore
  {
    assert 5 !in Values([1, 2, 3, 4, 4]) && 6 !in Values([1, 2, 3, 4, 4]);
    assert Values([2, 3, 4, 5, 6]) == {2, 3, 4, 5, 6};
    assert {1, 2, 3, 4} <= Values([1, 1, 2, 3, 4]);
  }

  // ---------------------------------------------------------------------
  // Scorecards and totals

  /** A scorecard maps each category to its score, or None while unscored. */
  type Scorecard = map<Category, Option<int>>

  datatype Totals = Totals(upper: int, lower: int, bonus: int, grand: int)

  /** The card every player starts with: every category present and unscored. */
  function EmptyCard(): (card: Scorecard)
    ensures forall c :: c in card && card[c] == None
  {
    CategoriesComplete();
    map c | c in Categories :: None
  }

  /** What a category contributes to a total: its score, or 0 while unscored. */
  function Scored(card: Scorecard, c: Category): int {
    if c in card && card[c].Some? then card[c].value else 0
  }

  /** The sum of the scored upper entries. */
  function UpperSum(card: Scorecard): int {
    Scored(card, Ones) + Scored(card, Twos) + Scored(card, Threes)
    + Scored(card, Fours) + Scored(card, Fives) + Scored(card, Sixes)
  }

  /** The sum of the scored lower entries. */
  function LowerSum(card: Scorecard): int {
    Scored(card, ThreeOfAKind) + Scored(card, FourOfAKind) + Scored(card, FullHouse)
    + Scored(card, SmallStraight) + Scored(card, LargeStraight) + Scored(card, Yahtzee)
    + Scored(card, Chance)
  }

  /** score_totals: upper subtotal, lower subtotal, upper bonus and grand total. */
  function ScoreTotals(card: Scorecard): (t: Totals)
    ensures t.bonus == (if t.upper >= UpperBonusThreshold then UpperBonus else 0)
    ensures t.grand == t.upper + t.bonus + t.lower
  {
    var upper := UpperSum(card);
    var lower := LowerSum(card);
    var bonus := if upper >= UpperBonusThreshold then UpperBonus else 0;
    Totals(upper, lower, bonus, upper + bonus + lower)
  }

  /** Unscored entries contribute nothing: a fresh card totals zero. */
  lemma EmptyCardTotals()
    ensures ScoreTotals(EmptyCard()) == Totals(0, 0, 0, 0)
  {
  }

  lemma ScoredAfterRecord(card: Scorecard, c: Category, v: int, k: Category)
    requires c !in card || card[c] == None
    ensures Scored(card[c := Some(v)], k) == Scored(card, k) + (if k == c then v else 0)
  {
  }

  /**
   * Entering a score v in an unscored category adds v to the subtotal of that
   * category's side, leaves the other subtotal alone, and raises the grand
   * total by at least v when v is not negative.
   */
  lemma RecordingAScore(card: Scorecard, c: Category, v: int)
    requires c !in card || card[c] == None
    ensures var t, t' := ScoreTotals(card), ScoreTotals(card[c := Some(v)]);
      && t'.upper == t.upper + (if IsUpper(c) then v else 0)
      && t'.lower == t.lower + (if IsUpper(c) then 0 else v)
      && (v >= 0 ==> t'.grand >= t.grand + v)
  {
    UpperSumAfterRecord(card, c, v);
    LowerSumAfterRecord(card, c, v);
  }

  lemma UpperSumAfterRecord(card: Scorecard, c: Category, v: int)
    requires c !in card || card[c] == None
    ensures UpperSum(card[c := Some(v)]) == UpperSum(card) + (if IsUpper(c) then v else 0)
  {
    ScoredAfterRecord(card, c, v, Ones);
    ScoredAfterRecord(card, c, v, Twos);
    ScoredAfterRecord(card, c, v, Threes);
    ScoredAfterRecord(card, c, v, Fours);
    ScoredAfterRecord(card, c, v, Fives);
    ScoredAfterRecord(card, c, v, Sixes);
  }

  lemma LowerSumAfterRecord(card: Scorecard, c: Category, v: int)
    requires c !in card || card[c] == None
    ensures LowerSum(card[c := Some(v)]) == LowerSum(card) + (if IsUpper(c) then 0 else v)
  {
    ScoredAfterRecord(card, c, v, ThreeOfAKind);
    ScoredAfterRecord(card, c, v, FourOfAKind);
    ScoredAfterRecord(card, c, v, FullHouse);
    ScoredAfterRecord(card, c, v, SmallStraight);
    ScoredAfterRecord(card, c, v, LargeStraight);
    ScoredAfterRecord(card, c, v, Yahtzee);
    ScoredAfterRecord(card, c, v, Chance);
  }
}
