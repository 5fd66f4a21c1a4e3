/** `evaluate_hand` of the live server (server.py): every five-card
    combination of a player's hole and community cards is scored, and the
    greatest score under Python's list order wins, starting from eight
    zeros. */
module HandSearch {
  import opened ServerCards
  import opened HandScore

  // ------------------------------------------------------ Python list order

  /** Python's `a < b` on lists of ints: the first difference decides, and
      a proper prefix is smaller. */
  predicate Below(a: seq<int>, b: seq<int>)
    decreases |a|
  {
    if a == [] then b != []
    else if b == [] then false
    else if a[0] != b[0] then a[0] < b[0]
    else Below(a[1..], b[1..])
  }

  lemma {:induction false} BelowIrreflexive(a: seq<int>)
    ensures !Below(a, a)
    decreases |a|
  {
    if a != [] {
      BelowIrreflexive(a[1..]);
    }
  }

  lemma {:induction false} BelowTransitive(a: seq<int>, b: seq<int>, c: seq<int>)
    requires Below(a, b) && Below(b, c)
    ensures Below(a, c)
    decreases |a|
  {
    if a != [] && a[0] == b[0] && b[0] == c[0] {
      BelowTransitive(a[1..], b[1..], c[1..]);
    }
  }

  /** Two different lists are ordered one way, and never both ways. */
  lemma {:induction false} BelowTotal(a: seq<int>, b: seq<int>)
    ensures a != b <==> Below(a, b) || Below(b, a)
    ensures !(Below(a, b) && Below(b, a))
    decreases |a|
  {
    if a != [] && b != [] && a[0] == b[0] {
      BelowTotal(a[1..], b[1..]);
      assert a == [a[0]] + a[1..] && b == [b[0]] + b[1..];
    } else if a == b {
      BelowIrreflexive(a);
    }
  }

  // ------------------------------------------------ itertools.combinations

  /** x in front of each list. */
  function ConsAll<T>(x: T, cs: seq<seq<T>>): (r: seq<seq<T>>)
    ensures |r| == |cs| && forall i :: 0 <= i < |cs| ==> r[i] == [x] + cs[i]
  {
    seq(|cs|, i requires 0 <= i < |cs| => [x] + cs[i])
  }

  /** `itertools.combinations(s, k)`, in its order: those that take the
      first item come first. */
  function Combinations<T>(s: seq<T>, k: nat): seq<seq<T>>
    decreases |s|
  {
    if k == 0 then [[]]
    else if |s| < k then []
    else ConsAll(s[0], Combinations(s[1..], k - 1)) + Combinations(s[1..], k)
  }

  /** Positions 0 <= idx[0] < idx[1] < ... < n. */
  predicate IsPick(idx: seq<int>, n: int)
  {
    (forall i :: 0 <= i < |idx| ==> 0 <= idx[i] < n)
    && (forall i, j :: 0 <= i < j < |idx| ==> idx[i] < idx[j])
  }

  /** The items of s at the positions idx. */
  function Select<T>(s: seq<T>, idx: seq<int>): (r: seq<T>)
    requires IsPick(idx, |s|)
    ensures |r| == |idx| && forall i :: 0 <= i < |idx| ==> r[i] == s[idx[i]]
  {
    seq(|idx|, i requires 0 <= i < |idx| => s[idx[i]])
  }

  function Shift(idx: seq<int>, d: int): (r: seq<int>)
    ensures |r| == |idx| && forall i :: 0 <= i < |idx| ==> r[i] == idx[i] + d
  {
    seq(|idx|, i requires 0 <= i < |idx| => idx[i] + d)
  }

  /** Taking the first item and then positions of the rest. */
  lemma SelectFirst<T>(s: seq<T>, idx: seq<int>)
    requires |s| > 0 && IsPick(idx, |s| - 1)
    ensures IsPick([0] + Shift(idx, 1), |s|)
    ensures Select(s, [0] + Shift(idx, 1)) == [s[0]] + Select(s[1..], idx)
  {
  }

  /** Skipping the first item. */
  lemma SelectLater<T>(s: seq<T>, idx: seq<int>)
    requires |s| > 0 && IsPick(idx, |s| - 1)
    ensures IsPick(Shift(idx, 1), |s|)
    ensures Select(s, Shift(idx, 1)) == Select(s[1..], idx)
  {
  }

  /** Every combination has k items, taken from s at increasing positions. */
  lemma {:induction false} CombinationsSound<T>(s: seq<T>, k: nat, c: seq<T>)
    requires c in Combinations(s, k)
    ensures |c| == k && exists idx :: IsPick(idx, |s|) && |idx| == k && c == Select(s, idx)
    decreases |s|
  {
    if k == 0 {
      assert c == Select(s, []);
    } else {
      var rest := s[1..];
      var sub := Combinations(rest, k - 1);
      if c in ConsAll(s[0], sub) {
        var i :| 0 <= i < |sub| && ConsAll(s[0], sub)[i] == c;
        CombinationsSound(rest, k - 1, sub[i]);
        var idx :| IsPick(idx, |rest|) && |idx| == k - 1 && sub[i] == Select(rest, idx);
        SelectFirst(s, idx);
        assert c == Select(s, [0] + Shift(idx, 1));
      } else {
        CombinationsSound(rest, k, c);
        var idx :| IsPick(idx, |rest|) && |idx| == k && c == Select(rest, idx);
        SelectLater(s, idx);
      }
    }
  }

  /** No more increasing positions than there are items. */
  lemma {:induction false} PickFits(idx: seq<int>, n: int)
    requires IsPick(idx, n)
    ensures |idx| <= if n < 0 then 0 else n
    decreases |idx|
  {
    if idx != [] {
      var last := idx[..|idx| - 1];
      PickFits(last, idx[|idx| - 1]);
    }
  }

  /** Positions that start at 0, split into the first and the rest. */
  lemma SplitFirst<T>(s: seq<T>, idx: seq<int>)
    requires IsPick(idx, |s|) && |idx| > 0 && idx[0] == 0
    ensures IsPick(Shift(idx[1..], -1), |s| - 1)
    ensures Select(s, idx) == [s[0]] + Select(s[1..], Shift(idx[1..], -1))
  {
  }

  /** Positions that skip 0, moved onto the rest. */
  lemma SplitLater<T>(s: seq<T>, idx: seq<int>)
    requires IsPick(idx, |s|) && |idx| > 0 && idx[0] != 0
    ensures IsPick(Shift(idx, -1), |s| - 1)
    ensures Select(s, idx) == Select(s[1..], Shift(idx, -1))
  {
  }

  /** Every choice of k increasing positions is one of the combinations. */
  lemma {:induction false} CombinationsComplete<T>(s: seq<T>, idx: seq<int>)
    requires IsPick(idx, |s|)
    ensures Select(s, idx) in Combinations(s, |idx|)
    decreases |s|
  {
    var k := |idx|;
    if k == 0 {
      assert Select(s, idx) == [];
    } else {
      PickFits(idx, |s|);
      var sub, later := Combinations(s[1..], k - 1), Combinations(s[1..], k);
      assert Combinations(s, k) == ConsAll(s[0], sub) + later;
      if idx[0] == 0 {
        var rest := Shift(idx[1..], -1);
        SplitFirst(s, idx);
        CombinationsComplete(s[1..], rest);
        var i :| 0 <= i < |sub| && sub[i] == Select(s[1..], rest);
        InConsAll(s[0], sub, i);
        assert Select(s, idx) in ConsAll(s[0], sub);
      } else {
        SplitLater(s, idx);
        CombinationsComplete(s[1..], Shift(idx, -1));
        assert Select(s, idx) in later;
      }
    }
  }

  lemma InConsAll<T>(x: T, cs: seq<seq<T>>, i: nat)
    requires i < |cs|
    ensures [x] + cs[i] in ConsAll(x, cs)
  {
    assert ConsAll(x, cs)[i] == [x] + cs[i];
  }

  /** n choose k. */
  function Choose(n: nat, k: nat): nat
  {
    if k == 0 then 1 else if n < k then 0 else Choose(n - 1, k - 1) + Choose(n - 1, k)
  }

  /** There are n choose k combinations, 21 for seven cards. */
  lemma {:induction false} CombinationsCount<T>(s: seq<T>, k: nat)
    ensures |Combinations(s, k)| == Choose(|s|, k)
    decreases |s|
  {
    if k > 0 && |s| >= k {
      CombinationsCount(s[1..], k - 1);
      CombinationsCount(s[1..], k);
    }
  }

  lemma SevenCardsGiveTwentyOne()
    ensures Choose(7, 5) == 21
  {
  }

  // -------------------------------------------------------- evaluate_hand

  /** `[0] * 8`, below every score a hand of five cards of a deck reaches. */
  const Floor: seq<int> := [0, 0, 0, 0, 0, 0, 0, 0]

  /** `if score > best_score: best_score = score`. */
  function Keep(best: seq<int>, score: seq<int>): seq<int>
  {
    if Below(best, score) then score else best
  }

  /** The scores of the combinations, in order. */
  function Scores(combos: seq<seq<Card>>): (r: seq<seq<int>>)
    requires forall i :: 0 <= i < |combos| ==> |combos[i]| == 5
    ensures |r| == |combos| && forall i :: 0 <= i < |combos| ==> r[i] == ScoreHand(combos[i])
  {
    seq(|combos|, i requires 0 <= i < |combos| => ScoreHand(combos[i]))
  }

  /** The best of the scores, taken in order from the floor. */
  function BestOf(scores: seq<seq<int>>): seq<int>
  {
    if scores == [] then Floor else Keep(BestOf(scores[..|scores| - 1]), scores[|scores| - 1])
  }

  /** The floor, or one of the scores. */
  lemma {:induction false} BestOfIsAScore(scores: seq<seq<int>>)
    ensures BestOf(scores) == Floor || BestOf(scores) in scores
    decreases |scores|
  {
    if scores != [] {
      BestOfIsAScore(scores[..|scores| - 1]);
    }
  }

  /** No score is above the best, nor is the floor. */
  lemma {:induction false} BestOfIsGreatest(scores: seq<seq<int>>)
    ensures forall i :: 0 <= i < |scores| ==> !Below(BestOf(scores), scores[i])
    ensures !Below(BestOf(scores), Floor)
    decreases |scores|
  {
    if scores == [] {
      BelowIrreflexive(Floor);
    } else {
      var init, last := scores[..|scores| - 1], scores[|scores| - 1];
      BestOfIsGreatest(init);
      var b := BestOf(init);
      BelowTotal(b, last);
      if Below(b, last) {
        forall i | 0 <= i < |init|
          ensures !Below(last, scores[i])
        {
          assert scores[i] == init[i];
          if Below(last, init[i]) {
            BelowTransitive(b, last, init[i]);
          }
        }
        if Below(last, Floor) {
          BelowTransitive(b, last, Floor);
        }
        BelowIrreflexive(last);
      } else {
        forall i | 0 <= i < |init|
          ensures !Below(b, scores[i])
        {
          assert scores[i] == init[i];
        }
      }
    }
  }

  /** Once some score is above the floor, the best is one of the scores. */
  lemma BestOfAboveFloor(scores: seq<seq<int>>, i: nat)
    requires i < |scores| && Below(Floor, scores[i])
    ensures BestOf(scores) in scores && Below(Floor, BestOf(scores))
  {
    var b := BestOf(scores);
    BestOfIsAScore(scores);
    BestOfIsGreatest(scores);
    BelowTotal(b, scores[i]);
    if b != scores[i] {
      BelowTransitive(Floor, scores[i], b);
    }
    BelowIrreflexive(Floor);
  }

  /** The five-card combinations of the hole and community cards. */
  function Hands(hole: seq<Card>, community: seq<Card>): (combos: seq<seq<Card>>)
    ensures forall i :: 0 <= i < |combos| ==> |combos[i]| == 5
  {
    var combos := Combinations(hole + community, 5);
    forall i | 0 <= i < |combos|
      ensures |combos[i]| == 5
    {
      CombinationsSound(hole + community, 5, combos[i]);
    }
    combos
  }

  /** What `evaluate_hand` returns. */
  function BestScore(hole: seq<Card>, community: seq<Card>): seq<int>
  {
    BestOf(Scores(Hands(hole, community)))
  }

  /** `evaluate_hand`: the loop over `itertools.combinations(all_cards, 5)`,
      keeping a score when it is above the best so far. */
  method EvaluateHand(hole: seq<Card>, community: seq<Card>) returns (best: seq<int>)
    ensures best == BestScore(hole, community)
    ensures var combos := Hands(hole, community);
      && (forall i :: 0 <= i < |combos| ==> !Below(best, ScoreHand(combos[i])))
      && (best == Floor || exists i :: 0 <= i < |combos| && best == ScoreHand(combos[i]))
  {
    best := BestAmong(Hands(hole, community));
    BestScoreMeaning(hole, community);
  }

  /** The loop of `evaluate_hand` over given combinations. */
  method BestAmong(combos: seq<seq<Card>>) returns (best: seq<int>)
    requires forall i :: 0 <= i < |combos| ==> |combos[i]| == 5
    ensures best == BestOf(Scores(combos))
  {
    best := Floor;
    for i := 0 to |combos|
      invariant best == BestUpTo(combos, i)
    {
      var score := ScoreHand(combos[i]);
      if Below(best, score) {
        best := score;
      }
    }
    BestUpToAll(combos);
  }

  /** The best score of the first i combinations, as the loop keeps it. */
  function BestUpTo(combos: seq<seq<Card>>, i: nat): seq<int>
    requires i <= |combos| && forall j :: 0 <= j < |combos| ==> |combos[j]| == 5
  {
    if i == 0 then Floor else Keep(BestUpTo(combos, i - 1), ScoreHand(combos[i - 1]))
  }

  lemma {:induction false} BestUpToPrefix(combos: seq<seq<Card>>, i: nat)
    requires i <= |combos| && forall j :: 0 <= j < |combos| ==> |combos[j]| == 5
    ensures BestUpTo(combos, i) == BestOf(Scores(combos)[..i])
  {
    if i > 0 {
      BestUpToPrefix(combos, i - 1);
      BestOfPrefixStep(Scores(combos), i);
    }
  }

  /** One more score taken into the best of a prefix. */
  lemma BestOfPrefixStep(scores: seq<seq<int>>, i: nat)
    requires 0 < i <= |scores|
    ensures BestOf(scores[..i]) == Keep(BestOf(scores[..i - 1]), scores[i - 1])
  {
    assert scores[..i][..i - 1] == scores[..i - 1];
  }

  lemma BestUpToAll(combos: seq<seq<Card>>)
    requires forall j :: 0 <= j < |combos| ==> |combos[j]| == 5
    ensures BestUpTo(combos, |combos|) == BestOf(Scores(combos))
  {
    BestUpToPrefix(combos, |combos|);
    assert Scores(combos)[..|combos|] == Scores(combos);
  }

  /** The best score is above no combination's score, and it is the floor
      or the score of a combination. */
  lemma BestScoreMeaning(hole: seq<Card>, community: seq<Card>)
    ensures var best, combos := BestScore(hole, community), Hands(hole, community);
      && (forall i :: 0 <= i < |combos| ==> !Below(best, ScoreHand(combos[i])))
      && (best == Floor || exists i :: 0 <= i < |combos| && best == ScoreHand(combos[i]))
  {
    var scores := Scores(Hands(hole, community));
    BestOfIsGreatest(scores);
    BestOfIsAScore(scores);
  }

  // ------------------------------------------------------ above the floor

  /** Five different cards of a deck hold a value above the deuce: four
      suits cannot hold five deuces. */
  lemma NotFiveDeuces(cards: seq<Card>)
    requires |cards| == 5 && DistinctFaces(cards)
    ensures exists i :: 0 <= i < 5 && cards[i].value > 0
  {
    var c0, c1, c2, c3, c4 := cards[0], cards[1], cards[2], cards[3], cards[4];
    assert 0 <= c0.suit < 4 && 0 <= c1.suit < 4 && 0 <= c2.suit < 4 && 0 <= c3.suit < 4 && 0 <= c4.suit < 4;
  }

  /** Every hand of five different cards scores above the floor, so the
      floor survives only when there are fewer than five cards. */
  lemma ScoreAboveFloor(cards: seq<Card>)
    requires |cards| == 5 && DistinctFaces(cards)
    ensures Below(Floor, ScoreHand(cards))
  {
    LeadingValue(cards);
    AboveFloor(ScoreHand(cards));
  }

  /** A score that leads with a category above high card, or a high card
      above the deuce, is above the floor. */
  lemma AboveFloor(score: seq<int>)
    requires |score| >= 2 && 0 <= score[0] && (score[0] > 0 || score[1] > 0)
    ensures Below(Floor, score)
  {
    if score[0] == 0 {
      assert Floor[1..][0] != score[1..][0];
    }
  }

  /** A high card hand of different cards leads with a value above the
      deuce. */
  lemma LeadingValue(cards: seq<Card>)
    requires |cards| == 5 && DistinctFaces(cards)
    ensures ScoreHand(cards)[0] > 0 || ScoreHand(cards)[1] > 0
  {
    var s := Sort(Values(cards));
    ScoreHandHead(cards);
    SortDescHead(s);
    TopValue(cards);
  }

  /** The highest of five different cards is above the deuce. */
  lemma TopValue(cards: seq<Card>)
    requires |cards| == 5 && DistinctFaces(cards)
    ensures Sort(Values(cards))[4] > 0
  {
    NotFiveDeuces(cards);
    var i :| 0 <= i < 5 && cards[i].value > 0;
    TopBounds(Sort(Values(cards)), Values(cards), i);
  }

  /** The last of ascending values is the greatest of any arrangement. */
  lemma TopBounds(s: seq<int>, vs: seq<int>, i: nat)
    requires |s| > 0 && SortedAsc(s) && multiset(s) == multiset(vs) && i < |vs|
    ensures vs[i] <= s[|s| - 1]
  {
    assert vs[i] in multiset(s);
  }

  /** Positions taken in order keep cards different. */
  lemma SelectKeepsFaces(s: seq<Card>, idx: seq<int>)
    requires IsPick(idx, |s|) && DistinctFaces(s)
    ensures DistinctFaces(Select(s, idx))
  {
  }

  /** With five or more different cards, `evaluate_hand` returns the score
      of one of the combinations, above the floor. */
  lemma BestScoreIsAHand(hole: seq<Card>, community: seq<Card>)
    requires |hole + community| >= 5 && DistinctFaces(hole + community)
    ensures var best, combos := BestScore(hole, community), Hands(hole, community);
      Below(Floor, best) && exists i :: 0 <= i < |combos| && best == ScoreHand(combos[i])
  {
    var all := hole + community;
    var combos := Hands(hole, community);
    var i := FirstFiveIsAHand(all);
    ScoreAboveFloor(combos[i]);
    var scores := Scores(combos);
    BestOfAboveFloor(scores, i);
  }

  /** The first five cards are a combination, and it has five different
      cards. */
  lemma FirstFiveIsAHand(all: seq<Card>) returns (i: nat)
    requires |all| >= 5 && DistinctFaces(all)
    ensures var combos := Combinations(all, 5);
      i < |combos| && |combos[i]| == 5 && DistinctFaces(combos[i])
  {
    var combos := Combinations(all, 5);
    var idx := [0, 1, 2, 3, 4];
    CombinationsComplete(all, idx);
    var c := Select(all, idx);
    i :| 0 <= i < |combos| && combos[i] == c;
    SelectKeepsFaces(all, idx);
  }
}
