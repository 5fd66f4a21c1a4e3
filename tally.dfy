/** Sums and counts over the per-seat columns both engines keep (stacks, bets,
    folded and in-hand flags), and the facts the engines' bookkeeping rests on. */
module Tally {

  function Sum(s: seq<int>): int
  {
    if |s| == 0 then 0 else Sum(s[..|s| - 1]) + s[|s| - 1]
  }

  /** Changing one entry changes the sum by the same amount. */
  lemma {:induction false} SumUpdate(s: seq<int>, i: nat, v: int)
    requires i < |s|
    ensures Sum(s[i := v]) == Sum(s) - s[i] + v
    decreases |s|
  {
    var t := s[i := v];
    if i < |s| - 1 {
      assert t[..|t| - 1] == s[..|s| - 1][i := v];
      SumUpdate(s[..|s| - 1], i, v);
    } else {
      assert t[..|t| - 1] == s[..|s| - 1];
    }
  }

  /** The same, for a sequence that differs from another at position i only. */
  lemma SumOneChanged(before: seq<int>, after: seq<int>, i: nat)
    requires |after| == |before| && i < |before|
    requires forall j :: 0 <= j < |before| && j != i ==> after[j] == before[j]
    ensures Sum(after) == Sum(before) - before[i] + after[i]
  {
    assert after == before[i := after[i]];
    SumUpdate(before, i, after[i]);
  }

  lemma {:induction false} SumAppend(s: seq<int>, v: int)
    ensures Sum(s + [v]) == Sum(s) + v
  {
    assert (s + [v])[..|s|] == s;
  }

  lemma {:induction false} SumZeros(s: seq<int>)
    requires forall i :: 0 <= i < |s| ==> s[i] == 0
    ensures Sum(s) == 0
    decreases |s|
  {
    if s != [] {
      SumZeros(s[..|s| - 1]);
    }
  }

  /** The sum of the first k entries. */
  lemma {:induction false} SumPrefixStep(s: seq<int>, k: nat)
    requires k < |s|
    ensures Sum(s[..k + 1]) == Sum(s[..k]) + s[k]
  {
    assert s[..k + 1][..k] == s[..k];
  }

  /** The number of true entries. */
  function CountTrue(s: seq<bool>): nat
  {
    multiset(s)[true]
  }

  /** Splitting a sequence splits its count. */
  lemma CountTrueConcat(s: seq<bool>, t: seq<bool>)
    ensures CountTrue(s + t) == CountTrue(s) + CountTrue(t)
  {
    assert multiset(s + t) == multiset(s) + multiset(t);
  }

  lemma CountTrueAppend(s: seq<bool>, v: bool)
    ensures CountTrue(s + [v]) == CountTrue(s) + (if v then 1 else 0)
  {
    CountTrueConcat(s, [v]);
  }

  lemma CountTrueUpdate(s: seq<bool>, i: nat, v: bool)
    requires i < |s|
    ensures CountTrue(s[i := v]) == CountTrue(s) - (if s[i] then 1 else 0) + (if v then 1 else 0)
  {
    var t := s[i := v];
    assert s == s[..i] + [s[i]] + s[i + 1..];
    assert t == s[..i] + [v] + s[i + 1..];
    CountTrueConcat(s[..i] + [s[i]], s[i + 1..]);
    CountTrueConcat(s[..i] + [v], s[i + 1..]);
    CountTrueAppend(s[..i], s[i]);
    CountTrueAppend(s[..i], v);
  }

  /** No true entry means a count of zero, and the other way round. */
  lemma CountTrueZero(s: seq<bool>)
    ensures CountTrue(s) == 0 <==> forall i :: 0 <= i < |s| ==> !s[i]
  {
    if CountTrue(s) == 0 {
      forall i | 0 <= i < |s|
        ensures !s[i]
      {
        assert s[i] in multiset(s);
      }
    } else {
      assert true in multiset(s);
      assert true in s;
    }
  }

  /** Two true entries give a count of at least two. */
  lemma CountTrueTwo(s: seq<bool>, i: nat, j: nat)
    requires i < j < |s| && s[i] && s[j]
    ensures CountTrue(s) >= 2
  {
    assert s == s[..j] + s[j..];
    CountTrueConcat(s[..j], s[j..]);
    assert s[..j][i];
    assert s[j..][0];
    CountTrueZero(s[..j]);
    CountTrueZero(s[j..]);
  }

  /** With a count of one, the true entry at i is the only one. */
  lemma CountTrueOne(s: seq<bool>, i: nat)
    requires CountTrue(s) == 1 && i < |s| && s[i]
    ensures forall j :: 0 <= j < |s| && j != i ==> !s[j]
  {
    forall j | 0 <= j < |s| && j != i
      ensures !s[j]
    {
      if s[j] {
        if i < j {
          CountTrueTwo(s, i, j);
        } else {
          CountTrueTwo(s, j, i);
        }
      }
    }
  }

  /** With a count of at least two, some true entry sits away from any given
      position. */
  lemma CountTrueOther(s: seq<bool>, x: int)
    requires CountTrue(s) >= 2
    ensures exists i :: 0 <= i < |s| && i != x && s[i]
  {
    CountTrueZero(s);
    var i :| 0 <= i < |s| && s[i];
    if i == x {
      if forall j :: 0 <= j < |s| && j != i ==> !s[j] {
        var rest := s[i := false];
        CountTrueUpdate(s, i, false);
        CountTrueZero(rest);
        assert false;
      }
    }
  }

  /** The position of the first true entry, or |s| when there is none. */
  function FirstTrue(s: seq<bool>): (i: nat)
    ensures i <= |s|
    ensures i < |s| ==> s[i]
    ensures forall j :: 0 <= j < i ==> !s[j]
  {
    if s == [] then 0 else if s[0] then 0 else 1 + FirstTrue(s[1..])
  }

  /** A positive count has a first true entry. */
  lemma FirstTrueFound(s: seq<bool>)
    requires CountTrue(s) > 0
    ensures FirstTrue(s) < |s|
  {
    if FirstTrue(s) == |s| {
      CountTrueZero(s);
    }
  }

  /** Adding w to the flagged entries adds w once per flag. */
  lemma {:induction false} SumFlaggedAdd(before: seq<int>, after: seq<int>, f: seq<bool>, w: int)
    requires |after| == |before| == |f|
    requires forall j :: 0 <= j < |f| ==> after[j] == before[j] + (if f[j] then w else 0)
    ensures Sum(after) == Sum(before) + CountTrue(f) * w
    decreases |f|
  {
    if f != [] {
      var n := |f| - 1;
      var b, a, g := before[..n], after[..n], f[..n];
      assert forall j :: 0 <= j < n ==> a[j] == b[j] + (if g[j] then w else 0);
      SumFlaggedAdd(b, a, g, w);
      assert Sum(after) == Sum(a) + after[n];
      assert Sum(before) == Sum(b) + before[n];
      assert f == g + [f[n]];
      CountTrueAppend(g, f[n]);
      if f[n] {
        MulSucc(CountTrue(g), w);
      }
    }
  }

  lemma MulSucc(c: int, w: int)
    ensures (c + 1) * w == c * w + w
  {
  }
}
