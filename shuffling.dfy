/** Both engines shuffle with Python's `random.shuffle`, which is a Fisher-Yates
    pass: for i from the last index down to 1 it swaps position i with a position
    j drawn uniformly from 0..i.  The random source is outside the model, so the
    draws are a parameter: `choices[k]` supplies the draw of the k-th swap, and
    any sequence of draws is allowed. */
module Shuffling {

  /** The position the k-th swap of a shuffle of n elements exchanges with
      position n - 1 - k: the supplied draw reduced into 0..n-1-k. */
  function SwapPartner(choices: seq<nat>, n: nat, k: nat): (j: nat)
    requires k < n
    ensures j <= n - 1 - k
  {
    (if k < |choices| then choices[k] else 0) % (n - k)
  }

  /** Exchanges positions i and j of s. */
  function Swap<T>(s: seq<T>, i: nat, j: nat): (r: seq<T>)
    requires i < |s| && j < |s|
    ensures |r| == |s| && r[i] == s[j] && r[j] == s[i]
  {
    seq(|s|, k requires 0 <= k < |s| => if k == i then s[j] else if k == j then s[i] else s[k])
  }

  lemma SwapPermutes<T>(s: seq<T>, i: nat, j: nat)
    requires i < |s| && j < |s|
    ensures multiset(Swap(s, i, j)) == multiset(s)
  {
    assert Swap(s, i, j) == s[i := s[j]][j := s[i]];
  }

  /** The arrangement after the first k swaps of a Fisher-Yates pass over s;
      the k-th swap (counting from 1) exchanges position |s| - k with its drawn
      partner. */
  function FisherYates<T>(s: seq<T>, choices: seq<nat>, k: nat): (r: seq<T>)
    requires k == 0 || k < |s|
    ensures |r| == |s|
    decreases k
  {
    if k == 0 then s
    else Swap(FisherYates(s, choices, k - 1), |s| - k, SwapPartner(choices, |s|, k - 1))
  }

  /** The whole pass: positions |s|-1 down to 1 are each swapped once. */
  function Shuffled<T>(s: seq<T>, choices: seq<nat>): (r: seq<T>)
    ensures |r| == |s|
  {
    if |s| == 0 then s else FisherYates(s, choices, |s| - 1)
  }

  /** A shuffle only rearranges: the multiset of elements is unchanged. */
  lemma {:induction false} FisherYatesPermutes<T>(s: seq<T>, choices: seq<nat>, k: nat)
    requires k == 0 || k < |s|
    ensures multiset(FisherYates(s, choices, k)) == multiset(s)
    decreases k
  {
    if k > 0 {
      var prev := FisherYates(s, choices, k - 1);
      var j := SwapPartner(choices, |s|, k - 1);
      var next := Swap(prev, |s| - k, j);
      assert FisherYates(s, choices, k) == next;
      FisherYatesPermutes(s, choices, k - 1);
      SwapPermutes(prev, |s| - k, j);
      assert multiset(next) == multiset(prev);
    }
  }

  lemma ShuffledPermutes<T>(s: seq<T>, choices: seq<nat>)
    ensures multiset(Shuffled(s, choices)) == multiset(s)
  {
    if |s| > 0 {
      FisherYatesPermutes(s, choices, |s| - 1);
    }
  }

  /** `random.shuffle` as the loop it is, on a value: the result is the
      arrangement `Shuffled` describes, and so a permutation of the input. */
  method Shuffle<T>(s: seq<T>, choices: seq<nat>) returns (r: seq<T>)
    ensures r == Shuffled(s, choices)
    ensures |r| == |s| && multiset(r) == multiset(s)
  {
    r := s;
    var k := 0;
    while k + 1 < |s|
      invariant k == 0 || k < |s|
      invariant r == FisherYates(s, choices, k)
    {
      r := Swap(r, |s| - (k + 1), SwapPartner(choices, |s|, k));
      k := k + 1;
    }
    ShuffledPermutes(s, choices);
  }

  /** No element occurs at two positions of s. */
  ghost predicate Distinct<T>(s: seq<T>)
  {
    forall i, j :: 0 <= i < j < |s| ==> s[i] != s[j]
  }

  lemma SwapKeepsDistinct<T>(s: seq<T>, i: nat, j: nat)
    requires i < |s| && j < |s| && Distinct(s)
    ensures Distinct(Swap(s, i, j))
  {
    var r := Swap(s, i, j);
    assert forall k :: 0 <= k < |s| ==> r[k] == s[if k == i then j else if k == j then i else k];
  }

  /** A shuffle never puts one element at two places: an arrangement of
      distinct elements stays one of distinct elements. */
  lemma {:induction false} FisherYatesKeepsDistinct<T>(s: seq<T>, choices: seq<nat>, k: nat)
    requires k == 0 || k < |s|
    requires Distinct(s)
    ensures Distinct(FisherYates(s, choices, k))
    decreases k
  {
    if k > 0 {
      FisherYatesKeepsDistinct(s, choices, k - 1);
      SwapKeepsDistinct(FisherYates(s, choices, k - 1), |s| - k, SwapPartner(choices, |s|, k - 1));
    }
  }

  lemma ShuffledKeepsDistinct<T>(s: seq<T>, choices: seq<nat>)
    requires Distinct(s)
    ensures Distinct(Shuffled(s, choices))
  {
    if |s| > 0 {
      FisherYatesKeepsDistinct(s, choices, |s| - 1);
    }
  }
}
