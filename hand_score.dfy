/** `score_hand` of server.py: a 5-card hand scores as a list of ints, the
    category code first (9 royal flush, 8 straight flush, 7 four of a kind,
    6 full house, 5 flush, 4 straight, 3 three of a kind, 2 two pair, 1 one
    pair, 0 high card) and then the values that break ties.  Scores are
    compared as Python compares lists. */
module HandScore {
  import opened ServerCards
  import opened Tally

  // ---------------------------------------------------------------- sorting

  predicate SortedAsc(s: seq<int>)
  {
    forall i, j :: 0 <= i < j < |s| ==> s[i] <= s[j]
  }

  /** No value occurs twice. */
  predicate Distinct(s: seq<int>)
  {
    forall i, j :: 0 <= i < j < |s| ==> s[i] != s[j]
  }

  function Insert(x: int, s: seq<int>): (r: seq<int>)
    requires SortedAsc(s)
    ensures |r| == |s| + 1 && SortedAsc(r) && multiset(r) == multiset(s) + multiset{x}
  {
    if s == [] || x <= s[0] then
      ConsSorted(x, s);
      [x] + s
    else
      var rest := Insert(x, s[1..]);
      assert s == [s[0]] + s[1..];
      forall k | 0 <= k < |rest|
        ensures s[0] <= rest[k]
      {
        assert rest[k] in multiset(s[1..]) + multiset{x};
      }
      ConsSorted(s[0], rest);
      assert multiset([s[0]] + rest) == multiset{s[0]} + multiset(rest);
      [s[0]] + rest
  }

  lemma ConsSorted(h: int, r: seq<int>)
    requires SortedAsc(r) && forall k :: 0 <= k < |r| ==> h <= r[k]
    ensures SortedAsc([h] + r)
  {
  }

  /** `sorted(xs)`. */
  function Sort(s: seq<int>): (r: seq<int>)
    ensures |r| == |s| && SortedAsc(r) && multiset(r) == multiset(s)
  {
    if s == [] then []
    else
      assert s == [s[0]] + s[1..];
      Insert(s[0], Sort(s[1..]))
  }

  /** Ascending sequences of the same values start with the same value. */
  lemma SortedHeads(a: seq<int>, b: seq<int>)
    requires SortedAsc(a) && SortedAsc(b) && multiset(a) == multiset(b) && a != [] && b != []
    ensures a[0] == b[0]
  {
    assert a[0] in multiset(b) && b[0] in multiset(a);
    var i :| 0 <= i < |a| && a[i] == b[0];
    var j :| 0 <= j < |b| && b[j] == a[0];
    assert a[0] <= a[i] && b[0] <= b[j];
  }

  lemma TailsPermute(a: seq<int>, b: seq<int>)
    requires multiset(a) == multiset(b) && a != [] && b != [] && a[0] == b[0]
    ensures multiset(a[1..]) == multiset(b[1..])
  {
    assert a == [a[0]] + a[1..] && b == [b[0]] + b[1..];
    assert multiset(a) == multiset{a[0]} + multiset(a[1..]);
    assert multiset(b) == multiset{b[0]} + multiset(b[1..]);
    assert multiset(a[1..]) == multiset(a) - multiset{a[0]};
    assert multiset(b[1..]) == multiset(b) - multiset{b[0]};
  }

  /** Two ascending sequences of the same values are the same sequence, so
      sorting depends on the values alone. */
  lemma {:induction false} SortedUnique(a: seq<int>, b: seq<int>)
    requires SortedAsc(a) && SortedAsc(b) && multiset(a) == multiset(b)
    ensures a == b
    decreases |a|
  {
    assert |a| == |multiset(a)| == |multiset(b)| == |b|;
    if a != [] {
      SortedHeads(a, b);
      TailsPermute(a, b);
      SortedUnique(a[1..], b[1..]);
      assert a == [a[0]] + a[1..] && b == [b[0]] + b[1..];
    }
  }

  function Reverse(s: seq<int>): (r: seq<int>)
    ensures |r| == |s| && forall i :: 0 <= i < |s| ==> r[i] == s[|s| - 1 - i]
  {
    seq(|s|, i requires 0 <= i < |s| => s[|s| - 1 - i])
  }

  lemma {:induction false} ReversePermutes(s: seq<int>)
    ensures multiset(Reverse(s)) == multiset(s)
    decreases |s|
  {
    if s != [] {
      assert Reverse(s) == Reverse(s[1..]) + [s[0]];
      assert s == [s[0]] + s[1..];
      ReversePermutes(s[1..]);
    }
  }

  /** `sorted(xs, reverse=True)`: for ints, the ascending order backwards. */
  function SortDesc(s: seq<int>): (r: seq<int>)
    ensures |r| == |s| && multiset(r) == multiset(s)
  {
    ReversePermutes(Sort(s));
    Reverse(Sort(s))
  }

  /** Sorting values known up to order: the descending order of a >= b >= ...
      is the list a, b, .... */
  lemma SortDescOf(s: seq<int>, d: seq<int>)
    requires multiset(s) == multiset(d)
    requires forall i, j :: 0 <= i < j < |d| ==> d[i] >= d[j]
    ensures SortDesc(s) == d
  {
    var up := Reverse(d);
    ReversePermutes(d);
    SortedUnique(Sort(s), up);
    assert Reverse(up) == d;
  }

  lemma SortDescTwo(x: int, y: int)
    requires x > y
    ensures SortDesc([y, x]) == [x, y]
  {
    assert multiset([y, x]) == multiset([x, y]);
    SortDescOf([y, x], [x, y]);
  }

  lemma SortDescThree(x: int, y: int, z: int)
    requires x > y > z
    ensures SortDesc([z, y, x]) == [x, y, z]
  {
    assert multiset([z, y, x]) == multiset([x, y, z]);
    SortDescOf([z, y, x], [x, y, z]);
  }

  /** A sequence without repeats holds each of its values once. */
  lemma {:induction false} DistinctMultiset(w: seq<int>)
    requires Distinct(w)
    ensures forall x :: multiset(w)[x] == if x in w then 1 else 0
    decreases |w|
  {
    if w != [] {
      assert w == [w[0]] + w[1..];
      DistinctMultiset(w[1..]);
    }
  }

  /** Two sequences without repeats and with the same members hold the same
      values. */
  lemma SameMembers(w: seq<int>, d: seq<int>)
    requires Distinct(w) && Distinct(d)
    requires forall x :: x in w <==> x in d
    ensures multiset(w) == multiset(d) && |w| == |d|
  {
    DistinctMultiset(w);
    DistinctMultiset(d);
    assert forall x :: multiset(w)[x] == multiset(d)[x];
    assert |w| == |multiset(w)|;
  }

  function MinOf(s: seq<int>): (m: int)
    requires |s| > 0
    ensures m in s && forall i :: 0 <= i < |s| ==> m <= s[i]
  {
    if |s| == 1 then s[0]
    else var m := MinOf(s[1..]); if s[0] <= m then s[0] else m
  }

  function MaxOf(s: seq<int>): (m: int)
    requires |s| > 0
    ensures m in s && forall i :: 0 <= i < |s| ==> s[i] <= m
  {
    if |s| == 1 then s[0]
    else var m := MaxOf(s[1..]); if s[0] >= m then s[0] else m
  }

  /** `list(range(lo, hi))`. */
  function Range(lo: int, hi: int): (r: seq<int>)
    ensures |r| == (if hi > lo then hi - lo else 0)
    ensures forall i :: 0 <= i < |r| ==> r[i] == lo + i
  {
    seq(if hi > lo then hi - lo else 0, i requires 0 <= i => lo + i)
  }

  // ---------------------------------------------------------------- Counter

  /** One item of a `Counter`: a value and how often it occurs. */
  datatype Entry = Entry(value: int, count: int)

  /** Counting one more occurrence of v. */
  function Bump(c: seq<Entry>, v: int): seq<Entry>
  {
    if c == [] then [Entry(v, 1)]
    else if c[0].value == v then [c[0].(count := c[0].count + 1)] + c[1..]
    else [c[0]] + Bump(c[1..], v)
  }

  /** `Counter(values)`: the distinct values in the order they first occur,
      each with its number of occurrences. */
  function Counter(s: seq<int>): seq<Entry>
  {
    if s == [] then [] else Bump(Counter(s[..|s| - 1]), s[|s| - 1])
  }

  /** `value_counts.values()`. */
  function Counts(c: seq<Entry>): (k: seq<int>)
    ensures |k| == |c| && forall i :: 0 <= i < |c| ==> k[i] == c[i].count
  {
    seq(|c|, i requires 0 <= i < |c| => c[i].count)
  }

  /** `[v for v, count in value_counts.items() if count == k]`. */
  function WithCount(c: seq<Entry>, k: int): seq<int>
  {
    if c == [] then [] else (if c[0].count == k then [c[0].value] else []) + WithCount(c[1..], k)
  }

  /** c counts the values of s: every item has the number of occurrences of
      its value, every value of s has an item, and no value has two. */
  ghost predicate Tallies(c: seq<Entry>, s: seq<int>)
  {
    && (forall i :: 0 <= i < |c| ==> c[i].count == multiset(s)[c[i].value] >= 1)
    && (forall v :: v in s ==> exists i :: 0 <= i < |c| && c[i].value == v)
    && (forall i, j :: 0 <= i < j < |c| ==> c[i].value != c[j].value)
  }

  lemma {:induction false} BumpFound(c: seq<Entry>, v: int, i: nat)
    requires i < |c| && c[i].value == v && forall j :: 0 <= j < i ==> c[j].value != v
    ensures Bump(c, v) == c[i := c[i].(count := c[i].count + 1)]
    decreases i
  {
    if i > 0 {
      BumpFound(c[1..], v, i - 1);
    }
  }

  lemma {:induction false} BumpNew(c: seq<Entry>, v: int)
    requires forall j :: 0 <= j < |c| ==> c[j].value != v
    ensures Bump(c, v) == c + [Entry(v, 1)]
    decreases |c|
  {
    if c != [] {
      BumpNew(c[1..], v);
    }
  }

  /** Counting a value that already has an item. */
  lemma TalliesFound(c: seq<Entry>, p: seq<int>, v: int, i: nat)
    requires Tallies(c, p) && i < |c| && c[i].value == v
    ensures Tallies(c[i := c[i].(count := c[i].count + 1)], p + [v])
  {
    var e := c[i].(count := c[i].count + 1);
    var d := c[i := e];
    var s := p + [v];
    assert multiset(s) == multiset(p) + multiset{v};
    forall w | w in s
      ensures exists j :: 0 <= j < |d| && d[j].value == w
    {
      if w == v {
        assert d[i].value == w;
      } else {
        assert w in p;
        var j :| 0 <= j < |c| && c[j].value == w;
        assert d[j].value == w;
      }
    }
  }

  /** Counting a value seen for the first time. */
  lemma TalliesNew(c: seq<Entry>, p: seq<int>, v: int)
    requires Tallies(c, p) && v !in p
    ensures Tallies(c + [Entry(v, 1)], p + [v])
  {
    var d := c + [Entry(v, 1)];
    var s := p + [v];
    assert multiset(s) == multiset(p) + multiset{v};
    forall j | 0 <= j < |c|
      ensures c[j].value != v
    {
      assert c[j].value in multiset(p);
    }
    forall w | w in s
      ensures exists j :: 0 <= j < |d| && d[j].value == w
    {
      if w == v {
        assert d[|c|].value == w;
      } else {
        assert w in p;
        var j :| 0 <= j < |c| && c[j].value == w;
        assert d[j].value == w;
      }
    }
  }

  /** `Counter` counts: each value of s has one item holding its number of
      occurrences. */
  lemma {:induction false} CounterTallies(s: seq<int>)
    ensures Tallies(Counter(s), s)
    decreases |s|
  {
    if s != [] {
      var p, v := s[..|s| - 1], s[|s| - 1];
      assert s == p + [v];
      CounterTallies(p);
      var c := Counter(p);
      if v in p {
        var i :| 0 <= i < |c| && c[i].value == v;
        if j :| 0 <= j < i && c[j].value == v {
          assert false;
        }
        BumpFound(c, v, i);
        TalliesFound(c, p, v, i);
      } else {
        forall j | 0 <= j < |c|
          ensures c[j].value != v
        {
          assert c[j].count == multiset(p)[c[j].value] >= 1;
        }
        BumpNew(c, v);
        TalliesNew(c, p, v);
      }
    }
  }

  lemma {:induction false} WithCountMembers(c: seq<Entry>, k: int)
    ensures forall v :: v in WithCount(c, k) <==> exists i :: 0 <= i < |c| && c[i].value == v && c[i].count == k
    ensures (forall i, j :: 0 <= i < j < |c| ==> c[i].value != c[j].value) ==> Distinct(WithCount(c, k))
    decreases |c|
  {
    if c != [] {
      WithCountMembers(c[1..], k);
      var w := WithCount(c, k);
      forall v
        ensures v in w <==> exists i :: 0 <= i < |c| && c[i].value == v && c[i].count == k
      {
        if v in WithCount(c[1..], k) {
          var i :| 0 <= i < |c| - 1 && c[1..][i].value == v && c[1..][i].count == k;
          assert c[i + 1].value == v;
        }
        if exists i :: 0 <= i < |c| && c[i].value == v && c[i].count == k {
          var i :| 0 <= i < |c| && c[i].value == v && c[i].count == k;
          if i > 0 {
            assert c[1..][i - 1].value == v;
          }
        }
      }
      if forall i, j :: 0 <= i < j < |c| ==> c[i].value != c[j].value {
        if c[0].count == k {
          forall j | 0 <= j < |WithCount(c[1..], k)|
            ensures WithCount(c[1..], k)[j] != c[0].value
          {
            var v := WithCount(c[1..], k)[j];
            assert v in WithCount(c[1..], k);
            var i :| 0 <= i < |c| - 1 && c[1..][i].value == v && c[1..][i].count == k;
            assert c[i + 1].value == v;
          }
        }
      }
    }
  }

  /** The values strictly increase. */
  predicate Increasing(d: seq<int>)
  {
    forall i, j :: 0 <= i < j < |d| ==> d[i] < d[j]
  }

  /** The items' values strictly increase. */
  predicate ValuesAscend(c: seq<Entry>)
  {
    forall i, j :: 0 <= i < j < |c| ==> c[i].value < c[j].value
  }

  lemma UpdateAscends(c: seq<Entry>, i: nat, e: Entry)
    requires ValuesAscend(c) && i < |c| && e.value == c[i].value
    ensures ValuesAscend(c[i := e])
  {
  }

  lemma AppendAscends(c: seq<Entry>, v: int)
    requires ValuesAscend(c) && forall j :: 0 <= j < |c| ==> c[j].value < v
    ensures ValuesAscend(c + [Entry(v, 1)])
  {
  }

  /** A value above the last of ascending values is above every counted one. */
  lemma CountedBelow(p: seq<int>, c: seq<Entry>, v: int)
    requires SortedAsc(p + [v]) && v !in p && Tallies(c, p)
    ensures forall j :: 0 <= j < |c| ==> c[j].value < v
  {
    forall j | 0 <= j < |c|
      ensures c[j].value < v
    {
      assert c[j].value in multiset(p);
      var k :| 0 <= k < |p| && p[k] == c[j].value;
      assert (p + [v])[k] <= (p + [v])[|p|];
    }
  }

  /** The items of the counter of ascending values are in ascending order
      of value. */
  lemma {:induction false} CounterIncreasing(s: seq<int>)
    requires SortedAsc(s)
    ensures ValuesAscend(Counter(s))
    decreases |s|
  {
    if s != [] {
      var p, v := s[..|s| - 1], s[|s| - 1];
      assert s == p + [v];
      CounterIncreasing(p);
      CounterTallies(p);
      var c := Counter(p);
      if v in p {
        var i :| 0 <= i < |c| && c[i].value == v;
        BumpFound(c, v, i);
        UpdateAscends(c, i, c[i].(count := c[i].count + 1));
      } else {
        CountedBelow(p, c, v);
        BumpNew(c, v);
        AppendAscends(c, v);
      }
    }
  }

  lemma {:induction false} WithCountIncreasing(c: seq<Entry>, k: int)
    requires ValuesAscend(c)
    ensures Increasing(WithCount(c, k))
    decreases |c|
  {
    if c != [] {
      WithCountIncreasing(c[1..], k);
      WithCountMembers(c[1..], k);
      var rest := WithCount(c[1..], k);
      forall j | 0 <= j < |rest|
        ensures c[0].value < rest[j]
      {
        assert rest[j] in rest;
        var i :| 0 <= i < |c| - 1 && c[1..][i].value == rest[j] && c[1..][i].count == k;
        assert c[i + 1].value == rest[j];
      }
    }
  }

  /** The values with exactly k occurrences, as `score_hand` picks them out
      of the counter: each such value once, and nothing else. */
  lemma ValuesWithCount(s: seq<int>, k: int)
    ensures forall v :: v in WithCount(Counter(s), k) <==> v in s && multiset(s)[v] == k
    ensures Distinct(WithCount(Counter(s), k))
  {
    CounterTallies(s);
    WithCountMembers(Counter(s), k);
  }

  /** A value of s with k occurrences is among those the filter keeps. */
  lemma KeptWithCount(s: seq<int>, k: int, v: int)
    requires v in s && multiset(s)[v] == k
    ensures v in WithCount(Counter(s), k)
  {
    ValuesWithCount(s, k);
  }

  /** A value the filter keeps occurs k times in s. */
  lemma KeptHasCount(s: seq<int>, k: int, v: int)
    requires v in WithCount(Counter(s), k)
    ensures v in s && multiset(s)[v] == k
  {
    ValuesWithCount(s, k);
  }

  /** How many items have count k is how many values the filter keeps. */
  lemma {:induction false} CountsMultiset(c: seq<Entry>, k: int)
    ensures multiset(Counts(c))[k] == |WithCount(c, k)|
    decreases |c|
  {
    if c != [] {
      assert Counts(c) == [c[0].count] + Counts(c[1..]);
      CountsMultiset(c[1..], k);
    }
  }

  // ------------------------------------------------------ counting values

  lemma {:induction false} AllOneValue(s: seq<int>, v: int)
    requires forall i :: 0 <= i < |s| ==> s[i] == v
    ensures multiset(s)[v] == |s|
    decreases |s|
  {
    if s != [] {
      assert s == [s[0]] + s[1..];
      AllOneValue(s[1..], v);
    }
  }

  lemma {:induction false} TwoCounts(s: seq<int>, v: int, w: int)
    requires v != w
    ensures multiset(s)[v] + multiset(s)[w] <= |s|
    decreases |s|
  {
    if s != [] {
      assert s == [s[0]] + s[1..];
      TwoCounts(s[1..], v, w);
    }
  }

  lemma {:induction false} ThreeCounts(s: seq<int>, u: int, v: int, w: int)
    requires u != v && v != w && u != w
    ensures multiset(s)[u] + multiset(s)[v] + multiset(s)[w] <= |s|
    decreases |s|
  {
    if s != [] {
      assert s == [s[0]] + s[1..];
      ThreeCounts(s[1..], u, v, w);
    }
  }

  /** An entry that differs from v, when not every entry is v. */
  lemma OtherThan(s: seq<int>, v: int) returns (i: nat)
    requires multiset(s)[v] < |s|
    ensures i < |s| && s[i] != v
  {
    if forall j :: 0 <= j < |s| ==> s[j] == v {
      AllOneValue(s, v);
      assert false;
    }
    i :| 0 <= i < |s| && s[i] != v;
  }

  /** Some entry differs from both u and v when they do not fill s. */
  lemma {:induction false} SomeOther(s: seq<int>, u: int, v: int)
    requires u != v && multiset(s)[u] + multiset(s)[v] < |s|
    ensures exists i :: 0 <= i < |s| && s[i] != u && s[i] != v
    decreases |s|
  {
    assert s == [s[0]] + s[1..];
    if s[0] == u || s[0] == v {
      SomeOther(s[1..], u, v);
      var i :| 0 <= i < |s| - 1 && s[1..][i] != u && s[1..][i] != v;
      assert s[i + 1] == s[1..][i];
    }
  }

  // ------------------------------------------------------------ score_hand

  function Values(cards: seq<Card>): (vs: seq<int>)
    ensures |vs| == |cards| && forall i :: 0 <= i < |cards| ==> vs[i] == cards[i].value
  {
    seq(|cards|, i requires 0 <= i < |cards| => cards[i].value)
  }

  /** `set(suits)`. */
  function Suits(cards: seq<Card>): set<int>
  {
    set i | 0 <= i < |cards| :: cards[i].suit
  }

  /** `is_flush`: one suit among the cards. */
  predicate IsFlush(cards: seq<Card>)
  {
    |Suits(cards)| == 1
  }

  /** `is_straight`, on the ascending values. */
  predicate IsStraight(values: seq<int>)
    requires |values| > 0
  {
    values == Range(MinOf(values), MaxOf(values) + 1) || values == [0, 1, 2, 3, 12]
  }

  /** `freq_counts`: the counts of the counter, largest first. */
  function Freq(values: seq<int>): seq<int>
  {
    SortDesc(Counts(Counter(values)))
  }

  /** `freq_counts[:2]`. */
  function Take2(f: seq<int>): seq<int>
  {
    if |f| <= 2 then f else f[..2]
  }

  /** A count that occurs among the frequencies belongs to some value. */
  lemma CountHasValues(s: seq<int>, k: int)
    requires k in Freq(s)
    ensures |WithCount(Counter(s), k)| >= 1
  {
    assert k in multiset(Freq(s));
    assert k in multiset(Counts(Counter(s)));
    CountsMultiset(Counter(s), k);
  }

  /** A non-empty hand has a counter item, so `freq_counts[0]` exists. */
  lemma FreqNonEmpty(s: seq<int>)
    requires |s| > 0
    ensures |Freq(s)| > 0
  {
    CounterTallies(s);
    assert s[0] in s;
  }

  /** Four of a kind among five cards leaves one card of another value, so
      the kicker comprehension is not empty. */
  lemma QuadsHaveKicker(s: seq<int>)
    requires |s| == 5 && |Freq(s)| > 0 && Freq(s)[0] == 4
    ensures |WithCount(Counter(s), 1)| >= 1
  {
    CountHasValues(s, 4);
    var q := WithCount(Counter(s), 4)[0];
    KeptHasCount(s, 4, q);
    var i := OtherThan(s, q);
    TwoCounts(s, q, s[i]);
    KeptWithCount(s, 1, s[i]);
  }

  lemma TwoTwos(f: seq<int>)
    requires Take2(f) == [2, 2]
    ensures multiset(f)[2] >= 2
  {
    assert f == [f[0], f[1]] + f[2..];
  }

  /** Two pairs among five cards leave one card of a third value. */
  lemma TwoPairHasKicker(s: seq<int>)
    requires |s| == 5 && Take2(Freq(s)) == [2, 2]
    ensures |WithCount(Counter(s), 1)| >= 1
  {
    TwoTwos(Freq(s));
    CountsMultiset(Counter(s), 2);
    var w := WithCount(Counter(s), 2);
    WithCountMembers(Counter(s), 2);
    CounterTallies(s);
    assert w[0] != w[1];
    KeptHasCount(s, 2, w[0]);
    KeptHasCount(s, 2, w[1]);
    SomeOther(s, w[0], w[1]);
    var i :| 0 <= i < |s| && s[i] != w[0] && s[i] != w[1];
    ThreeCounts(s, w[0], w[1], s[i]);
    KeptWithCount(s, 1, s[i]);
  }

  /** `xs[0]`, at a position where the lists `score_hand` indexes are never
      empty (`ScoreHandIndexesExist`); 0 stands for the IndexError that
      cannot happen. */
  function First(xs: seq<int>): int
  {
    if xs == [] then 0 else xs[0]
  }

  /** `score_hand`: the score of a five-card hand. */
  function ScoreHand(cards: seq<Card>): (score: seq<int>)
    requires |cards| == 5
    ensures |score| >= 2 && 0 <= score[0] <= 9
  {
    var values := Sort(Values(cards));
    Ranked(values, IsFlush(cards), IsStraight(values), Freq(values), Counter(values))
  }

  /** The branches of `score_hand`, given the ascending values, the flush
      and straight tests, the frequencies and the counter. */
  function Ranked(values: seq<int>, isFlush: bool, isStraight: bool, freq: seq<int>,
                  counter: seq<Entry>): (score: seq<int>)
    requires |values| == 5
    ensures |score| >= 2 && 0 <= score[0] <= 9
  {
    if isStraight && isFlush then
      if values == [8, 9, 10, 11, 12] then [9, 12] else [8, MaxOf(values)]
    else if First(freq) == 4 then
      [7, First(WithCount(counter, 4)), First(WithCount(counter, 1))]
    else if freq == [3, 2] then
      [6, First(WithCount(counter, 3)), First(WithCount(counter, 2))]
    else if isFlush then
      [5] + SortDesc(values)
    else if isStraight then
      if values == [0, 1, 2, 3, 12] then [4, 3] else [4, MaxOf(values)]
    else
      Grouped(values, freq, counter)
  }

  /** The branches past the straight, which look at the counts alone. */
  function Grouped(values: seq<int>, freq: seq<int>, counter: seq<Entry>): (score: seq<int>)
    requires |values| == 5
    ensures |score| >= 2 && 0 <= score[0] <= 3
  {
    if First(freq) == 3 then
      [3, First(WithCount(counter, 3))] + SortDesc(WithCount(counter, 1))
    else if Take2(freq) == [2, 2] then
      [2] + SortDesc(WithCount(counter, 2)) + [First(WithCount(counter, 1))]
    else if First(freq) == 2 then
      [1, First(WithCount(counter, 2))] + SortDesc(WithCount(counter, 1))
    else
      [0] + SortDesc(values)
  }

  /** `score_hand` is the branches applied to the tests it computes. */
  lemma ScoreHandRanked(cards: seq<Card>, isFlush: bool, isStraight: bool, freq: seq<int>)
    requires |cards| == 5
    requires IsFlush(cards) == isFlush && IsStraight(Sort(Values(cards))) == isStraight
    requires Freq(Sort(Values(cards))) == freq
    ensures ScoreHand(cards) == Ranked(Sort(Values(cards)), isFlush, isStraight, freq, Counter(Sort(Values(cards))))
  {
  }

  /** The three of a kind branch, reached past the straight flush, the
      quads, the full house, the flush and the straight. */
  lemma TripsBranch(values: seq<int>, counter: seq<Entry>, t: int, a: int, b: int)
    requires |values| == 5
    requires WithCount(counter, 3) == [t] && SortDesc(WithCount(counter, 1)) == [a, b]
    ensures Ranked(values, false, false, [3, 1, 1], counter) == [3, t, a, b]
  {
    PastStraight(values, [3, 1, 1], counter);
    TripsGuard(values, counter);
    JoinTwo(3, First(WithCount(counter, 3)), SortDesc(WithCount(counter, 1)), a, b);
  }

  /** The two pair branch, past the three of a kind. */
  lemma TwoPairBranch(values: seq<int>, counter: seq<Entry>, h: int, l: int, k: int)
    requires |values| == 5
    requires SortDesc(WithCount(counter, 2)) == [h, l] && WithCount(counter, 1) == [k]
    ensures Ranked(values, false, false, [2, 2, 1], counter) == [2, h, l, k]
  {
    PastStraight(values, [2, 2, 1], counter);
    TwoPairGuard(values, counter);
    JoinPairs(SortDesc(WithCount(counter, 2)), First(WithCount(counter, 1)), h, l);
  }

  /** The one pair branch, past the two pair. */
  lemma PairBranch(values: seq<int>, counter: seq<Entry>, p: int, a: int, b: int, c: int)
    requires |values| == 5
    requires WithCount(counter, 2) == [p] && SortDesc(WithCount(counter, 1)) == [a, b, c]
    ensures Ranked(values, false, false, [2, 1, 1, 1], counter) == [1, p, a, b, c]
  {
    PastStraight(values, [2, 1, 1, 1], counter);
    PairGuard(values, counter);
    JoinThree(1, First(WithCount(counter, 2)), SortDesc(WithCount(counter, 1)), a, b, c);
  }

  /** Past a straight or a flush, and with neither four of a kind nor a
      full house, the counts decide. */
  lemma PastStraight(values: seq<int>, freq: seq<int>, counter: seq<Entry>)
    requires |values| == 5 && First(freq) != 4 && freq != [3, 2]
    ensures Ranked(values, false, false, freq, counter) == Grouped(values, freq, counter)
  {
  }

  lemma TripsGuard(values: seq<int>, counter: seq<Entry>)
    requires |values| == 5
    ensures Grouped(values, [3, 1, 1], counter)
      == [3, First(WithCount(counter, 3))] + SortDesc(WithCount(counter, 1))
  {
  }

  lemma TwoPairGuard(values: seq<int>, counter: seq<Entry>)
    requires |values| == 5
    ensures Grouped(values, [2, 2, 1], counter)
      == [2] + SortDesc(WithCount(counter, 2)) + [First(WithCount(counter, 1))]
  {
    assert Take2([2, 2, 1]) == [2, 2];
  }

  lemma PairGuard(values: seq<int>, counter: seq<Entry>)
    requires |values| == 5
    ensures Grouped(values, [2, 1, 1, 1], counter)
      == [1, First(WithCount(counter, 2))] + SortDesc(WithCount(counter, 1))
  {
    assert Take2([2, 1, 1, 1]) == [2, 1];
  }

  lemma JoinTwo(x: int, y: int, d: seq<int>, a: int, b: int)
    requires d == [a, b]
    ensures [x, y] + d == [x, y, a, b]
  {
  }

  lemma JoinThree(x: int, y: int, d: seq<int>, a: int, b: int, c: int)
    requires d == [a, b, c]
    ensures [x, y] + d == [x, y, a, b, c]
  {
  }

  lemma JoinPairs(d: seq<int>, k: int, h: int, l: int)
    requires d == [h, l]
    ensures [2] + d + [k] == [2, h, l, k]
  {
  }

  /** Every list `score_hand` takes the first item of is non-empty where it
      does so: `freq_counts` always, the quad and its kicker, the trips and
      the pair of a full house, the trips, the kicker of two pair, and the
      pair. So the source never raises IndexError on five cards. */
  lemma ScoreHandIndexesExist(cards: seq<Card>)
    requires |cards| == 5
    ensures var values := Sort(Values(cards));
      var freq, counter := Freq(values), Counter(values);
      && |freq| > 0
      && (freq[0] == 4 ==> |WithCount(counter, 4)| > 0 && |WithCount(counter, 1)| > 0)
      && (freq == [3, 2] ==> |WithCount(counter, 3)| > 0 && |WithCount(counter, 2)| > 0)
      && (freq[0] == 3 ==> |WithCount(counter, 3)| > 0)
      && (Take2(freq) == [2, 2] ==> |WithCount(counter, 1)| > 0)
      && (freq[0] == 2 ==> |WithCount(counter, 2)| > 0)
  {
    var values := Sort(Values(cards));
    var freq := Freq(values);
    FreqNonEmpty(values);
    if freq[0] == 4 {
      CountHasValues(values, 4);
      QuadsHaveKicker(values);
    }
    if freq == [3, 2] {
      CountHasValues(values, 3);
      CountHasValues(values, 2);
    }
    if freq[0] == 3 {
      CountHasValues(values, 3);
    }
    if Take2(freq) == [2, 2] {
      TwoPairHasKicker(values);
    }
    if freq[0] == 2 {
      CountHasValues(values, 2);
    }
  }

  // ------------------------------------------------- what the score means

  /** The cards share one suit. */
  predicate OneSuit(cards: seq<Card>)
  {
    forall i, j :: 0 <= i < |cards| && 0 <= j < |cards| ==> cards[i].suit == cards[j].suit
  }

  /** `len(set(suits)) == 1` says exactly that the cards share a suit. */
  lemma FlushIsOneSuit(cards: seq<Card>)
    requires |cards| > 0
    ensures IsFlush(cards) <==> OneSuit(cards)
  {
    var ss := Suits(cards);
    assert cards[0].suit in ss;
    if OneSuit(cards) {
      assert ss == {cards[0].suit};
    }
    if !OneSuit(cards) {
      var i, j :| 0 <= i < |cards| && 0 <= j < |cards| && cards[i].suit != cards[j].suit;
      TwoMembers(ss, cards[i].suit, cards[j].suit);
    }
  }

  /** A set with two different members has at least two. */
  lemma TwoMembers(ss: set<int>, x: int, y: int)
    requires x in ss && y in ss && x != y
    ensures |ss| >= 2
  {
    var rest := ss - {x};
    assert |rest| == |ss| - 1;
    assert y in rest && rest != {};
  }

  /** No two cards are the same card of the deck (value and suit). */
  predicate DistinctFaces(cards: seq<Card>)
  {
    forall i, j :: 0 <= i < j < |cards| ==>
      cards[i].value != cards[j].value || cards[i].suit != cards[j].suit
  }

  /** Cards of a real deck that repeat a value cannot share one suit, so
      the paired categories below never meet a flush. */
  lemma RepeatedValueIsNoFlush(cards: seq<Card>, i: nat, j: nat)
    requires DistinctFaces(cards) && i < j < |cards| && cards[i].value == cards[j].value
    ensures !OneSuit(cards)
  {
  }

  /** The values are lo, lo + 1, ..., lo + 4 in some order. */
  predicate Run(vs: seq<int>, lo: int)
  {
    multiset(vs) == multiset(Range(lo, lo + 5))
  }

  /** The values are the ace-low straight A, 2, 3, 4, 5 in some order. */
  predicate IsWheel(vs: seq<int>)
  {
    multiset(vs) == multiset([0, 1, 2, 3, 12])
  }

  /** The values strictly decrease. */
  predicate Decreasing(d: seq<int>)
  {
    forall i, j :: 0 <= i < j < |d| ==> d[i] > d[j]
  }

  lemma RangeSorted(lo: int, hi: int)
    ensures SortedAsc(Range(lo, hi)) && Distinct(Range(lo, hi))
  {
  }

  /** Sorting a run gives the run, from lo to lo + 4. */
  lemma SortedRun(vs: seq<int>, lo: int)
    requires Run(vs, lo)
    ensures Sort(vs) == Range(lo, lo + 5)
    ensures MinOf(Sort(vs)) == lo && MaxOf(Sort(vs)) == lo + 4
  {
    var s, r := Sort(vs), Range(lo, lo + 5);
    RangeSorted(lo, lo + 5);
    assert multiset(s) == multiset(r);
    SortedUnique(s, r);
    SortedEnds(r);
  }

  /** The least and greatest of ascending values are the first and last. */
  lemma SortedEnds(s: seq<int>)
    requires |s| > 0 && SortedAsc(s)
    ensures MinOf(s) == s[0] && MaxOf(s) == s[|s| - 1]
  {
    var lo, hi := MinOf(s), MaxOf(s);
    var i :| 0 <= i < |s| && s[i] == lo;
    var j :| 0 <= j < |s| && s[j] == hi;
    assert s[0] <= s[i] && s[j] <= s[|s| - 1];
  }

  lemma WheelSorted()
    ensures SortedAsc([0, 1, 2, 3, 12]) && Distinct([0, 1, 2, 3, 12])
  {
    var w := [0, 1, 2, 3, 12];
    assert forall i :: 0 <= i < 4 ==> w[i] == i;
  }

  lemma SortedWheel(vs: seq<int>)
    requires IsWheel(vs)
    ensures Sort(vs) == [0, 1, 2, 3, 12]
  {
    var s, w := Sort(vs), [0, 1, 2, 3, 12];
    WheelSorted();
    assert multiset(s) == multiset(w);
    SortedUnique(s, w);
  }

  /** `is_straight` holds exactly for a run of five values and for the
      ace-low straight. */
  lemma StraightIff(vs: seq<int>)
    requires |vs| == 5
    ensures IsStraight(Sort(vs)) <==> (exists lo :: Run(vs, lo)) || IsWheel(vs)
  {
    if IsStraight(Sort(vs)) {
      StraightIsRun(vs, Sort(vs));
    }
    if lo :| Run(vs, lo) {
      SortedRun(vs, lo);
    }
    if IsWheel(vs) {
      SortedWheel(vs);
    }
  }

  /** Values passing `is_straight` are a run or the wheel, and so are
      values with the same members. */
  lemma StraightIsRun(vs: seq<int>, s: seq<int>)
    requires |s| == 5 && multiset(vs) == multiset(s) && IsStraight(s)
    ensures Run(vs, MinOf(s)) || IsWheel(vs)
  {
    if s == Range(MinOf(s), MaxOf(s) + 1) {
      RangeOfFive(s);
    }
  }

  /** Five values that are `range(min, max + 1)` are five from the least. */
  lemma RangeOfFive(s: seq<int>)
    requires |s| == 5 && s == Range(MinOf(s), MaxOf(s) + 1)
    ensures s == Range(MinOf(s), MinOf(s) + 5)
  {
  }

  /** A value that occurs twice rules out a straight. */
  lemma RepeatIsNoStraight(s: seq<int>, x: int)
    requires |s| > 0 && multiset(s)[x] >= 2
    ensures !IsStraight(s)
  {
    if IsStraight(s) {
      RangeSorted(MinOf(s), MaxOf(s) + 1);
      WheelSorted();
      DistinctMultiset(s);
      assert false;
    }
  }

  /** The filter for count k keeps the values w, given as the values of s
      with k occurrences. */
  lemma WithCountIs(s: seq<int>, k: int, w: seq<int>)
    requires SortedAsc(s) && k >= 1 && Increasing(w)
    requires forall v :: multiset(s)[v] == k <==> v in w
    ensures WithCount(Counter(s), k) == w
  {
    var kept := WithCount(Counter(s), k);
    ValuesWithCount(s, k);
    forall v
      ensures v in kept <==> v in w
    {
      if v in w {
        assert v in multiset(s);
      }
    }
    CounterIncreasing(s);
    WithCountIncreasing(Counter(s), k);
    SameMembers(kept, w);
    SortedUnique(kept, w);
  }

  /** For every count k, as many values of s have k occurrences as f has
      entries k. */
  ghost predicate CountsAre(s: seq<int>, f: seq<int>)
  {
    forall k :: |WithCount(Counter(s), k)| == Occurrences(f, k)
  }

  /** How many entries of f are k. */
  function Occurrences(f: seq<int>, k: int): (n: nat)
    ensures n == multiset(f)[k]
  {
    if f == [] then 0
    else
      assert f == [f[0]] + f[1..];
      (if f[0] == k then 1 else 0) + Occurrences(f[1..], k)
  }

  /** The frequencies, once it is known how many values have each count. */
  lemma FreqIs(s: seq<int>, f: seq<int>)
    requires CountsAre(s, f)
    requires forall i, j :: 0 <= i < j < |f| ==> f[i] >= f[j]
    ensures Freq(s) == f
  {
    var n := Counts(Counter(s));
    forall k
      ensures multiset(n)[k] == multiset(f)[k]
    {
      CountsMultiset(Counter(s), k);
    }
    assert multiset(n) == multiset(f);
    SortDescOf(n, f);
  }

  /** Values that each occur at most once each occur once. */
  lemma AllSingles(s: seq<int>)
    requires forall x :: multiset(s)[x] <= 1
    ensures forall i :: 0 <= i < |Freq(s)| ==> Freq(s)[i] == 1
  {
    var c := Counter(s);
    CounterTallies(s);
    forall i | 0 <= i < |Freq(s)|
      ensures Freq(s)[i] == 1
    {
      assert Freq(s)[i] in multiset(Counts(c));
      var j :| 0 <= j < |c| && Counts(c)[j] == Freq(s)[i];
      assert c[j].count == multiset(s)[c[j].value] >= 1;
    }
  }

  /** The values a hand with four of a kind has n times. */
  lemma QuadsKept(s: seq<int>, q: int, k: int, n: int)
    requires SortedAsc(s) && q != k && multiset(s) == multiset{q, q, q, q, k}
    ensures WithCount(Counter(s), n) == if n == 4 then [q] else if n == 1 then [k] else []
    ensures |WithCount(Counter(s), n)| == Occurrences([4, 1], n)
  {
    var m := multiset(s);
    if n < 1 {
      EmptyWithCount(s, n);
    } else {
      var w := if n == 4 then [q] else if n == 1 then [k] else [];
      forall v
        ensures m[v] == n <==> v in w
      {
        assert m[v] == if v == q then 4 else if v == k then 1 else 0;
      }
      WithCountIs(s, n, w);
      assert |w| == Occurrences([4, 1], n);
    }
  }

  /** The counter of a hand with four of a kind. */
  lemma QuadsCounts(s: seq<int>, q: int, k: int)
    requires SortedAsc(s) && q != k && multiset(s) == multiset{q, q, q, q, k}
    ensures CountsAre(s, [4, 1])
  {
    forall n
      ensures |WithCount(Counter(s), n)| == Occurrences([4, 1], n)
    {
      QuadsKept(s, q, k, n);
    }
  }

  lemma QuadsCounter(s: seq<int>, q: int, k: int)
    requires SortedAsc(s) && q != k && multiset(s) == multiset{q, q, q, q, k}
    ensures Freq(s) == [4, 1]
    ensures WithCount(Counter(s), 4) == [q] && WithCount(Counter(s), 1) == [k]
  {
    QuadsCounts(s, q, k);
    FreqIs(s, [4, 1]);
    QuadsKept(s, q, k, 4);
    QuadsKept(s, q, k, 1);
  }

  /** Four of a kind: `[7, quad, kicker]`, whatever the suits. */
  lemma QuadsScore(cards: seq<Card>, q: int, k: int)
    requires |cards| == 5 && q != k
    requires multiset(Values(cards)) == multiset{q, q, q, q, k}
    ensures ScoreHand(cards) == [7, q, k]
  {
    var s := Sort(Values(cards));
    RepeatIsNoStraight(s, q);
    QuadsCounter(s, q, k);
  }

  /** No value occurs a non-positive number of times. */
  lemma EmptyWithCount(s: seq<int>, n: int)
    requires n < 1
    ensures WithCount(Counter(s), n) == []
  {
    CounterTallies(s);
    NoneBelowOne(Counter(s), n);
  }

  lemma {:induction false} NoneBelowOne(c: seq<Entry>, n: int)
    requires n < 1 && forall i :: 0 <= i < |c| ==> c[i].count >= 1
    ensures WithCount(c, n) == []
  {
    if c != [] {
      NoneBelowOne(c[1..], n);
    }
  }

  /** The values a full house has n times. */
  lemma FullHouseKept(s: seq<int>, t: int, p: int, n: int)
    requires SortedAsc(s) && t != p && multiset(s) == multiset{t, t, t, p, p}
    ensures WithCount(Counter(s), n) == if n == 3 then [t] else if n == 2 then [p] else []
    ensures |WithCount(Counter(s), n)| == Occurrences([3, 2], n)
  {
    var m := multiset(s);
    if n < 1 {
      EmptyWithCount(s, n);
    } else {
      var w := if n == 3 then [t] else if n == 2 then [p] else [];
      forall v
        ensures m[v] == n <==> v in w
      {
        assert m[v] == if v == t then 3 else if v == p then 2 else 0;
      }
      WithCountIs(s, n, w);
      assert |w| == Occurrences([3, 2], n);
    }
  }

  /** How often a hand t, t, t, a, b holds v. */
  lemma TripsCount(m: multiset<int>, t: int, a: int, b: int, v: int)
    requires m == multiset{t, t, t, a, b} && a > b && t != a && t != b
    ensures m[v] == if v == t then 3 else if v == a || v == b then 1 else 0
  {
  }

  /** The values such a hand has n times, in ascending order. */
  lemma TripsPicked(m: multiset<int>, t: int, a: int, b: int, n: int, w: seq<int>)
    requires a > b && t != a && t != b
    requires forall v :: m[v] == if v == t then 3 else if v == a || v == b then 1 else 0
    requires w == if n == 3 then [t] else if n == 1 then [b, a] else []
    ensures n >= 1 ==> forall v :: m[v] == n <==> v in w
  {
  }

  /** The lists the filters give for such a hand: ascending, and as many
      as the frequencies name n. */
  lemma TripsShape(t: int, a: int, b: int, n: int, w: seq<int>)
    requires a > b && t != a && t != b
    requires w == if n == 3 then [t] else if n == 1 then [b, a] else []
    ensures Increasing(w) && |w| == Occurrences([3, 1, 1], n)
  {
  }

  lemma TwoPairCount(m: multiset<int>, h: int, l: int, k: int, v: int)
    requires m == multiset{h, h, l, l, k} && h > l && k != h && k != l
    ensures m[v] == if v == h || v == l then 2 else if v == k then 1 else 0
  {
  }

  lemma TwoPairPicked(m: multiset<int>, h: int, l: int, k: int, n: int, w: seq<int>)
    requires h > l && k != h && k != l
    requires forall v :: m[v] == if v == h || v == l then 2 else if v == k then 1 else 0
    requires w == if n == 2 then [l, h] else if n == 1 then [k] else []
    ensures n >= 1 ==> forall v :: m[v] == n <==> v in w
  {
  }

  /** The lists the filters give for such a hand: ascending, and as many
      as the frequencies name n. */
  lemma TwoPairShape(h: int, l: int, k: int, n: int, w: seq<int>)
    requires h > l && k != h && k != l
    requires w == if n == 2 then [l, h] else if n == 1 then [k] else []
    ensures Increasing(w) && |w| == Occurrences([2, 2, 1], n)
  {
  }

  lemma PairCount(m: multiset<int>, p: int, a: int, b: int, c: int, v: int)
    requires m == multiset{p, p, a, b, c} && a > b > c && p != a && p != b && p != c
    ensures m[v] == if v == p then 2 else if v == a || v == b || v == c then 1 else 0
  {
  }

  lemma PairPicked(m: multiset<int>, p: int, a: int, b: int, c: int, n: int, w: seq<int>)
    requires a > b > c && p != a && p != b && p != c
    requires forall v :: m[v] == if v == p then 2 else if v == a || v == b || v == c then 1 else 0
    requires w == if n == 2 then [p] else if n == 1 then [c, b, a] else []
    ensures n >= 1 ==> forall v :: m[v] == n <==> v in w
  {
  }

  /** The lists the filters give for such a hand: ascending, and as many
      as the frequencies name n. */
  lemma PairShape(p: int, a: int, b: int, c: int, n: int, w: seq<int>)
    requires a > b > c && p != a && p != b && p != c
    requires w == if n == 2 then [p] else if n == 1 then [c, b, a] else []
    ensures Increasing(w) && |w| == Occurrences([2, 1, 1, 1], n)
  {
  }

  /** The values three of a kind with kickers a and b has n times. */
  lemma TripsKept(s: seq<int>, t: int, a: int, b: int, n: int)
    requires SortedAsc(s) && a > b && t != a && t != b && multiset(s) == multiset{t, t, t, a, b}
    ensures WithCount(Counter(s), n) == if n == 3 then [t] else if n == 1 then [b, a] else []
    ensures |WithCount(Counter(s), n)| == Occurrences([3, 1, 1], n)
  {
    var w := if n == 3 then [t] else if n == 1 then [b, a] else [];
    forall v
      ensures multiset(s)[v] == if v == t then 3 else if v == a || v == b then 1 else 0
    {
      TripsCount(multiset(s), t, a, b, v);
    }
    TripsPicked(multiset(s), t, a, b, n, w);
    TripsShape(t, a, b, n, w);
    if n < 1 {
      EmptyWithCount(s, n);
    } else {
      WithCountIs(s, n, w);
    }
  }

  /** The values two pair h over l with kicker k has n times. */
  lemma TwoPairKept(s: seq<int>, h: int, l: int, k: int, n: int)
    requires SortedAsc(s) && h > l && k != h && k != l && multiset(s) == multiset{h, h, l, l, k}
    ensures WithCount(Counter(s), n) == if n == 2 then [l, h] else if n == 1 then [k] else []
    ensures |WithCount(Counter(s), n)| == Occurrences([2, 2, 1], n)
  {
    var w := if n == 2 then [l, h] else if n == 1 then [k] else [];
    forall v
      ensures multiset(s)[v] == if v == h || v == l then 2 else if v == k then 1 else 0
    {
      TwoPairCount(multiset(s), h, l, k, v);
    }
    TwoPairPicked(multiset(s), h, l, k, n, w);
    TwoPairShape(h, l, k, n, w);
    if n < 1 {
      EmptyWithCount(s, n);
    } else {
      WithCountIs(s, n, w);
    }
  }

  /** The values one pair p with kickers a, b, c has n times. */
  lemma PairKept(s: seq<int>, p: int, a: int, b: int, c: int, n: int)
    requires SortedAsc(s) && a > b > c && p != a && p != b && p != c
    requires multiset(s) == multiset{p, p, a, b, c}
    ensures WithCount(Counter(s), n) == if n == 2 then [p] else if n == 1 then [c, b, a] else []
    ensures |WithCount(Counter(s), n)| == Occurrences([2, 1, 1, 1], n)
  {
    var w := if n == 2 then [p] else if n == 1 then [c, b, a] else [];
    forall v
      ensures multiset(s)[v] == if v == p then 2 else if v == a || v == b || v == c then 1 else 0
    {
      PairCount(multiset(s), p, a, b, c, v);
    }
    PairPicked(multiset(s), p, a, b, c, n, w);
    PairShape(p, a, b, c, n, w);
    if n < 1 {
      EmptyWithCount(s, n);
    } else {
      WithCountIs(s, n, w);
    }
  }

  /** A run holds each of its values once. */
  lemma RunSingles(vs: seq<int>, lo: int)
    requires Run(vs, lo)
    ensures forall x :: multiset(vs)[x] <= 1
  {
    RangeSorted(lo, lo + 5);
    DistinctMultiset(Range(lo, lo + 5));
  }

  lemma WheelSingles(vs: seq<int>)
    requires IsWheel(vs)
    ensures forall x :: multiset(vs)[x] <= 1
  {
    WheelSorted();
    DistinctMultiset([0, 1, 2, 3, 12]);
  }

  /** A card of another suit rules out a flush. */
  lemma NoFlush(cards: seq<Card>)
    requires |cards| > 0 && !OneSuit(cards)
    ensures !IsFlush(cards)
  {
    FlushIsOneSuit(cards);
  }

  lemma Flush(cards: seq<Card>)
    requires |cards| > 0 && OneSuit(cards)
    ensures IsFlush(cards)
  {
    FlushIsOneSuit(cards);
  }

  /** The branch facts of a full house: no straight, counts 3 and 2. */
  lemma FullHouseCounts(s: seq<int>, t: int, p: int)
    requires SortedAsc(s) && t != p && multiset(s) == multiset{t, t, t, p, p}
    ensures CountsAre(s, [3, 2])
  {
    forall n
      ensures |WithCount(Counter(s), n)| == Occurrences([3, 2], n)
    {
      FullHouseKept(s, t, p, n);
    }
  }

  lemma FullHouseCounter(s: seq<int>, t: int, p: int)
    requires SortedAsc(s) && t != p && multiset(s) == multiset{t, t, t, p, p}
    ensures Freq(s) == [3, 2]
    ensures WithCount(Counter(s), 3) == [t] && WithCount(Counter(s), 2) == [p]
  {
    FullHouseCounts(s, t, p);
    FreqIs(s, [3, 2]);
    FullHouseKept(s, t, p, 3);
    FullHouseKept(s, t, p, 2);
  }

  /** Full house: `[6, trips, pair]`, whatever the suits. */
  lemma FullHouseScore(cards: seq<Card>, t: int, p: int)
    requires |cards| == 5 && t != p
    requires multiset(Values(cards)) == multiset{t, t, t, p, p}
    ensures ScoreHand(cards) == [6, t, p]
  {
    var s := Sort(Values(cards));
    RepeatIsNoStraight(s, t);
    FullHouseCounter(s, t, p);
  }

  lemma TripsCounts(s: seq<int>, t: int, a: int, b: int)
    requires SortedAsc(s) && a > b && t != a && t != b && multiset(s) == multiset{t, t, t, a, b}
    ensures CountsAre(s, [3, 1, 1])
  {
    forall n
      ensures |WithCount(Counter(s), n)| == Occurrences([3, 1, 1], n)
    {
      TripsKept(s, t, a, b, n);
    }
  }

  lemma TripsCounter(s: seq<int>, t: int, a: int, b: int)
    requires SortedAsc(s) && a > b && t != a && t != b && multiset(s) == multiset{t, t, t, a, b}
    ensures Freq(s) == [3, 1, 1]
    ensures WithCount(Counter(s), 3) == [t] && SortDesc(WithCount(Counter(s), 1)) == [a, b]
  {
    TripsCounts(s, t, a, b);
    FreqIs(s, [3, 1, 1]);
    TripsKept(s, t, a, b, 3);
    TripsKept(s, t, a, b, 1);
    SortDescTwo(a, b);
  }

  /** Three of a kind: `[3, trips, k1, k2]` with k1 > k2, when the cards do
      not share a suit. */
  lemma TripsScore(cards: seq<Card>, t: int, a: int, b: int)
    requires |cards| == 5 && a > b && t != a && t != b
    requires multiset(Values(cards)) == multiset{t, t, t, a, b}
    requires !OneSuit(cards)
    ensures ScoreHand(cards) == [3, t, a, b]
  {
    NoFlush(cards);
    var s := Sort(Values(cards));
    var c := Counter(s);
    RepeatIsNoStraight(s, t);
    TripsCounter(s, t, a, b);
    ScoreHandRanked(cards, false, false, [3, 1, 1]);
    TripsBranch(s, c, t, a, b);
  }


  lemma TwoPairCounts(s: seq<int>, h: int, l: int, k: int)
    requires SortedAsc(s) && h > l && k != h && k != l && multiset(s) == multiset{h, h, l, l, k}
    ensures CountsAre(s, [2, 2, 1])
  {
    forall n
      ensures |WithCount(Counter(s), n)| == Occurrences([2, 2, 1], n)
    {
      TwoPairKept(s, h, l, k, n);
    }
  }

  lemma TwoPairCounter(s: seq<int>, h: int, l: int, k: int)
    requires SortedAsc(s) && h > l && k != h && k != l && multiset(s) == multiset{h, h, l, l, k}
    ensures Freq(s) == [2, 2, 1]
    ensures SortDesc(WithCount(Counter(s), 2)) == [h, l] && WithCount(Counter(s), 1) == [k]
  {
    TwoPairCounts(s, h, l, k);
    FreqIs(s, [2, 2, 1]);
    TwoPairKept(s, h, l, k, 2);
    TwoPairKept(s, h, l, k, 1);
    SortDescTwo(h, l);
  }

  /** Two pair: `[2, high pair, low pair, kicker]`, when the cards do not
      share a suit. */
  lemma TwoPairScore(cards: seq<Card>, h: int, l: int, k: int)
    requires |cards| == 5 && h > l && k != h && k != l
    requires multiset(Values(cards)) == multiset{h, h, l, l, k}
    requires !OneSuit(cards)
    ensures ScoreHand(cards) == [2, h, l, k]
  {
    NoFlush(cards);
    var s := Sort(Values(cards));
    var c := Counter(s);
    RepeatIsNoStraight(s, h);
    TwoPairCounter(s, h, l, k);
    ScoreHandRanked(cards, false, false, [2, 2, 1]);
    TwoPairBranch(s, c, h, l, k);
  }


  lemma PairCounts(s: seq<int>, p: int, a: int, b: int, c: int)
    requires SortedAsc(s) && a > b > c && p != a && p != b && p != c
    requires multiset(s) == multiset{p, p, a, b, c}
    ensures CountsAre(s, [2, 1, 1, 1])
  {
    forall n
      ensures |WithCount(Counter(s), n)| == Occurrences([2, 1, 1, 1], n)
    {
      PairKept(s, p, a, b, c, n);
    }
  }

  lemma PairCounter(s: seq<int>, p: int, a: int, b: int, c: int)
    requires SortedAsc(s) && a > b > c && p != a && p != b && p != c
    requires multiset(s) == multiset{p, p, a, b, c}
    ensures Freq(s) == [2, 1, 1, 1]
    ensures WithCount(Counter(s), 2) == [p] && SortDesc(WithCount(Counter(s), 1)) == [a, b, c]
  {
    PairCounts(s, p, a, b, c);
    FreqIs(s, [2, 1, 1, 1]);
    PairKept(s, p, a, b, c, 2);
    PairKept(s, p, a, b, c, 1);
    SortDescThree(a, b, c);
  }

  /** One pair: `[1, pair, k1, k2, k3]` with k1 > k2 > k3, when the cards do
      not share a suit. */
  lemma PairScore(cards: seq<Card>, p: int, a: int, b: int, c: int)
    requires |cards| == 5 && a > b > c && p != a && p != b && p != c
    requires multiset(Values(cards)) == multiset{p, p, a, b, c}
    requires !OneSuit(cards)
    ensures ScoreHand(cards) == [1, p, a, b, c]
  {
    NoFlush(cards);
    var s := Sort(Values(cards));
    RepeatIsNoStraight(s, p);
    PairCounter(s, p, a, b, c);
    ScoreHandRanked(cards, false, false, [2, 1, 1, 1]);
    PairBranch(s, Counter(s), p, a, b, c);
  }

  // ---------------------------------------------- straights, flushes, high card

  /** Values that occur once each have every count 1, so no branch on the
      counts is taken. */
  lemma SinglesFreq(s: seq<int>)
    requires |s| > 0 && forall x :: multiset(s)[x] <= 1
    ensures First(Freq(s)) == 1 && Freq(s) != [3, 2] && Take2(Freq(s)) != [2, 2]
  {
    AllSingles(s);
    FreqNonEmpty(s);
    var f := Freq(s);
    assert f[0] == 1;
    assert Take2(f)[0] == 1;
  }

  lemma StraightFlushBranch(values: seq<int>, freq: seq<int>, counter: seq<Entry>)
    requires |values| == 5
    ensures Ranked(values, true, true, freq, counter)
      == if values == [8, 9, 10, 11, 12] then [9, 12] else [8, MaxOf(values)]
  {
  }

  lemma StraightBranch(values: seq<int>, freq: seq<int>, counter: seq<Entry>)
    requires |values| == 5 && First(freq) != 4 && freq != [3, 2]
    ensures Ranked(values, false, true, freq, counter)
      == if values == [0, 1, 2, 3, 12] then [4, 3] else [4, MaxOf(values)]
  {
  }

  lemma FlushBranch(values: seq<int>, freq: seq<int>, counter: seq<Entry>)
    requires |values| == 5 && First(freq) != 4 && freq != [3, 2]
    ensures Ranked(values, true, false, freq, counter) == [5] + SortDesc(values)
  {
  }

  lemma HighCardBranch(values: seq<int>, freq: seq<int>, counter: seq<Entry>)
    requires |values| == 5 && First(freq) == 1 && Take2(freq) != [2, 2]
    ensures Grouped(values, freq, counter) == [0] + SortDesc(values)
  {
  }

  /** A run from lo is the royal run exactly when lo is 8, and it is never
      the wheel. */
  lemma RunShapes(lo: int)
    ensures Range(lo, lo + 5) == [8, 9, 10, 11, 12] <==> lo == 8
    ensures Range(lo, lo + 5) != [0, 1, 2, 3, 12]
  {
    var r := Range(lo, lo + 5);
    if lo == 8 {
      assert r == [8, 9, 10, 11, 12];
    }
    assert r[0] == lo && r[4] == lo + 4;
  }

  /** Straight flush: `[8, highest]`, and the royal flush 10 to ace
      `[9, 12]`. */
  lemma StraightFlushScore(cards: seq<Card>, lo: int)
    requires |cards| == 5 && OneSuit(cards) && Run(Values(cards), lo)
    ensures ScoreHand(cards) == if lo == 8 then [9, 12] else [8, lo + 4]
  {
    var s := Sort(Values(cards));
    Flush(cards);
    StraightIff(Values(cards));
    SortedRun(Values(cards), lo);
    RunShapes(lo);
    ScoreHandRanked(cards, true, true, Freq(s));
    StraightFlushBranch(s, Freq(s), Counter(s));
  }

  /** A suited A-2-3-4-5 scores `[8, 12]`: the ace counts high in
      `max(values)`, so this straight flush outranks every other one but
      the royal flush. */
  lemma SuitedWheelScore(cards: seq<Card>)
    requires |cards| == 5 && OneSuit(cards) && IsWheel(Values(cards))
    ensures ScoreHand(cards) == [8, 12]
  {
    var s := Sort(Values(cards));
    Flush(cards);
    StraightIff(Values(cards));
    SortedWheel(Values(cards));
    WheelSorted();
    SortedEnds(s);
    ScoreHandRanked(cards, true, true, Freq(s));
    StraightFlushBranch(s, Freq(s), Counter(s));
  }

  /** Straight: `[4, highest]`, when the cards do not share a suit. */
  lemma StraightScore(cards: seq<Card>, lo: int)
    requires |cards| == 5 && !OneSuit(cards) && Run(Values(cards), lo)
    ensures ScoreHand(cards) == [4, lo + 4]
  {
    var s := Sort(Values(cards));
    NoFlush(cards);
    StraightIff(Values(cards));
    SortedRun(Values(cards), lo);
    RunShapes(lo);
    RunSingles(Values(cards), lo);
    SinglesFreq(s);
    ScoreHandRanked(cards, false, true, Freq(s));
    StraightBranch(s, Freq(s), Counter(s));
  }

  /** The ace-low straight: `[4, 3]`, its five the highest card. */
  lemma WheelScore(cards: seq<Card>)
    requires |cards| == 5 && !OneSuit(cards) && IsWheel(Values(cards))
    ensures ScoreHand(cards) == [4, 3]
  {
    var s := Sort(Values(cards));
    NoFlush(cards);
    StraightIff(Values(cards));
    SortedWheel(Values(cards));
    WheelSingles(Values(cards));
    SinglesFreq(s);
    ScoreHandRanked(cards, false, true, Freq(s));
    StraightBranch(s, Freq(s), Counter(s));
  }

  /** Five different values, in no straight. */
  ghost predicate Unconnected(vs: seq<int>)
  {
    (forall lo :: !Run(vs, lo)) && !IsWheel(vs)
  }

  /** The ascending values of five different, unconnected values: no
      straight, each value once, and from the highest down they are d. */
  lemma UnconnectedValues(cards: seq<Card>, d: seq<int>)
    requires |cards| == 5 && Decreasing(d) && multiset(Values(cards)) == multiset(d)
    requires Unconnected(Values(cards))
    ensures var s := Sort(Values(cards));
      !IsStraight(s) && First(Freq(s)) == 1 && Freq(s) != [3, 2] && Take2(Freq(s)) != [2, 2]
      && SortDesc(s) == d
  {
    var s := Sort(Values(cards));
    StraightIff(Values(cards));
    DecreasingDistinct(d);
    DistinctMultiset(d);
    SinglesFreq(s);
    SortDescOf(s, d);
  }

  lemma DecreasingDistinct(d: seq<int>)
    requires Decreasing(d)
    ensures Distinct(d) && forall i, j :: 0 <= i < j < |d| ==> d[i] >= d[j]
  {
  }

  /** Flush: `[5]` and then the values from the highest down. */
  lemma FlushScore(cards: seq<Card>, d: seq<int>)
    requires |cards| == 5 && OneSuit(cards)
    requires Decreasing(d) && multiset(Values(cards)) == multiset(d)
    requires Unconnected(Values(cards))
    ensures ScoreHand(cards) == [5] + d
  {
    var s := Sort(Values(cards));
    Flush(cards);
    UnconnectedValues(cards, d);
    ScoreHandRanked(cards, true, false, Freq(s));
    FlushBranch(s, Freq(s), Counter(s));
  }

  /** High card: `[0]` and then the values from the highest down. */
  lemma HighCardScore(cards: seq<Card>, d: seq<int>)
    requires |cards| == 5 && !OneSuit(cards)
    requires Decreasing(d) && multiset(Values(cards)) == multiset(d)
    requires Unconnected(Values(cards))
    ensures ScoreHand(cards) == [0] + d
  {
    var s := Sort(Values(cards));
    NoFlush(cards);
    UnconnectedValues(cards, d);
    ScoreHandRanked(cards, false, false, Freq(s));
    PastStraight(s, Freq(s), Counter(s));
    HighCardBranch(s, Freq(s), Counter(s));
  }

  /** Only the high card branch leads with 0, and it lists the values
      from the highest down. */
  lemma ScoreHandHead(cards: seq<Card>)
    requires |cards| == 5
    ensures ScoreHand(cards)[0] == 0 ==> ScoreHand(cards) == [0] + SortDesc(Sort(Values(cards)))
  {
    var s := Sort(Values(cards));
    ScoreHandRanked(cards, IsFlush(cards), IsStraight(s), Freq(s));
    RankedHead(s, IsFlush(cards), IsStraight(s), Freq(s), Counter(s));
  }

  lemma RankedHead(values: seq<int>, isFlush: bool, isStraight: bool, freq: seq<int>,
                   counter: seq<Entry>)
    requires |values| == 5
    ensures Ranked(values, isFlush, isStraight, freq, counter)[0] == 0 ==>
      Ranked(values, isFlush, isStraight, freq, counter) == [0] + SortDesc(values)
  {
  }

  /** The highest value heads the values from the highest down. */
  lemma SortDescHead(s: seq<int>)
    requires |s| > 0 && SortedAsc(s)
    ensures SortDesc(s)[0] == s[|s| - 1]
  {
    SortedUnique(Sort(s), s);
  }
}
