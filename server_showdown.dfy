/** The pot award of `handle_showdown` (server.py): the last seat in the
    hand takes the pot; otherwise every seat still in is scored with
    `evaluate_hand`, and the seats whose score is the greatest share the
    pot by floor division.  The remainder of a split pot is dropped and the
    pot itself is not cleared. */
module ServerShowdown {
  import opened ServerCards
  import opened HandSearch
  import opened Tally
  import opened ServerTable

  /** Python's `max` over the scores of the seats still in, in seat order:
      the first, replaced by every later one that is above the greatest so
      far; None when there is no such score. */
  function BestLive(seats: seq<Seat>): Option<seq<int>>
  {
    if seats == [] then None
    else
      var p := BestLive(seats[..|seats| - 1]);
      var s := seats[|seats| - 1];
      if s.folded || s.score.None? then p
      else if p.None? then Some(s.score.value)
      else Some(Keep(p.value, s.score.value))
  }

  /** A seat still in whose score is known. */
  predicate Scores(s: Seat)
  {
    !s.folded && s.score.Some?
  }

  /** The maximum exists exactly when some seat still in has a score; it is
      the score of one of them, and no such score is above it. */
  lemma {:induction false} BestLiveIsGreatest(seats: seq<Seat>)
    ensures BestLive(seats).Some? <==> exists j :: 0 <= j < |seats| && Scores(seats[j])
    ensures BestLive(seats).Some? ==>
      && (exists j :: 0 <= j < |seats| && Scores(seats[j]) && seats[j].score == BestLive(seats))
      && forall j :: 0 <= j < |seats| && Scores(seats[j]) ==> !Below(BestLive(seats).value, seats[j].score.value)
    decreases |seats|
  {
    if seats != [] {
      var n := |seats| - 1;
      var pre := seats[..n];
      var s := seats[n];
      BestLiveIsGreatest(pre);
      var p := BestLive(pre);
      var m := BestLive(seats);
      assert forall j :: 0 <= j < n ==> pre[j] == seats[j];
      if Scores(s) {
        BelowIrreflexive(s.score.value);
        if p.Some? {
          var k :| 0 <= k < n && Scores(pre[k]) && pre[k].score == p;
          assert Scores(seats[k]);
          forall j | 0 <= j < |seats| && Scores(seats[j])
            ensures !Below(m.value, seats[j].score.value)
          {
            if j < n {
              assert Scores(pre[j]);
              if Below(p.value, s.score.value) && Below(s.score.value, seats[j].score.value) {
                BelowTransitive(p.value, s.score.value, seats[j].score.value);
              }
            } else if !Below(p.value, s.score.value) {
              assert m == p;
            }
          }
        } else {
          forall j | 0 <= j < |seats| && Scores(seats[j])
            ensures j == n
          {
          }
        }
      } else {
        assert m == p;
        forall j | 0 <= j < |seats| && Scores(seats[j])
          ensures j < n && Scores(pre[j])
        {
        }
        if p.Some? {
          var k :| 0 <= k < n && Scores(pre[k]) && pre[k].score == p;
          assert Scores(seats[k]) && seats[k].score == m;
        }
      }
    }
  }

  /** The seats still in, their hands shown and scored by `evaluate_hand`
      against the board; folded seats as they are. */
  function Scored(seats: seq<Seat>, community: seq<Card>): (r: seq<Seat>)
    ensures |r| == |seats|
    ensures forall j :: 0 <= j < |seats| ==>
      r[j] == if seats[j].folded then seats[j]
              else seats[j].(hand := Revealed(seats[j].hand),
                             score := Some(BestScore(Revealed(seats[j].hand), community)))
  {
    seq(|seats|, j requires 0 <= j < |seats| =>
      if seats[j].folded then seats[j]
      else seats[j].(hand := Revealed(seats[j].hand),
                     score := Some(BestScore(Revealed(seats[j].hand), community))))
  }

  /** A seat shares the pot when it is still in and its score is the best. */
  predicate Winner(s: Seat, best: seq<int>)
  {
    !s.folded && s.score == Some(best)
  }

  function WinnerFlags(seats: seq<Seat>, best: seq<int>): (f: seq<bool>)
    ensures |f| == |seats| && forall j :: 0 <= j < |seats| ==> f[j] == Winner(seats[j], best)
  {
    seq(|seats|, j requires 0 <= j < |seats| => Winner(seats[j], best))
  }

  /** `winner["chips"] += win_amount; winner["is_winner"] = True` for every
      winner. */
  function Award(seats: seq<Seat>, best: seq<int>, win: int): (r: seq<Seat>)
    ensures |r| == |seats|
  {
    seq(|seats|, j requires 0 <= j < |seats| =>
      if Winner(seats[j], best) then seats[j].(chips := seats[j].chips + win, isWinner := true)
      else seats[j])
  }

  /** If some seat still in has a score, the best of them belongs to a
      winner. */
  lemma SomeWinner(seats: seq<Seat>)
    requires BestLive(seats).Some?
    ensures CountTrue(WinnerFlags(seats, BestLive(seats).value)) > 0
  {
    BestLiveIsGreatest(seats);
    var j :| 0 <= j < |seats| && Scores(seats[j]) && seats[j].score == BestLive(seats);
    var f := WinnerFlags(seats, BestLive(seats).value);
    assert f[j];
    CountTrueZero(f);
  }

  /** Every seat still in has a score after scoring, so a best score exists
      as soon as one seat is in. */
  lemma ScoredHasBest(seats: seq<Seat>, community: seq<Card>)
    requires CountTrue(InHand(seats)) > 0
    ensures BestLive(Scored(seats, community)).Some?
  {
    var f := InHand(seats);
    FirstTrueFound(f);
    var r := Scored(seats, community);
    BestLiveIsGreatest(r);
    assert Scores(r[FirstTrue(f)]);
  }

  /** `handle_showdown` from the pot award on.  One seat still in takes the
      pot and shows its hand.  Otherwise every seat still in is shown and
      scored, and the seats with the greatest score gain the pot divided
      by their number, rounded down; with no seat in, `max` of nothing
      raises.  The pot is left as it was. */
  function Payout(t: Table): Call<()>
  {
    var live := InHand(t.seats);
    if CountTrue(live) == 1 then
      FirstTrueFound(live);
      var w := FirstTrue(live);
      var s := t.seats[w];
      Returned(t.(seats := t.seats[w := s.(chips := s.chips + t.pot, isWinner := true, hand := Revealed(s.hand))],
                  state := RoundComplete), ())
    else
      var scored := Scored(t.seats, t.community);
      var u := t.(seats := scored, state := Showdown);
      if CountTrue(live) == 0 then Raised(u, ValueError)
      else
        ScoredHasBest(t.seats, t.community);
        var best := BestLive(scored).value;
        SomeWinner(scored);
        var share := t.pot / CountTrue(WinnerFlags(scored, best));
        Returned(u.(seats := Award(scored, best, share), state := RoundComplete), ())
  }

  /** The award adds the share to every winner's stack and changes nothing
      else: the stacks grow by the share once per winner. */
  lemma AwardAdds(seats: seq<Seat>, best: seq<int>, win: int)
    ensures var r := Award(seats, best, win);
      && (forall j :: 0 <= j < |seats| ==>
            r[j] == if Winner(seats[j], best) then seats[j].(chips := seats[j].chips + win, isWinner := true)
                    else seats[j])
      && Sum(Stacks(r)) == Sum(Stacks(seats)) + CountTrue(WinnerFlags(seats, best)) * win
  {
    var r := Award(seats, best, win);
    var f := WinnerFlags(seats, best);
    forall j | 0 <= j < |seats|
      ensures Stacks(r)[j] == Stacks(seats)[j] + (if f[j] then win else 0)
    {
    }
    SumFlaggedAdd(Stacks(seats), Stacks(r), f, win);
  }

  /** The last seat in the hand takes the whole pot: its stack grows by the
      pot, it is marked the winner and its hand is shown; no other seat
      changes, the pot keeps its amount and the round is complete. */
  lemma UncontestedPot(t: Table)
    requires CountTrue(InHand(t.seats)) == 1
    ensures Payout(t).Returned?
    ensures var u := Payout(t).table;
      var w := FirstTrue(InHand(t.seats));
      && w < |t.seats| && !t.seats[w].folded
      && (forall j :: 0 <= j < |t.seats| && j != w ==> t.seats[j].folded && u.seats[j] == t.seats[j])
      && |u.seats| == |t.seats|
      && u.seats[w] == t.seats[w].(chips := t.seats[w].chips + t.pot, isWinner := true,
                                   hand := Revealed(t.seats[w].hand))
      && Sum(Stacks(u.seats)) == Sum(Stacks(t.seats)) + t.pot
      && u == t.(seats := u.seats, state := RoundComplete)
  {
    var live := InHand(t.seats);
    FirstTrueFound(live);
    var w := FirstTrue(live);
    CountTrueOne(live, w);
    var u := Payout(t).table;
    assert Stacks(u.seats) == Stacks(t.seats)[w := t.seats[w].chips + t.pot];
    SumUpdate(Stacks(t.seats), w, t.seats[w].chips + t.pot);
  }

  /** At a contested showdown the winners are exactly the seats still in
      whose score (the best five-card score of their shown hand and the
      board) no other live seat's score is above. */
  lemma WinnersAreTheBest(t: Table)
    requires CountTrue(InHand(t.seats)) >= 2
    ensures var scored := Scored(t.seats, t.community);
      BestLive(scored).Some? &&
      forall j :: 0 <= j < |t.seats| ==>
        (Winner(scored[j], BestLive(scored).value) <==>
           && !t.seats[j].folded
           && forall k :: 0 <= k < |t.seats| && !t.seats[k].folded ==>
                !Below(scored[j].score.value, scored[k].score.value))
  {
    var scored := Scored(t.seats, t.community);
    ScoredHasBest(t.seats, t.community);
    BestLiveIsGreatest(scored);
    var best := BestLive(scored).value;
    var i :| 0 <= i < |scored| && Scores(scored[i]) && scored[i].score == Some(best);
    forall j | 0 <= j < |t.seats|
      ensures Winner(scored[j], best) <==>
           && !t.seats[j].folded
           && forall k :: 0 <= k < |t.seats| && !t.seats[k].folded ==>
                !Below(scored[j].score.value, scored[k].score.value)
    {
      if Winner(scored[j], best) {
        forall k | 0 <= k < |t.seats| && !t.seats[k].folded
          ensures !Below(scored[j].score.value, scored[k].score.value)
        {
          assert Scores(scored[k]);
        }
      } else if !t.seats[j].folded {
        assert Scores(scored[j]);
        assert scored[j].score.value != best;
        BelowTotal(scored[j].score.value, best);
        assert !t.seats[i].folded;
      }
    }
  }

  /** A contested showdown gives every winner the pot divided by the number
      of winners, rounded down: the stacks grow by that share times the
      number of winners, so the remainder of the division is lost, and the
      pot keeps its amount.  Hands of seats still in are shown and scored;
      the round is complete. */
  lemma SplitPot(t: Table)
    requires CountTrue(InHand(t.seats)) >= 2
    ensures Payout(t).Returned?
    ensures var u := Payout(t).table;
      var scored := Scored(t.seats, t.community);
      BestLive(scored).Some? &&
      var best := BestLive(scored).value;
      var k := CountTrue(WinnerFlags(scored, best));
      && k > 0
      && |u.seats| == |t.seats|
      && (forall j :: 0 <= j < |t.seats| ==>
            u.seats[j] == if Winner(scored[j], best)
                          then scored[j].(chips := t.seats[j].chips + t.pot / k, isWinner := true)
                          else scored[j])
      && Sum(Stacks(u.seats)) == Sum(Stacks(t.seats)) + k * (t.pot / k)
      && u == t.(seats := u.seats, state := RoundComplete)
  {
    var scored := Scored(t.seats, t.community);
    ScoredHasBest(t.seats, t.community);
    var best := BestLive(scored).value;
    SomeWinner(scored);
    var k := CountTrue(WinnerFlags(scored, best));
    AwardAdds(scored, best, t.pot / k);
    assert Stacks(scored) == Stacks(t.seats);
  }

  /** A showdown with every seat folded raises at `max`, after the state
      has moved to the showdown. */
  lemma NobodyLeft(t: Table)
    requires CountTrue(InHand(t.seats)) == 0
    ensures Payout(t) == Raised(t.(seats := Scored(t.seats, t.community), state := Showdown), ValueError)
  {
  }
}
