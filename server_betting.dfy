/** The betting engine of the live server: `handle_player_action`, which
    gates an action on the state of the table and whose turn it is,
    `_perform_action`, which checks and applies one action and passes the
    turn, and `check_round_complete`, which ends a betting round by dealing
    the next street or going to the showdown. */
module ServerBetting {
  import opened Tally
  import opened ServerTable
  import opened ServerStreets
  import opened ServerShowdown

  datatype Action = Check | Fold | CallBet | Raise | AllIn | Unknown

  /** Why an action is refused, one constructor per message of the source. */
  datatype Refusal =
    | RoundOver          // the round is complete and waits for the next one
    | NotInProgress      // waiting for players, or at the showdown
    | NotYourTurn
    | CannotAct          // the seat has folded or is all-in
    | BetToCall          // a check facing a bet
    | MustCallBigBlind   // a check before the flop below the big blind
    | NothingToCall
    | NoRaiseAmount
    | RaiseNotAboveBet
    | RaiseBelowMinimum
    | NotEnoughChips
    | NoChips            // all-in with an empty stack
    | InvalidAction

  datatype Verdict = Accepted | Refused(why: Refusal)

  /** The seat whose turn it is and what it must add to match the bet. */
  function Gap(t: Table): int
    requires t.current < |t.seats|
  {
    t.currentBet - t.seats[t.current].bet
  }

  /** The table with the acting seat's record replaced. */
  function WithActor(t: Table, s: Seat): Table
    requires t.current < |t.seats|
  {
    t.(seats := t.seats[t.current := s])
  }

  /** A check: refused facing a bet, and before the flop below the big
      blind; it moves nothing. */
  function CheckStep(t: Table): (Table, Verdict)
    requires t.current < |t.seats|
  {
    if Gap(t) > 0 then (t, Refused(BetToCall))
    else if t.state == Preflop && t.seats[t.current].bet < BigBlind then (t, Refused(MustCallBigBlind))
    else (t, Accepted)
  }

  /** A fold: the seat folds and its sid joins the fold list. */
  function FoldStep(t: Table): (Table, Verdict)
    requires t.current < |t.seats|
  {
    var s := t.seats[t.current];
    (WithActor(t, s.(folded := true)).(foldList := t.foldList + [s.sid]), Accepted)
  }

  /** A call: refused with nothing to match; otherwise the seat pays the gap
      or, when the gap is more than its stack, the whole stack and goes
      all-in. */
  function CallStep(t: Table): (Table, Verdict)
    requires t.current < |t.seats|
  {
    var s := t.seats[t.current];
    var gap := Gap(t);
    if gap <= 0 then (t, Refused(NothingToCall))
    else
      var short := gap > s.chips;
      var pay := if short then s.chips else gap;
      (WithActor(t, s.(chips := s.chips - pay, bet := s.bet + pay, allIn := s.allIn || short))
         .(pot := t.pot + pay, allInList := t.allInList + (if short then [s.sid] else [])),
       Accepted)
  }

  /** A raise to a total of `amount`: refused without an amount (none, or
      0), when the total does not exceed the bet, is short of the bet plus
      the minimum raise, or is more than the seat's stack and bet together.
      Otherwise the seat puts in the difference, the total becomes the bet,
      the raise over the old bet becomes the minimum and last raise, the
      seat becomes the aggressor and the betting round is reopened; a seat
      left with no chips is all-in. */
  function RaiseStep(t: Table, amount: Option<int>): (Table, Verdict)
    requires t.current < |t.seats|
  {
    var s := t.seats[t.current];
    if amount.None? || amount.value == 0 then (t, Refused(NoRaiseAmount))
    else
      var total := amount.value;
      if total <= t.currentBet then (t, Refused(RaiseNotAboveBet))
      else if total < t.currentBet + t.minRaise then (t, Refused(RaiseBelowMinimum))
      else if total > s.chips + s.bet then (t, Refused(NotEnoughChips))
      else
        var left := s.chips - (total - s.bet);
        (WithActor(t, s.(chips := left, bet := total, allIn := s.allIn || left == 0))
           .(pot := t.pot + (total - s.bet), currentBet := total,
             lastRaise := total - t.currentBet, minRaise := total - t.currentBet,
             lastAggressor := Some(t.current), roundComplete := false,
             allInList := t.allInList + (if left == 0 then [s.sid] else [])),
         Accepted)
  }

  /** All-in: refused with an empty stack; otherwise the whole stack goes
      in, and when the seat's bet then exceeds the bet to match it is a
      raise: the bet, the minimum and last raise and the aggressor follow,
      and the betting round is reopened. */
  function AllInStep(t: Table): (Table, Verdict)
    requires t.current < |t.seats|
  {
    var s := t.seats[t.current];
    if s.chips == 0 then (t, Refused(NoChips))
    else
      var bet := s.bet + s.chips;
      var u := WithActor(t, s.(chips := 0, allIn := true, bet := bet))
                 .(allInList := t.allInList + [s.sid], pot := t.pot + s.chips);
      if bet > t.currentBet then
        (u.(lastRaise := bet - t.currentBet, currentBet := bet, minRaise := bet - t.currentBet,
            lastAggressor := Some(t.current), roundComplete := false), Accepted)
      else (u, Accepted)
  }

  /** The checks and changes of `_perform_action` before the turn passes. */
  function Apply(t: Table, action: Action, amount: Option<int>): (Table, Verdict)
    requires t.current < |t.seats|
  {
    match action
    case Check => CheckStep(t)
    case Fold => FoldStep(t)
    case CallBet => CallStep(t)
    case Raise => RaiseStep(t, amount)
    case AllIn => AllInStep(t)
    case Unknown => (t, Refused(InvalidAction))
  }

  /** `_perform_action`: an accepted action passes the turn. */
  function Perform(t: Table, action: Action, amount: Option<int>): (Table, Verdict)
    requires t.current < |t.seats|
  {
    var r := Apply(t, action, amount);
    if r.1.Accepted? then (PassTurn(r.0), Accepted) else r
  }

  /** `check_round_complete`.  Nothing happens outside a betting street.
      A single seat left in the hand takes the pot at once; a finished
      betting round goes to the showdown after the river and to the next
      street before it.  The value says whether any of that happened. */
  function RoundCheck(t: Table): Call<bool>
  {
    if Idle(t.state) then Returned(t, false)
    else if CountTrue(InHand(t.seats)) == 1 || (t.roundComplete && t.state == River) then
      match Payout(t.(state := Showdown))
      case Raised(u, e) => Raised(u, e)
      case Returned(u, _) => Returned(u, true)
    else if t.roundComplete then
      match NextStreet(t)
      case Raised(u, e) => Raised(u, e)
      case Returned(u, _) => Returned(u, true)
    else Returned(t, false)
  }

  /** `handle_player_action`. */
  function Act(t: Table, sid: string, action: Action, amount: Option<int>): Call<Verdict>
  {
    if t.state == RoundComplete then Returned(t, Refused(RoundOver))
    else if t.state == Waiting || t.state == Showdown then Returned(t, Refused(NotInProgress))
    else if t.current >= |t.seats| then Raised(t, IndexError)
    else if sid != t.seats[t.current].sid then Returned(t, Refused(NotYourTurn))
    else if t.seats[t.current].folded || t.seats[t.current].allIn then Returned(t, Refused(CannotAct))
    else
      var r := Perform(t, action, amount);
      if r.1.Refused? then Returned(r.0, r.1)
      else
        match RoundCheck(r.0)
        case Raised(u, e) => Raised(u, e)
        case Returned(u, _) => Returned(u, Accepted)
  }

  // ------------------------------------------------------------ gating

  /** The betting streets. */
  predicate Betting(p: Phase)
  {
    p == Preflop || p == Flop || p == Turn || p == River
  }

  /** An action is only looked at on a betting street, from the seat whose
      turn it is, when that seat can still act; every gate that fails
      refuses it (or, for a turn index past the end, raises) and leaves the
      table as it was. */
  lemma ActGated(t: Table, sid: string, action: Action, amount: Option<int>)
    ensures t.state == RoundComplete ==> Act(t, sid, action, amount) == Returned(t, Refused(RoundOver))
    ensures t.state == Waiting || t.state == Showdown ==>
      Act(t, sid, action, amount) == Returned(t, Refused(NotInProgress))
    ensures Betting(t.state) && t.current >= |t.seats| ==> Act(t, sid, action, amount) == Raised(t, IndexError)
    ensures Betting(t.state) && t.current < |t.seats| && sid != t.seats[t.current].sid ==>
      Act(t, sid, action, amount) == Returned(t, Refused(NotYourTurn))
    ensures Betting(t.state) && t.current < |t.seats| && sid == t.seats[t.current].sid
            && (t.seats[t.current].folded || t.seats[t.current].allIn) ==>
      Act(t, sid, action, amount) == Returned(t, Refused(CannotAct))
  {
  }

  /** Conversely, an accepted action came from the seat to act, on a
      betting street, and that seat could act. */
  lemma AcceptedOnlyInTurn(t: Table, sid: string, action: Action, amount: Option<int>)
    requires Act(t, sid, action, amount) == Returned(Act(t, sid, action, amount).table, Accepted)
    ensures Betting(t.state) && t.current < |t.seats| && sid == t.seats[t.current].sid
    ensures !t.seats[t.current].folded && !t.seats[t.current].allIn
  {
  }

  /** A refused action changes nothing, whichever check refused it. */
  lemma RefusalChangesNothing(t: Table, action: Action, amount: Option<int>)
    requires t.current < |t.seats|
    ensures Apply(t, action, amount).1.Refused? ==> Apply(t, action, amount).0 == t
    ensures Perform(t, action, amount).1.Refused? ==> Perform(t, action, amount).0 == t
  {
  }

  // ------------------------------------------------------------ the actions

  /** A check is allowed exactly when there is nothing to match and, before
      the flop, the seat has at least the big blind in; it moves no chip. */
  lemma CheckAllowed(t: Table)
    requires t.current < |t.seats|
    ensures CheckStep(t).1 == Accepted <==>
      Gap(t) <= 0 && !(t.state == Preflop && t.seats[t.current].bet < BigBlind)
    ensures CheckStep(t).0 == t
  {
  }

  /** A raise is accepted exactly when an amount is given and is above both
      the bet and the bet plus the minimum raise, and within the seat's
      stack and bet together. */
  lemma RaiseLegal(t: Table, amount: Option<int>)
    requires t.current < |t.seats|
    ensures RaiseStep(t, amount).1 == Accepted <==>
      var s := t.seats[t.current];
      && amount.Some? && amount.value != 0
      && amount.value > t.currentBet
      && amount.value >= t.currentBet + t.minRaise
      && amount.value <= s.chips + s.bet
  {
  }

  /** An accepted raise makes the total the bet every seat must match: the
      seat's bet is the total, its stack is what it had less what it added
      and never negative, it is all-in exactly when that stack is empty,
      the new minimum raise is the raise over the old bet and so at least
      the old minimum, the seat is the aggressor and the round is open. */
  lemma RaiseEffect(t: Table, amount: Option<int>)
    requires t.current < |t.seats| && RaiseStep(t, amount).1 == Accepted
    ensures var u := RaiseStep(t, amount).0;
      var s := t.seats[t.current];
      var c := t.current;
      && |u.seats| == |t.seats|
      && u.currentBet == amount.value && u.currentBet > t.currentBet
      && u.seats[c].bet == u.currentBet
      && u.seats[c].chips == s.chips - (amount.value - s.bet) >= 0
      && (u.seats[c].allIn <==> s.allIn || u.seats[c].chips == 0)
      && u.minRaise == u.lastRaise == amount.value - t.currentBet >= t.minRaise
      && u.lastAggressor == Some(c) && !u.roundComplete
      && (forall j :: 0 <= j < |t.seats| && j != c ==> u.seats[j] == t.seats[j])
  {
  }

  /** A call is accepted exactly when there is something to match.  The
      seat then adds the gap, or its whole stack when that is smaller; it
      goes all-in only when the gap is more than its stack, and otherwise
      has matched the bet. */
  lemma CallEffect(t: Table)
    requires t.current < |t.seats|
    ensures CallStep(t).1 == Accepted <==> Gap(t) > 0
    ensures CallStep(t).1 == Accepted ==>
      var u := CallStep(t).0;
      var s := t.seats[t.current];
      var c := t.current;
      var pay := Min(Gap(t), s.chips);
      && |u.seats| == |t.seats|
      && u.seats[c].chips == s.chips - pay && u.seats[c].bet == s.bet + pay
      && (u.seats[c].allIn <==> s.allIn || Gap(t) > s.chips)
      && (Gap(t) <= s.chips ==> u.seats[c].bet == t.currentBet)
      && u.pot == t.pot + pay && u.currentBet == t.currentBet
      && (forall j :: 0 <= j < |t.seats| && j != c ==> u.seats[j] == t.seats[j])
  {
  }

  /** Going all-in is refused only with an empty stack.  The whole stack
      goes in; the bet to match becomes the larger of the old bet and the
      seat's, and the seat becomes the aggressor exactly when its bet is
      above the old bet. */
  lemma AllInEffect(t: Table)
    requires t.current < |t.seats|
    ensures AllInStep(t).1 == Accepted <==> t.seats[t.current].chips != 0
    ensures AllInStep(t).1 == Accepted ==>
      var u := AllInStep(t).0;
      var s := t.seats[t.current];
      var c := t.current;
      && |u.seats| == |t.seats|
      && u.seats[c].chips == 0 && u.seats[c].allIn && u.seats[c].bet == s.bet + s.chips
      && u.currentBet == (if s.bet + s.chips > t.currentBet then s.bet + s.chips else t.currentBet)
      && (u.lastAggressor == Some(c) <==> s.bet + s.chips > t.currentBet || t.lastAggressor == Some(c))
      && u.allInList == t.allInList + [s.sid]
      && (forall j :: 0 <= j < |t.seats| && j != c ==> u.seats[j] == t.seats[j])
  {
  }

  /** A fold marks the seat folded, records its sid and changes nothing
      else. */
  lemma FoldEffect(t: Table)
    requires t.current < |t.seats|
    ensures FoldStep(t).1 == Accepted
    ensures var u := FoldStep(t).0;
      && u.seats == t.seats[t.current := t.seats[t.current].(folded := true)]
      && u == t.(seats := u.seats, foldList := t.foldList + [t.seats[t.current].sid])
  {
  }

  // ------------------------------------------------------------ invariants

  /** No seat has more in than the bet to match. */
  predicate BetsCapped(seats: seq<Seat>, bet: int)
  {
    forall j :: 0 <= j < |seats| ==> seats[j].bet <= bet
  }

  /** No stack is negative. */
  predicate StacksCovered(seats: seq<Seat>)
  {
    forall j :: 0 <= j < |seats| ==> seats[j].chips >= 0
  }

  /** The chip movement of one seat: the stack and pot together stay, so
      the chips on the table stay. */
  lemma ActorMoves(t: Table, s: Seat, added: int)
    requires t.current < |t.seats|
    requires s.chips == t.seats[t.current].chips - added
    ensures Chips(WithActor(t, s).(pot := t.pot + added)) == Chips(t)
  {
    var u := WithActor(t, s);
    assert Stacks(u.seats) == Stacks(t.seats)[t.current := s.chips];
    SumUpdate(Stacks(t.seats), t.current, s.chips);
  }

  /** Every action moves chips only from the acting seat's stack into the
      pot: the stacks and the pot together stay the same. */
  lemma ApplyKeepsChips(t: Table, action: Action, amount: Option<int>)
    requires t.current < |t.seats|
    ensures Chips(Apply(t, action, amount).0) == Chips(t)
  {
    var s := t.seats[t.current];
    var u := Apply(t, action, amount).0;
    match action {
      case Fold =>
        assert Stacks(u.seats) == Stacks(t.seats);
      case CallBet =>
        if Gap(t) > 0 {
          var pay := if Gap(t) > s.chips then s.chips else Gap(t);
          ActorMoves(t, s.(chips := s.chips - pay, bet := s.bet + pay, allIn := s.allIn || Gap(t) > s.chips), pay);
        }
      case Raise =>
        if RaiseStep(t, amount).1 == Accepted {
          var total := amount.value;
          var left := s.chips - (total - s.bet);
          ActorMoves(t, s.(chips := left, bet := total, allIn := s.allIn || left == 0), total - s.bet);
        }
      case AllIn =>
        if s.chips != 0 {
          ActorMoves(t, s.(chips := 0, allIn := true, bet := s.bet + s.chips), s.chips);
        }
      case _ =>
    }
  }

  /** Passing the turn moves no chip. */
  lemma PassTurnKeepsChips(t: Table)
    ensures PassTurn(t).seats == t.seats && PassTurn(t).pot == t.pot
    ensures Chips(PassTurn(t)) == Chips(t)
  {
  }

  /** `_perform_action` keeps the chips on the table: any action, accepted
      or not, leaves the sum of the stacks and the pot unchanged. */
  lemma PerformKeepsChips(t: Table, action: Action, amount: Option<int>)
    requires t.current < |t.seats|
    ensures Chips(Perform(t, action, amount).0) == Chips(t)
  {
    ApplyKeepsChips(t, action, amount);
    PassTurnKeepsChips(Apply(t, action, amount).0);
  }

  /** Replacing one seat with one whose bet is within a bet to match no
      lower than before, and whose stack is not negative, keeps both
      invariants. */
  lemma ReplaceCapped(seats: seq<Seat>, i: nat, s: Seat, before: int, after: int)
    requires i < |seats| && BetsCapped(seats, before) && StacksCovered(seats)
    requires s.bet <= after && s.chips >= 0 && before <= after
    ensures BetsCapped(seats[i := s], after) && StacksCovered(seats[i := s])
  {
  }

  /** When no seat has more in than the bet to match and no stack is
      negative, an action keeps both so. */
  lemma ApplyKeepsBetsCapped(t: Table, action: Action, amount: Option<int>)
    requires t.current < |t.seats| && BetsCapped(t.seats, t.currentBet) && StacksCovered(t.seats)
    ensures var u := Apply(t, action, amount).0;
      BetsCapped(u.seats, u.currentBet) && StacksCovered(u.seats)
  {
    var s := t.seats[t.current];
    var c := t.current;
    var u := Apply(t, action, amount).0;
    match action {
      case CallBet =>
        if Gap(t) > 0 {
          var pay := if Gap(t) > s.chips then s.chips else Gap(t);
          var s' := s.(chips := s.chips - pay, bet := s.bet + pay, allIn := s.allIn || Gap(t) > s.chips);
          assert u.seats == t.seats[c := s'] && u.currentBet == t.currentBet;
          ReplaceCapped(t.seats, c, s', t.currentBet, t.currentBet);
        } else {
          assert u == t;
        }
      case Fold =>
        assert u.seats == t.seats[c := s.(folded := true)] && u.currentBet == t.currentBet;
        ReplaceCapped(t.seats, c, s.(folded := true), t.currentBet, t.currentBet);
      case Raise =>
        if RaiseStep(t, amount).1 == Accepted {
          var total := amount.value;
          var left := s.chips - (total - s.bet);
          var s' := s.(chips := left, bet := total, allIn := s.allIn || left == 0);
          assert u.seats == t.seats[c := s'] && u.currentBet == total;
          ReplaceCapped(t.seats, c, s', t.currentBet, total);
        } else {
          assert u == t;
        }
      case AllIn =>
        if s.chips != 0 {
          var bet := s.bet + s.chips;
          var s' := s.(chips := 0, allIn := true, bet := bet);
          var after := if bet > t.currentBet then bet else t.currentBet;
          assert u.seats == t.seats[c := s'] && u.currentBet == after;
          ReplaceCapped(t.seats, c, s', t.currentBet, after);
        } else {
          assert u == t;
        }
      case _ =>
        assert u == t;
    }
  }

  /** The same after the turn passes: `_perform_action` keeps every bet
      within the bet to match and every stack non-negative. */
  lemma PerformKeepsBetsCapped(t: Table, action: Action, amount: Option<int>)
    requires t.current < |t.seats| && BetsCapped(t.seats, t.currentBet) && StacksCovered(t.seats)
    ensures var u := Perform(t, action, amount).0;
      BetsCapped(u.seats, u.currentBet) && StacksCovered(u.seats)
  {
    ApplyKeepsBetsCapped(t, action, amount);
    PassTurnKeepsChips(Apply(t, action, amount).0);
  }

  // ------------------------------------------------------------ round end

  /** `check_round_complete` does nothing outside a betting street, and
      nothing while two or more seats are in and the betting round is
      open. */
  lemma RoundCheckWaits(t: Table)
    requires Idle(t.state) || (!t.roundComplete && CountTrue(InHand(t.seats)) != 1)
    ensures RoundCheck(t) == Returned(t, false)
  {
  }

  /** A single seat left in the hand on a betting street takes the pot and
      the round is complete, whatever the betting. */
  lemma RoundCheckLastSeat(t: Table)
    requires Betting(t.state) && CountTrue(InHand(t.seats)) == 1
    ensures RoundCheck(t).Returned? && RoundCheck(t).value
    ensures var u := RoundCheck(t).table;
      var w := FirstTrue(InHand(t.seats));
      && w < |t.seats|
      && u.state == RoundComplete && u.pot == t.pot
      && u.seats[w].chips == t.seats[w].chips + t.pot && u.seats[w].isWinner
      && Sum(Stacks(u.seats)) == Sum(Stacks(t.seats)) + t.pot
  {
    UncontestedPot(t.(state := Showdown));
  }

  /** A finished betting round on the river with two or more seats in goes
      to the pot award, and the round is complete. */
  lemma RoundCheckAfterRiver(t: Table)
    requires t.state == River && t.roundComplete && CountTrue(InHand(t.seats)) >= 2
    ensures RoundCheck(t).Returned? && RoundCheck(t).value
    ensures RoundCheck(t).table == Payout(t.(state := Showdown)).table
    ensures RoundCheck(t).table.state == RoundComplete
  {
    assert InHand(t.(state := Showdown).seats) == InHand(t.seats);
  }

  /** A finished betting round before the river with two or more seats in
      deals the next street. */
  lemma RoundCheckNextStreet(t: Table)
    requires (t.state == Preflop || t.state == Flop || t.state == Turn)
    requires t.roundComplete && CountTrue(InHand(t.seats)) >= 2
    ensures RoundCheck(t).table == NextStreet(t).table
    ensures RoundCheck(t).Returned? <==> NextStreet(t).Returned?
    ensures RoundCheck(t).Returned? ==>
      var u := RoundCheck(t).table;
      && RoundCheck(t).value
      && u.state == NextPhase(t.state) && u.state != t.state
      && u.currentBet == 0 && !u.roundComplete
  {
  }
}
