/** The live server's `PokerGame` as the object it is: the seat dict (a
    sequence of seat records in insertion order), the deck, the board, the
    pot and the betting fields, all updated in place by its methods.
    Each method is proved to move the object, read through `View()`,
    exactly as the matching function of ServerTable, ServerStreets,
    ServerShowdown, ServerLobby or ServerBetting says; what those functions
    mean is proved there.  A method that raises in the source returns
    `Fail`, and the fields keep what was done before the exception. */
module ServerGame {
  import opened ServerCards
  import opened Tally
  import opened Seating
  import opened ServerTable
  import opened ServerStreets
  import opened ServerShowdown
  import opened ServerLobby
  import opened ServerBetting
  import HandSearch
  import Shuffling

  /** How a method call ends, seen from inside the object. */
  datatype Outcome<T> = Ok(value: T) | Fail(error: Fault)

  /** The call as the specification functions describe it: the state the
      object is left in, with the value or the exception. */
  function Ended<T>(t: Table, r: Outcome<T>): Call<T>
  {
    if r.Ok? then Returned(t, r.value) else Raised(t, r.error)
  }

  /** One step of the walk of `next_player`: from the seat k places after
      `initial`, `(i + 1) % n` is the seat k + 1 places after it, which is
      not `initial` itself, and it can act exactly when it is the seat the
      search of `PassTurn` stops at. */
  lemma WalkStep(seats: seq<Seat>, initial: nat, k: nat, i: int)
    requires |seats| > 0
    requires var k0 := NextSeat(Eligible(seats), initial, 1); k < k0 < |seats|
    requires k == 0 ==> i == initial
    requires k > 0 ==> i == (initial + k) % |seats|
    ensures var n := |seats|; var j := (i + 1) % n;
      && j == (initial + k + 1) % n && j != initial
      && ((!seats[j].folded && !seats[j].allIn) <==> k + 1 == NextSeat(Eligible(seats), initial, 1))
  {
    var n := |seats|;
    if k > 0 {
      WrapAdd(initial + k, 1, n);
    }
    WrapNoReturn(initial, k + 1, n);
    assert Eligible(seats)[(i + 1) % n] == Around(Eligible(seats), initial, k + 1);
  }

  /** The walk of `next_player` once two or more seats can act: from seat
      `initial`, one seat at a time round the table to the first seat that
      can act, closing the betting round when that seat is the last aggressor
      and every bet is matched.  Returns the new turn index and the new
      round-complete flag. */
  method WalkToNextSeat(seats: seq<Seat>, initial: nat, lastAggressor: Option<nat>, currentBet: int,
                        roundComplete: bool) returns (at: nat, complete: bool)
    requires |seats| > 0 && CountTrue(Eligible(seats)) >= 2
    ensures var k := NextSeat(Eligible(seats), initial, 1); var n := |seats|;
      && k < n && at == (initial + k) % n
      && complete == (roundComplete || (lastAggressor == Some(at) && AllMatched(seats, currentBet)))
  {
    var n := |seats|;
    ghost var k0 := NextSeat(Eligible(seats), initial, 1);
    NextSeatBelow(seats, initial);
    at, complete := initial, roundComplete;
    ghost var k := 0;
    var stop := false;
    while !stop
      invariant 0 <= k <= k0
      invariant !stop ==> k < k0 && complete == roundComplete
      invariant !stop && k == 0 ==> at == initial
      invariant !stop && k > 0 ==> at == (initial + k) % n
      invariant stop ==> (at == (initial + k0) % n &&
        complete == (roundComplete || (lastAggressor == Some(at) && AllMatched(seats, currentBet))))
      decreases k0 - k
    {
      WalkStep(seats, initial, k, at);
      at := (at + 1) % n;
      k := k + 1;
      var p := seats[at];
      var canAct := !p.folded && !p.allIn;
      // the seat is the last aggressor with every bet matched, or the walk
      // is back where it started (a full turn)
      var closes := canAct && lastAggressor == Some(at) && AllMatched(seats, currentBet);
      var fullTurn := at == initial;
      if closes || (fullTurn && AllMatched(seats, currentBet)) {
        complete := true;
      }
      stop := closes || fullTurn || canAct;
    }
  }

  /** Two seats that can act put the first of them less than a full turn
      away. */
  lemma NextSeatBelow(seats: seq<Seat>, initial: nat)
    requires |seats| > 0 && CountTrue(Eligible(seats)) >= 2
    ensures NextSeat(Eligible(seats), initial, 1) < |seats|
  {
    PassTurnSearch(Table(seats, [], [], 0, 0, 0, initial, Waiting, 0, 0, None, false, [], [], 0));
  }

  // ------------------------------------------------------------ streets

  /** The loop `for player in self.players.values(): player["current_bet"]
      = 0` of `deal_next_street`. */
  method ClearBets(seats: seq<Seat>) returns (r: seq<Seat>)
    ensures r == NoBets(seats)
  {
    r := seats;
    for i := 0 to |seats|
      invariant |r| == |seats|
      invariant forall j :: 0 <= j < |seats| ==> r[j] == if j < i then seats[j].(bet := 0) else seats[j]
    {
      r := r[i := r[i].(bet := 0)];
    }
  }

  /** The burn and the pops of one street: each `pop(0)` takes the head of
      the deck, and every card drawn after the burn is turned up and put on
      the board.  A pop from an empty deck raises. */
  method DrawStreet(t: Table, count: nat) returns (r: Call<()>)
    ensures r == DealStreet(t, count)
  {
    var deck, community := t.deck, t.community;
    if deck == [] {
      return Raised(t, IndexError);
    }
    deck := deck[1..];
    for i := 0 to count
      invariant |t.deck| >= 1 + i
      invariant deck == t.deck[1 + i..]
      invariant community == t.community + Revealed(t.deck[1..1 + i])
    {
      if deck == [] {
        assert t.deck[1..1 + i] == t.deck[1..];
        return Raised(t.(deck := deck, community := community), IndexError);
      }
      assert t.deck[1..1 + i + 1] == t.deck[1..1 + i] + [deck[0]];
      community := community + [deck[0].(showing := true)];
      deck := deck[1..];
    }
    return Returned(t.(deck := deck, community := community), ());
  }

  /** The search at the end of `deal_next_street`: from the seat after the
      dealer, step past every seat that folded or is all-in, giving up once
      more than n seats have been skipped. */
  method SeatAfterDealer(seats: seq<Seat>, dealer: nat) returns (at: nat)
    requires |seats| > 0
    ensures var n := |seats|; var k := NextSeat(Eligible(seats), dealer, 1);
      at == if k <= n then (dealer + k) % n else (dealer + 2) % n
  {
    var n := |seats|;
    ghost var k := NextSeat(Eligible(seats), dealer, 1);
    at := (dealer + 1) % n;
    var skipped := 0;
    while seats[at].folded || seats[at].allIn
      invariant 0 <= skipped <= n && skipped + 1 <= k
      invariant at == (dealer + 1 + skipped) % n
      decreases n - skipped
    {
      assert !Eligible(seats)[at];
      WrapAdd(dealer + 1 + skipped, 1, n);
      at := (at + 1) % n;
      skipped := skipped + 1;
      if skipped > n {
        WrapTurn(dealer + 2, n);
        return;
      }
    }
    // a search that skipped n seats would be back at the first one
    WrapTurn(dealer + 1, n);
    assert Around(Eligible(seats), dealer, skipped + 1);
    assert Around(Eligible(seats), dealer, 1) || skipped < n;
  }

  // ---------------------------------------------------------- new round

  /** The reset loop of `start_new_round`, seat by seat. */
  method ResetSeats(seats: seq<Seat>) returns (r: seq<Seat>)
    ensures r == AllReset(seats)
  {
    r := seats;
    for i := 0 to |seats|
      invariant |r| == |seats|
      invariant forall j :: 0 <= j < |seats| ==> r[j] == if j < i then ResetSeat(seats[j]) else seats[j]
    {
      r := r[i := ResetSeat(r[i])];
    }
  }

  /** The loop `for player in self.players.values(): player["hand"] = []`
      of `deal_hole_cards`. */
  method ClearHands(seats: seq<Seat>) returns (r: seq<Seat>)
    ensures r == Cleared(seats)
  {
    r := seats;
    for i := 0 to |seats|
      invariant |r| == |seats|
      invariant forall j :: 0 <= j < |seats| ==> r[j] == if j < i then seats[j].(hand := []) else seats[j]
    {
      r := r[i := r[i].(hand := [])];
    }
  }

  /** One pass of the inner loop of `deal_hole_cards`, in seat order: each
      seat that has not folded pops the head of the deck, turns it up and
      adds it to its hand.  On an empty deck the pop raises (`ok` false) and
      the seats before it keep their new cards. */
  method DealRound(seats: seq<Seat>, deck: seq<Card>) returns (s: seq<Seat>, d: seq<Card>, ok: bool)
    ensures s == DealPass(seats, deck).0 && d == DealPass(seats, deck).1 && ok == DealPass(seats, deck).2
  {
    s, d := seats, deck;
    var i := 0;
    while i < |seats|
      invariant 0 <= i <= |seats| && |s| == |seats|
      invariant s[i..] == seats[i..]
      invariant var r := DealPass(seats[..i], deck); r.0 == s[..i] && r.1 == d && r.2
    {
      var x := seats[i];
      assert seats[..i + 1] == seats[..i] + [x];
      assert [x][1..] == [];
      DealPassConcat(seats[..i], [x], deck);
      if !x.folded {
        if d == [] {
          assert seats == seats[..i] + seats[i..];
          DealPassConcat(seats[..i], seats[i..], deck);
          assert s == s[..i] + seats[i..];
          return s, d, false;
        }
        var c := x.(hand := x.hand + [d[0].(showing := true)]);
        s := s[i := c];
        d := d[1..];
        assert s[..i + 1] == s[..i] + [c];
      } else {
        assert s[..i + 1] == s[..i] + [x];
      }
      i := i + 1;
    }
    assert s[..|seats|] == s && seats[..|seats|] == seats;
    ok := true;
  }

  /** `[p for p in self.players.values() if not p["folded"]]`: how many
      seats are still in, and the first of them. */
  method LiveSeats(seats: seq<Seat>) returns (count: nat, first: nat)
    ensures count == CountTrue(InHand(seats))
    ensures count > 0 ==> first == FirstTrue(InHand(seats))
  {
    ghost var live := InHand(seats);
    count, first := 0, 0;
    for i := 0 to |seats|
      invariant count == CountTrue(live[..i])
      invariant count > 0 ==> first < i && live[first]
      invariant forall j :: 0 <= j < i && (count == 0 || j < first) ==> !live[j]
    {
      assert live[..i + 1] == live[..i] + [live[i]];
      CountTrueAppend(live[..i], live[i]);
      if !seats[i].folded {
        if count == 0 {
          first := i;
        }
        count := count + 1;
      }
    }
    assert live[..|seats|] == live;
    if count > 0 {
      FirstTrueFound(live);
    }
  }

  /** The showdown's two loops over the seats still in: each hand is shown
      and scored with `evaluate_hand` against the board. */
  method ScoreSeats(seats: seq<Seat>, community: seq<Card>) returns (r: seq<Seat>)
    ensures r == Scored(seats, community)
  {
    r := seats;
    for i := 0 to |seats|
      invariant |r| == |seats|
      invariant forall j :: 0 <= j < i ==> r[j] == Scored(seats, community)[j]
      invariant forall j :: i <= j < |seats| ==> r[j] == seats[j]
    {
      if !seats[i].folded {
        var hand := Revealed(seats[i].hand);
        var score := HandSearch.EvaluateHand(hand, community);
        r := r[i := seats[i].(hand := hand, score := Some(score))];
      }
    }
  }

  /** `max(player["score"] for player in active_players)`: the first score,
      replaced by every later one above it; None for no score at all. */
  method BestLiveScore(seats: seq<Seat>) returns (best: Option<seq<int>>)
    ensures best == BestLive(seats)
  {
    best := None;
    for i := 0 to |seats|
      invariant best == BestLive(seats[..i])
    {
      assert seats[..i + 1][..i] == seats[..i];
      var s := seats[i];
      if !s.folded && s.score.Some? {
        if best.None? {
          best := s.score;
        } else if HandSearch.Below(best.value, s.score.value) {
          best := s.score;
        }
      }
    }
    assert seats[..|seats|] == seats;
  }

  /** `len(winners)`: the seats still in whose score is the best. */
  method CountWinners(seats: seq<Seat>, best: seq<int>) returns (count: nat)
    ensures count == CountTrue(WinnerFlags(seats, best))
  {
    ghost var f := WinnerFlags(seats, best);
    count := 0;
    for i := 0 to |seats|
      invariant count == CountTrue(f[..i])
    {
      assert f[..i + 1] == f[..i] + [f[i]];
      CountTrueAppend(f[..i], f[i]);
      if !seats[i].folded && seats[i].score == Some(best) {
        count := count + 1;
      }
    }
    assert f[..|seats|] == f;
  }

  /** The loop over the winners: each gains the share and is marked. */
  method PayWinners(seats: seq<Seat>, best: seq<int>, win: int) returns (r: seq<Seat>)
    ensures r == Award(seats, best, win)
  {
    r := seats;
    for i := 0 to |seats|
      invariant |r| == |seats|
      invariant forall j :: 0 <= j < i ==> r[j] == Award(seats, best, win)[j]
      invariant forall j :: i <= j < |seats| ==> r[j] == seats[j]
    {
      if !seats[i].folded && seats[i].score == Some(best) {
        r := r[i := seats[i].(chips := seats[i].chips + win, isWinner := true)];
      }
    }
  }

  /** The loop of `get_game_state` over the seats: each seat as the client
      `forSid` sees it. */
  method ViewSeats(seats: seq<Seat>, forSid: string, state: Phase) returns (views: seq<PlayerView>)
    ensures views == SeatViews(seats, forSid, state)
  {
    views := [];
    for i := 0 to |seats|
      invariant views == SeatViews(seats[..i], forSid, state)
    {
      assert seats[..i + 1][..i] == seats[..i];
      views := views + [SeatView(seats[i], forSid, state)];
    }
    assert seats[..|seats|] == seats;
  }

  class PokerGame {
    var seats: seq<Seat>
    var deck: seq<Card>
    var community: seq<Card>
    var pot: int
    var currentBet: int
    var dealer: nat
    var current: nat
    var state: Phase
    var lastRaise: int
    var minRaise: int
    var lastAggressor: Option<nat>
    var roundComplete: bool
    var foldList: seq<string>
    var allInList: seq<string>
    const maxPlayers: int

    /** The table the object holds. */
    function View(): Table
      reads this
    {
      Table(seats, deck, community, pot, currentBet, dealer, current, state, lastRaise, minRaise,
            lastAggressor, roundComplete, foldList, allInList, maxPlayers)
    }

    /** `__init__`: an empty waiting table.  The source's deck is None until
        the first round; here it is the empty deck. */
    constructor (maxPlayers: int)
      ensures View() == Table([], [], [], 0, 0, 0, 0, Waiting, 0, 0, None, false, [], [], maxPlayers)
    {
      this.maxPlayers := maxPlayers;
      seats, deck, community := [], [], [];
      pot, currentBet, dealer, current := 0, 0, 0, 0;
      state := Waiting;
      lastRaise, minRaise := 0, 0;
      lastAggressor := None;
      roundComplete := false;
      foldList, allInList := [], [];
    }

    /** Stores a table in the fields, one field per column. */
    method Load(u: Table)
      requires u.maxPlayers == maxPlayers
      modifies this
      ensures View() == u
    {
      LoadCards(u);
      LoadBetting(u);
      LoadTurn(u);
    }

    /** The seats, the deck, the board and the pot. */
    method LoadCards(u: Table)
      modifies this
      ensures seats == u.seats && deck == u.deck && community == u.community && pot == u.pot
      ensures currentBet == old(currentBet) && minRaise == old(minRaise) && lastRaise == old(lastRaise)
      ensures state == old(state) && dealer == old(dealer) && current == old(current)
      ensures lastAggressor == old(lastAggressor) && roundComplete == old(roundComplete)
      ensures foldList == old(foldList) && allInList == old(allInList)
    {
      seats, deck, community, pot := u.seats, u.deck, u.community, u.pot;
    }

    /** The bet to call, the raise sizes, the state and the action lists. */
    method LoadBetting(u: Table)
      modifies this
      ensures currentBet == u.currentBet && minRaise == u.minRaise && lastRaise == u.lastRaise
      ensures state == u.state && foldList == u.foldList && allInList == u.allInList
      ensures seats == old(seats) && deck == old(deck) && community == old(community) && pot == old(pot)
      ensures dealer == old(dealer) && current == old(current)
      ensures lastAggressor == old(lastAggressor) && roundComplete == old(roundComplete)
    {
      currentBet, minRaise, lastRaise, state := u.currentBet, u.minRaise, u.lastRaise, u.state;
      foldList, allInList := u.foldList, u.allInList;
    }

    /** The button, the turn, the last aggressor and the round flag. */
    method LoadTurn(u: Table)
      modifies this
      ensures dealer == u.dealer && current == u.current
      ensures lastAggressor == u.lastAggressor && roundComplete == u.roundComplete
      ensures seats == old(seats) && deck == old(deck) && community == old(community) && pot == old(pot)
      ensures currentBet == old(currentBet) && minRaise == old(minRaise) && lastRaise == old(lastRaise)
      ensures state == old(state) && foldList == old(foldList) && allInList == old(allInList)
    {
      dealer, current, lastAggressor, roundComplete := u.dealer, u.current, u.lastAggressor, u.roundComplete;
    }

    /** `next_player`: steps the turn index round the table, one seat at a
        time, to the next seat that can act. */
    method NextPlayer()
      modifies this
      ensures View() == PassTurn(old(View()))
    {
      if |seats| == 0 || CountTrue(Eligible(seats)) <= 1 {
        roundComplete := true;
        return;
      }
      PassTurnSearch(View());
      current, roundComplete := WalkToNextSeat(seats, current, lastAggressor, currentBet, roundComplete);
    }

    /** `deal_next_street`.  Outside a betting street nothing happens; the
        resets come first, then (before the river) the burn and the board
        cards, the next state and the search for the first seat after the
        dealer that can act. */
    method DealNextStreet() returns (r: Outcome<()>)
      modifies this
      ensures Ended(View(), r) == NextStreet(old(View()))
    {
      ghost var t := View();
      if Idle(state) {
        return Ok(());
      }
      var cleared := ClearBets(seats);
      var reset := View().(seats := cleared, currentBet := 0, minRaise := BigBlind, lastRaise := BigBlind,
                           roundComplete := false, lastAggressor := None);
      assert reset == StreetReset(t);
      if state == River {
        Load(reset);
        return Ok(());
      }
      var next := NextPhase(state);
      var dealt := DrawStreet(reset, StreetSize(state));
      if dealt.Raised? {
        Load(dealt.table);
        return Fail(dealt.error);
      }
      var at := current;
      if |cleared| > 0 {
        at := SeatAfterDealer(cleared, dealer);
      }
      Load(dealt.table.(state := next, current := at));
      return Ok(());
    }

    /** `post_blinds`: the small and then the big blind, each the smaller of
        the blind and the seat's stack, then the bet, the raise sizes, the
        first seat to act and the aggressor. */
    method PostBlinds() returns (r: Outcome<bool>)
      modifies this
      ensures Ended(View(), r) == Blinds(old(View()))
    {
      ghost var t := View();
      var n := |seats|;
      if n < 2 {
        return Ok(false);
      }
      var sb, bb;
      if n == 2 {
        sb, bb := dealer, (dealer + 1) % 2;
      } else {
        sb, bb := (dealer + 1) % n, (dealer + 2) % n;
      }
      if sb >= n {
        return Fail(IndexError);
      }
      var s, p := seats, pot;
      var sbAmount := Min(SmallBlind, s[sb].chips);
      s := s[sb := s[sb].(chips := s[sb].chips - sbAmount, bet := sbAmount)];
      p := p + sbAmount;
      ghost var paidSmall := PayBlind(t, sb, SmallBlind);
      assert paidSmall.seats == s && paidSmall.pot == p;
      var bbAmount := Min(BigBlind, s[bb].chips);
      s := s[bb := s[bb].(chips := s[bb].chips - bbAmount, bet := bbAmount)];
      p := p + bbAmount;
      ghost var paidBig := PayBlind(paidSmall, bb, BigBlind);
      assert paidBig.seats == s && paidBig.pot == p;
      var c := if n == 2 then sb else (bb + 1) % n;
      var u := View().(seats := s, pot := p, currentBet := bbAmount, minRaise := BigBlind,
                       lastRaise := BigBlind, current := c, lastAggressor := Some(bb));
      assert u == paidBig.(currentBet := bbAmount, minRaise := BigBlind, lastRaise := BigBlind,
                           current := c, lastAggressor := Some(bb));
      assert Blinds(t) == Returned(u, true);
      Load(u);
      return Ok(true);
    }

    /** `deal_hole_cards`: every hand emptied, then the two passes of
        `for _ in range(2)`, written out one after the other. */
    method DealHoleCards() returns (r: Outcome<()>)
      modifies this
      ensures Ended(View(), r) == DealHoles(old(View()))
    {
      seats := ClearHands(seats);
      var ok;
      seats, deck, ok := DealRound(seats, deck);
      if !ok {
        return Fail(IndexError);
      }
      seats, deck, ok := DealRound(seats, deck);
      if !ok {
        return Fail(IndexError);
      }
      return Ok(());
    }

    /** `start_new_round` with the shuffle's choices: fewer than two seats
        wait; otherwise a fresh shuffled deck and the resets, every seat
        reset, the dealer index repaired, the hole cards and the blinds. */
    method StartNewRound(choices: seq<nat>) returns (r: Outcome<bool>)
      modifies this
      ensures Ended(View(), r) == NewRound(old(View()), choices)
    {
      ghost var t := View();
      if |seats| < 2 {
        state := Waiting;
        return Ok(false);
      }
      var shuffled := Shuffling.Shuffle(StandardDeck(), choices);
      var reset := ResetSeats(seats);
      var d := if dealer >= |seats| then 0 else dealer;
      var reopened := View().(deck := shuffled, community := [], pot := 0, currentBet := 0,
                            lastRaise := BigBlind, minRaise := BigBlind, roundComplete := false,
                            lastAggressor := None, allInList := [], foldList := [], state := Preflop,
                            seats := reset, dealer := d);
      assert reopened == Reopened(t, choices);
      Load(reopened);
      var dealt := DealHoleCards();
      if dealt.Fail? {
        assert NewRound(t, choices) == Raised(View(), dealt.error);
        return Fail(dealt.error);
      }
      ghost var b := Blinds(View());
      assert NewRound(t, choices) == if b.Raised? then Raised(b.table, b.error) else Returned(b.table, true);
      var posted := PostBlinds();
      if posted.Fail? {
        return Fail(posted.error);
      }
      return Ok(true);
    }

    /** `handle_showdown` without the statistics and the timer: the state
        goes to the showdown, then the pot is awarded as `Payout` says. */
    method HandleShowdown() returns (r: Outcome<()>)
      modifies this
      ensures Ended(View(), r) == Payout(old(View()).(state := Showdown))
    {
      state := Showdown;
      ghost var t := View();
      var count, first := LiveSeats(seats);
      if count == 1 {
        var s := seats[first];
        Load(View().(seats := seats[first := s.(chips := s.chips + pot, isWinner := true, hand := Revealed(s.hand))],
                     state := RoundComplete));
        return Ok(());
      }
      var scored := ScoreSeats(seats, community);
      seats := scored;
      if count == 0 {
        assert Payout(t) == Raised(View(), ValueError);
        return Fail(ValueError);
      }
      ScoredHasBest(t.seats, t.community);
      var best := BestLiveScore(scored);
      SomeWinner(scored);
      var winners := CountWinners(scored, best.value);
      var paid := PayWinners(scored, best.value, pot / winners);
      seats, state := paid, RoundComplete;
      return Ok(());
    }
    /** `_perform_action`: the checks of the action against the table, its
        changes to the acting seat and the betting fields, and, when it is
        accepted, `next_player`. */
    method PerformAction(action: Action, amount: Option<int>) returns (v: Verdict)
      requires current < |seats|
      modifies this
      ensures var p := Perform(old(View()), action, amount); View() == p.0 && v == p.1
    {
      match action {
        case Check => v := CheckAction();
        case Fold => v := FoldAction();
        case CallBet => v := CallAction();
        case Raise => v := RaiseAction(amount);
        case AllIn => v := AllInAction();
        case Unknown => return Refused(InvalidAction);
      }
      if v.Refused? {
        return v;
      }
      NextPlayer();
    }

    /** The `check` branch. */
    method CheckAction() returns (v: Verdict)
      requires current < |seats|
      modifies {}
      ensures v == CheckStep(View()).1
    {
      var s := seats[current];
      if currentBet - s.bet > 0 {
        return Refused(BetToCall);
      }
      if state == Preflop && s.bet < BigBlind {
        return Refused(MustCallBigBlind);
      }
      return Accepted;
    }

    /** The `fold` branch. */
    method FoldAction() returns (v: Verdict)
      requires current < |seats|
      modifies this
      ensures var p := FoldStep(old(View())); View() == p.0 && v == p.1
    {
      var s := seats[current];
      seats := seats[current := s.(folded := true)];
      foldList := foldList + [s.sid];
      return Accepted;
    }

    /** The `call` branch: the gap, or the whole stack when the gap is more. */
    method CallAction() returns (v: Verdict)
      requires current < |seats|
      modifies this
      ensures var p := CallStep(old(View())); View() == p.0 && v == p.1
    {
      var s := seats[current];
      var gap := currentBet - s.bet;
      if gap <= 0 {
        return Refused(NothingToCall);
      }
      var pay, short := gap, false;
      if pay > s.chips {
        pay, short := s.chips, true;
        allInList := allInList + [s.sid];
      }
      seats := seats[current := s.(chips := s.chips - pay, bet := s.bet + pay, allIn := s.allIn || short)];
      pot := pot + pay;
      return Accepted;
    }

    /** The `raise` branch. */
    method RaiseAction(amount: Option<int>) returns (v: Verdict)
      requires current < |seats|
      modifies this
      ensures var p := RaiseStep(old(View()), amount); View() == p.0 && v == p.1
    {
      var s := seats[current];
      if amount.None? || amount.value == 0 {
        return Refused(NoRaiseAmount);
      }
      var total := amount.value;
      if total <= currentBet {
        return Refused(RaiseNotAboveBet);
      }
      if total < currentBet + minRaise {
        return Refused(RaiseBelowMinimum);
      }
      if total > s.chips + s.bet {
        return Refused(NotEnoughChips);
      }
      var left := s.chips - (total - s.bet);
      var joined := if left == 0 then allInList + [s.sid] else allInList;
      Load(View().(seats := seats[current := s.(chips := left, bet := total, allIn := s.allIn || left == 0)],
                   pot := pot + (total - s.bet), currentBet := total, lastRaise := total - currentBet,
                   minRaise := total - currentBet, lastAggressor := Some(current), roundComplete := false,
                   allInList := joined));
      return Accepted;
    }

    /** The `all_in` branch: the whole stack, a raise when it lifts the bet. */
    method AllInAction() returns (v: Verdict)
      requires current < |seats|
      modifies this
      ensures var p := AllInStep(old(View())); View() == p.0 && v == p.1
    {
      var s := seats[current];
      if s.chips == 0 {
        return Refused(NoChips);
      }
      var bet := s.bet + s.chips;
      seats := seats[current := s.(chips := 0, allIn := true, bet := bet)];
      allInList := allInList + [s.sid];
      pot := pot + s.chips;
      if bet > currentBet {
        lastRaise, currentBet, minRaise := bet - currentBet, bet, bet - currentBet;
        lastAggressor, roundComplete := Some(current), false;
      }
      return Accepted;
    }

    /** `check_round_complete`: outside a betting street nothing happens; a
        single seat left in, or a finished river, goes to the showdown; any
        other finished betting round deals the next street. */
    method CheckRoundComplete() returns (r: Outcome<bool>)
      modifies this
      ensures Ended(View(), r) == RoundCheck(old(View()))
    {
      if Idle(state) {
        return Ok(false);
      }
      var live, _ := LiveSeats(seats);
      if live == 1 || (roundComplete && state == River) {
        state := Showdown;
        var shown := HandleShowdown();
        if shown.Fail? {
          return Fail(shown.error);
        }
        return Ok(true);
      }
      if roundComplete {
        var dealt := DealNextStreet();
        if dealt.Fail? {
          return Fail(dealt.error);
        }
        return Ok(true);
      }
      return Ok(false);
    }

    /** `handle_player_action`: the action is refused outside a betting
        street, out of turn, or for a seat that cannot act; otherwise it is
        performed and, when accepted, the round is checked for its end. */
    method HandlePlayerAction(sid: string, action: Action, amount: Option<int>) returns (r: Outcome<Verdict>)
      modifies this
      ensures Ended(View(), r) == Act(old(View()), sid, action, amount)
    {
      if state == RoundComplete {
        return Ok(Refused(RoundOver));
      }
      if state == Waiting || state == Showdown {
        return Ok(Refused(NotInProgress));
      }
      if current >= |seats| {
        return Fail(IndexError);
      }
      if sid != seats[current].sid {
        return Ok(Refused(NotYourTurn));
      }
      if seats[current].folded || seats[current].allIn {
        return Ok(Refused(CannotAct));
      }
      var v := PerformAction(action, amount);
      if v.Refused? {
        return Ok(v);
      }
      var checked := CheckRoundComplete();
      if checked.Fail? {
        return Fail(checked.error);
      }
      return Ok(Accepted);
    }

    /** `add_player`: refused at a full table; otherwise the sid's record
        is set to a fresh one, in its place when the sid is a key already
        and at the end when it is not. */
    method AddPlayer(sid: string, name: string) returns (added: bool)
      modifies this
      ensures var p := ServerLobby.AddPlayer(old(View()), sid, name); View() == p.0 && added == p.1
    {
      if |seats| >= maxPlayers {
        return false;
      }
      var i := IndexOf(seats, sid);
      if i < |seats| {
        seats := seats[i := NewSeat(sid, name)];
      } else {
        seats := seats + [NewSeat(sid, name)];
      }
      return true;
    }

    /** `remove_player`: an unknown sid changes nothing; otherwise the
        record is deleted and, during a round with seats left, the indices
        are repaired and a last seat takes the pot. */
    method RemovePlayer(sid: string)
      modifies this
      ensures View() == ServerLobby.RemovePlayer(old(View()), sid)
    {
      var i := IndexOf(seats, sid);
      if i == |seats| {
        return;
      }
      var rest := Without(seats, i);
      if state == Waiting || |rest| == 0 {
        seats := rest;
        return;
      }
      var d := if dealer >= |rest| then 0 else dealer;
      var c := if current >= |rest| then 0 else current;
      if |rest| == 1 {
        Load(View().(seats := [rest[0].(chips := rest[0].chips + pot, isWinner := true)], dealer := d,
                     current := c, state := Showdown));
      } else {
        seats, dealer, current := rest, d, c;
      }
    }

    /** `get_game_state(for_player_sid)`: reads the table and changes
        nothing. */
    method GetGameState(forSid: string) returns (r: Outcome<TableView>)
      ensures Ended(View(), r) == GameState(View(), forSid)
    {
      if state != Waiting && current >= |seats| {
        return Fail(IndexError);
      }
      var players := ViewSeats(seats, forSid, state);
      var currentPlayer := if state == Waiting then None else Some(seats[current].sid);
      return Ok(TableView(pot, Dicts(community), currentBet, state, currentPlayer, maxPlayers, BigBlind,
                          lastRaise, minRaise, players));
    }
  }
}
