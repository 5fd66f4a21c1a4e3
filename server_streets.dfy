/** The street and blind machine of the live server: `deal_next_street`,
    `post_blinds`, `deal_hole_cards` and `start_new_round` of server.py, as
    functions on ServerTable's `Table`, with what they mean proved as
    lemmas. */
module ServerStreets {
  import opened ServerCards
  import opened Tally
  import opened Seating
  import opened ServerTable
  import Shuffling

  /** The states in which `deal_next_street` and `check_round_complete`
      do nothing. */
  predicate Idle(p: Phase)
  {
    p == Showdown || p == RoundComplete || p == Waiting
  }

  function NextPhase(p: Phase): Phase
  {
    match p
    case Preflop => Flop
    case Flop => Turn
    case Turn => River
    case _ => p
  }

  /** The number of cards a street turns up after its burn. */
  function StreetSize(p: Phase): nat
  {
    if p == Preflop then 3 else 1
  }

  function Min(a: int, b: int): int
  {
    if a <= b then a else b
  }

  // ------------------------------------------------------------ streets

  /** The resets at the head of `deal_next_street`: no bet to match, the
      minimum and last raise back to the big blind, no aggressor, the
      betting round open, every contribution back to 0. */
  function StreetReset(t: Table): Table
  {
    t.(currentBet := 0, minRaise := BigBlind, lastRaise := BigBlind, roundComplete := false,
       lastAggressor := None, seats := NoBets(t.seats))
  }

  /** Every contribution back to 0. */
  function NoBets(seats: seq<Seat>): (r: seq<Seat>)
    ensures |r| == |seats| && forall j :: 0 <= j < |seats| ==> r[j] == seats[j].(bet := 0)
  {
    seq(|seats|, j requires 0 <= j < |seats| => seats[j].(bet := 0))
  }

  /** The pops of one street: a burn, then `count` cards onto the board,
      each shown.  A deck that runs out raises at the pop that finds it
      empty; the cards drawn before it stay where they went. */
  function DealStreet(t: Table, count: nat): Call<()>
  {
    if |t.deck| == 0 then Raised(t, IndexError)
    else if |t.deck| < 1 + count then
      Raised(t.(deck := [], community := t.community + Revealed(t.deck[1..])), IndexError)
    else Returned(t.(deck := t.deck[1 + count..], community := t.community + Revealed(t.deck[1..1 + count])), ())
  }

  /** The seat search at the end of `deal_next_street`: from the seat after
      the dealer, the first seat that can act.  When no seat can, the
      search gives up after n + 1 steps, two seats after the dealer. */
  function FirstToAct(t: Table): Table
  {
    var n := |t.seats|;
    if n == 0 then t
    else
      var k := NextSeat(Eligible(t.seats), t.dealer, 1);
      t.(current := if k <= n then (t.dealer + k) % n else (t.dealer + 2) % n)
  }

  /** `deal_next_street`. */
  function NextStreet(t: Table): Call<()>
  {
    if Idle(t.state) then Returned(t, ())
    else
      var r := StreetReset(t);
      if t.state == River then Returned(r, ())
      else
        match DealStreet(r, StreetSize(t.state))
        case Raised(u, e) => Raised(u, e)
        case Returned(u, _) => Returned(FirstToAct(u.(state := NextPhase(t.state))), ())
  }

  /** Outside a hand, and at the showdown, no street is dealt. */
  lemma IdleStreetChangesNothing(t: Table)
    requires Idle(t.state)
    ensures NextStreet(t) == Returned(t, ())
  {
  }

  /** On the river only the betting resets happen: no card is dealt and the
      state stays at the river. */
  lemma RiverStreetOnlyResets(t: Table)
    requires t.state == River
    ensures NextStreet(t).Returned?
    ensures var u := NextStreet(t).table;
      && u.deck == t.deck && u.community == t.community && u.state == River
      && u.currentBet == 0 && u.minRaise == BigBlind && Chips(u) == Chips(t)
  {
    StreetResetKeepsChips(t);
  }

  /** The resets move no chip: stacks and pot stay, only the bets go. */
  lemma StreetResetKeepsChips(t: Table)
    ensures Stacks(StreetReset(t).seats) == Stacks(t.seats)
    ensures Chips(StreetReset(t)) == Chips(t)
  {
    assert Stacks(StreetReset(t).seats) == Stacks(t.seats);
  }

  /** Where the new street's first seat comes from: the first seat after the
      dealer that can act, every seat before it unable to; or, when no seat
      can act, the seat two after the dealer. */
  lemma FirstToActFinds(t: Table)
    requires t.dealer < |t.seats|
    ensures var u := FirstToAct(t);
      var n := |t.seats|;
      var flags := Eligible(t.seats);
      && u == t.(current := u.current) && u.current < n
      && (CountTrue(flags) > 0 ==>
            && !t.seats[u.current].folded && !t.seats[u.current].allIn
            && NextInHand(flags, t.dealer, SeatsBetween(t.dealer, u.current, n)))
      && (CountTrue(flags) == 0 ==> u.current == (t.dealer + 2) % n)
  {
    var n := |t.seats|;
    var flags := Eligible(t.seats);
    var k := NextSeat(flags, t.dealer, 1);
    if CountTrue(flags) > 0 {
      CountTrueZero(flags);
      var j :| 0 <= j < n && flags[j];
      var b := SeatsBetween(t.dealer, j, n);
      assert Around(flags, t.dealer, b);
      assert k <= b;
      SeatsBetweenStep(t.dealer, k, n);
    } else {
      CountTrueZero(flags);
      NextSeatNone(flags, t.dealer, 1);
    }
  }

  /** From preflop, the flop, or the turn, with the cards in the deck: one
      card is burnt and the next 3 (from preflop) or 1 go face up onto the
      board, so the deck shrinks by 4 or 2; the state steps on; no bet is
      open, the minimum raise is the big blind, there is no aggressor and
      every contribution is 0; stacks, pot, hands and flags are kept; and
      the turn goes to the first seat after the dealer that can act. */
  lemma StreetDeals(t: Table)
    requires t.state == Preflop || t.state == Flop || t.state == Turn
    requires |t.deck| >= 1 + StreetSize(t.state) && t.dealer < |t.seats|
    ensures NextStreet(t).Returned?
    ensures
      var u := NextStreet(t).table;
      var c := StreetSize(t.state);
      && u.deck == t.deck[1 + c..] && |u.deck| == |t.deck| - 1 - c
      && u.community == t.community + Revealed(t.deck[1..1 + c])
      && u.state == NextPhase(t.state) && u.state != t.state
      && u.currentBet == 0 && u.minRaise == BigBlind && u.lastRaise == BigBlind
      && u.lastAggressor == None && !u.roundComplete
      && |u.seats| == |t.seats|
      && (forall j :: 0 <= j < |t.seats| ==> u.seats[j] == t.seats[j].(bet := 0))
      && Chips(u) == Chips(t)
      && u.pot == t.pot && u.dealer == t.dealer && u.foldList == t.foldList
      && (CountTrue(Eligible(t.seats)) > 0 ==>
            && u.current < |t.seats| && !t.seats[u.current].folded && !t.seats[u.current].allIn
            && NextInHand(Eligible(t.seats), t.dealer, SeatsBetween(t.dealer, u.current, |t.seats|)))
  {
    var r := StreetReset(t);
    StreetResetKeepsChips(t);
    assert Eligible(r.seats) == Eligible(t.seats);
    var d := DealStreet(r, StreetSize(t.state)).table.(state := NextPhase(t.state));
    FirstToActFinds(d);
  }

  /** A deck too short for the street raises. */
  lemma StreetRunsOut(t: Table)
    requires t.state == Preflop || t.state == Flop || t.state == Turn
    requires |t.deck| < 1 + StreetSize(t.state)
    ensures NextStreet(t) == Raised(NextStreet(t).table, IndexError)
    ensures NextStreet(t).table.deck == [] && NextStreet(t).table.state == t.state
  {
  }

  // ------------------------------------------------------------- blinds

  /** One blind of `post_blinds`: the seat pays what it can of the amount,
      which becomes its contribution, into the pot. */
  function PayBlind(t: Table, i: nat, amount: int): Table
    requires i < |t.seats|
  {
    var paid := Min(amount, t.seats[i].chips);
    t.(seats := t.seats[i := t.seats[i].(chips := t.seats[i].chips - paid, bet := paid)],
       pot := t.pot + paid)
  }

  /** The small- and big-blind positions: heads-up the dealer posts the
      small blind and the other seat the big; otherwise the two seats after
      the dealer post them. */
  function SmallBlindSeat(n: nat, dealer: nat): nat
    requires n > 0
  {
    if n == 2 then dealer else (dealer + 1) % n
  }

  function BigBlindSeat(n: nat, dealer: nat): nat
    requires n > 0
  {
    if n == 2 then (dealer + 1) % 2 else (dealer + 2) % n
  }

  /** `post_blinds`.  Heads-up, a dealer index past the second seat fails
      at the small-blind lookup, before anything changes. */
  function Blinds(t: Table): Call<bool>
  {
    var n := |t.seats|;
    if n < 2 then Returned(t, false)
    else
      var sb := SmallBlindSeat(n, t.dealer);
      var bb := BigBlindSeat(n, t.dealer);
      if sb >= n then Raised(t, IndexError)
      else
        var s := PayBlind(t, sb, SmallBlind);
        var bbPaid := Min(BigBlind, s.seats[bb].chips);
        var b := PayBlind(s, bb, BigBlind);
        Returned(b.(currentBet := bbPaid, minRaise := BigBlind, lastRaise := BigBlind,
                    current := if n == 2 then sb else (bb + 1) % n, lastAggressor := Some(bb)), true)
  }

  /** A blind moves what the seat can pay from its stack into the pot. */
  lemma PayBlindMoves(t: Table, i: nat, amount: int)
    requires i < |t.seats|
    ensures var u := PayBlind(t, i, amount);
      var paid := Min(amount, t.seats[i].chips);
      && |u.seats| == |t.seats|
      && u.seats[i] == t.seats[i].(chips := t.seats[i].chips - paid, bet := paid)
      && (forall j :: 0 <= j < |t.seats| && j != i ==> u.seats[j] == t.seats[j])
      && u.pot == t.pot + paid
      && Chips(u) == Chips(t)
  {
    var paid := Min(amount, t.seats[i].chips);
    var u := PayBlind(t, i, amount);
    assert Stacks(u.seats) == Stacks(t.seats)[i := t.seats[i].chips - paid];
    SumUpdate(Stacks(t.seats), i, t.seats[i].chips - paid);
  }

  /** The blind seats are two different seats of the table. */
  lemma BlindSeatsDiffer(n: nat, dealer: nat)
    requires n >= 2 && dealer < n
    ensures SmallBlindSeat(n, dealer) < n && BigBlindSeat(n, dealer) < n
    ensures SmallBlindSeat(n, dealer) != BigBlindSeat(n, dealer)
  {
    if n > 2 {
      var sb := (dealer + 1) % n;
      WrapAdd(dealer + 1, 1, n);
      WrapNoReturn(sb, 1, n);
    }
  }

  /** With two or more seats and the dealer at one of them, both blinds are
      posted: each blind seat pays the smaller of its blind and its stack
      into the pot, which becomes its contribution; no other seat changes
      and no chip is made or lost.  The bet to match is what the big blind
      paid, the minimum raise is the big blind, the big blind is the last
      aggressor, and the first to act is the small blind heads-up and the
      seat after the big blind otherwise.  Fewer than two seats post
      nothing. */
  lemma BlindsPosted(t: Table)
    ensures |t.seats| < 2 ==> Blinds(t) == Returned(t, false)
    ensures |t.seats| >= 2 && t.dealer < |t.seats| ==>
      var n := |t.seats|;
      var sb := SmallBlindSeat(n, t.dealer);
      var bb := BigBlindSeat(n, t.dealer);
      var sbPaid := Min(SmallBlind, t.seats[sb].chips);
      var bbPaid := Min(BigBlind, t.seats[bb].chips);
      && Blinds(t).Returned? && Blinds(t).value
      && var u := Blinds(t).table;
      && sb < n && bb < n && sb != bb
      && |u.seats| == n
      && u.seats[sb] == t.seats[sb].(chips := t.seats[sb].chips - sbPaid, bet := sbPaid)
      && u.seats[bb] == t.seats[bb].(chips := t.seats[bb].chips - bbPaid, bet := bbPaid)
      && (forall j :: 0 <= j < n && j != sb && j != bb ==> u.seats[j] == t.seats[j])
      && u.pot == t.pot + sbPaid + bbPaid && Chips(u) == Chips(t)
      && u.currentBet == bbPaid && u.minRaise == BigBlind && u.lastRaise == BigBlind
      && u.lastAggressor == Some(bb)
      && u.current == (if n == 2 then sb else (bb + 1) % n)
      && u == t.(seats := u.seats, pot := u.pot, currentBet := bbPaid, minRaise := BigBlind,
                 lastRaise := BigBlind, current := u.current, lastAggressor := Some(bb))
  {
    var n := |t.seats|;
    if n >= 2 && t.dealer < n {
      var sb := SmallBlindSeat(n, t.dealer);
      var bb := BigBlindSeat(n, t.dealer);
      BlindSeatsDiffer(n, t.dealer);
      var s := PayBlind(t, sb, SmallBlind);
      PayBlindMoves(t, sb, SmallBlind);
      PayBlindMoves(s, bb, BigBlind);
    }
  }

  /** Heads-up with the dealer index past the second seat, the small-blind
      lookup raises before anything changes. */
  lemma HeadsUpDealerOutOfRange(t: Table)
    requires |t.seats| == 2 && t.dealer >= 2
    ensures Blinds(t) == Raised(t, IndexError)
  {
  }

  // --------------------------------------------------------- hole cards

  /** One pass of `deal_hole_cards` over the seats in order: every seat
      that has not folded gets the head of the deck, shown.  When the deck
      is empty at a seat owed a card the pass stops there, raising (the
      third component is false). */
  function DealPass(seats: seq<Seat>, deck: seq<Card>): (r: (seq<Seat>, seq<Card>, bool))
    ensures |r.0| == |seats|
    decreases |seats|
  {
    if seats == [] then ([], deck, true)
    else if seats[0].folded then
      var (rest, d, ok) := DealPass(seats[1..], deck);
      ([seats[0]] + rest, d, ok)
    else if deck == [] then (seats, [], false)
    else
      var (rest, d, ok) := DealPass(seats[1..], deck[1..]);
      ([seats[0].(hand := seats[0].hand + [deck[0].(showing := true)])] + rest, d, ok)
  }

  /** Every hand emptied. */
  function Cleared(seats: seq<Seat>): (r: seq<Seat>)
    ensures |r| == |seats| && forall j :: 0 <= j < |seats| ==> r[j] == seats[j].(hand := [])
  {
    seq(|seats|, j requires 0 <= j < |seats| => seats[j].(hand := []))
  }

  /** `deal_hole_cards`: every hand is emptied, then two passes. */
  function DealHoles(t: Table): Call<()>
  {
    var cleared := Cleared(t.seats);
    var (s1, d1, ok1) := DealPass(cleared, t.deck);
    if !ok1 then Raised(t.(seats := s1, deck := d1), IndexError)
    else
      var (s2, d2, ok2) := DealPass(s1, d1);
      if !ok2 then Raised(t.(seats := s2, deck := d2), IndexError)
      else Returned(t.(seats := s2, deck := d2), ())
  }

  /** With nobody folded, a pass gives seat j the card at position j of the
      deck and leaves the rest of the deck after the first n cards; it
      fails exactly when the deck holds fewer cards than there are seats. */
  lemma {:induction false} DealPassToAll(seats: seq<Seat>, deck: seq<Card>)
    requires forall j :: 0 <= j < |seats| ==> !seats[j].folded
    ensures DealPass(seats, deck).2 <==> |deck| >= |seats|
    ensures |deck| >= |seats| ==>
      && DealPass(seats, deck).1 == deck[|seats|..]
      && forall j :: 0 <= j < |seats| ==>
           DealPass(seats, deck).0[j] == seats[j].(hand := seats[j].hand + [deck[j].(showing := true)])
    decreases |seats|
  {
    if seats != [] && deck != [] {
      DealPassToAll(seats[1..], deck[1..]);
      var rest := DealPass(seats[1..], deck[1..]).0;
      assert DealPass(seats, deck).0 == [seats[0].(hand := seats[0].hand + [deck[0].(showing := true)])] + rest;
      if |deck| >= |seats| {
        assert deck[1..][|seats| - 1..] == deck[|seats|..];
        forall j | 1 <= j < |seats|
          ensures DealPass(seats, deck).0[j] == seats[j].(hand := seats[j].hand + [deck[j].(showing := true)])
        {
          assert rest[j - 1] == seats[1..][j - 1].(hand := seats[1..][j - 1].hand + [deck[1..][j - 1].(showing := true)]);
        }
      }
    }
  }

  /** A pass over two runs of seats is a pass over the first and then,
      unless it ran out of cards, a pass over the second with what is left
      of the deck; a pass that ran out leaves the second run untouched. */
  lemma {:induction false} DealPassConcat(a: seq<Seat>, b: seq<Seat>, deck: seq<Card>)
    ensures var ra := DealPass(a, deck);
      var rb := DealPass(b, ra.1);
      var r := DealPass(a + b, deck);
      && (ra.2 ==> r.0 == ra.0 + rb.0 && r.1 == rb.1 && r.2 == rb.2)
      && (!ra.2 ==> r.0 == ra.0 + b && r.1 == ra.1 && !r.2)
    decreases |a|
  {
    if a == [] {
      assert a + b == b;
    } else {
      assert (a + b)[0] == a[0] && (a + b)[1..] == a[1..] + b;
      if a[0].folded {
        DealPassConcat(a[1..], b, deck);
      } else if deck != [] {
        DealPassConcat(a[1..], b, deck[1..]);
      }
    }
  }

  /** A pass keeps every field of a seat but its hand. */
  lemma {:induction false} DealPassKeepsSeats(seats: seq<Seat>, deck: seq<Card>)
    ensures forall j :: 0 <= j < |seats| ==>
      DealPass(seats, deck).0[j] == seats[j].(hand := DealPass(seats, deck).0[j].hand)
    decreases |seats|
  {
    if seats != [] {
      if seats[0].folded {
        DealPassKeepsSeats(seats[1..], deck);
      } else if deck != [] {
        DealPassKeepsSeats(seats[1..], deck[1..]);
      }
    }
  }

  /** With nobody folded and at least 2n cards, every seat gets two cards:
      seat j the cards at positions j and n + j of the deck, shown, and
      the deck keeps what follows the first 2n. */
  lemma DealHolesToAll(t: Table)
    requires forall j :: 0 <= j < |t.seats| ==> !t.seats[j].folded
    requires |t.deck| >= 2 * |t.seats|
    ensures DealHoles(t).Returned?
    ensures var u := DealHoles(t).table;
      var n := |t.seats|;
      && u == t.(seats := u.seats, deck := t.deck[2 * n..])
      && |u.seats| == n
      && forall j :: 0 <= j < n ==>
           u.seats[j] == t.seats[j].(hand := [t.deck[j].(showing := true), t.deck[n + j].(showing := true)])
  {
    var n := |t.seats|;
    var cleared := Cleared(t.seats);
    DealPassToAll(cleared, t.deck);
    var r1 := DealPass(cleared, t.deck);
    var s1, d1 := r1.0, r1.1;
    assert r1.2 && d1 == t.deck[n..];
    DealPassToAll(s1, d1);
    var r2 := DealPass(s1, d1);
    assert r2.2 && r2.1 == t.deck[2 * n..];
    assert DealHoles(t) == Returned(t.(seats := r2.0, deck := r2.1), ());
    forall j | 0 <= j < n
      ensures r2.0[j] == t.seats[j].(hand := [t.deck[j].(showing := true), t.deck[n + j].(showing := true)])
    {
      assert d1[j] == t.deck[n + j];
    }
  }

  /** With nobody folded and fewer than 2n cards, the deal raises. */
  lemma DealHolesRunsOut(t: Table)
    requires forall j :: 0 <= j < |t.seats| ==> !t.seats[j].folded
    requires |t.deck| < 2 * |t.seats|
    ensures DealHoles(t).Raised? && DealHoles(t).error == IndexError
  {
    var n := |t.seats|;
    var cleared := Cleared(t.seats);
    DealPassToAll(cleared, t.deck);
    var r1 := DealPass(cleared, t.deck);
    if r1.2 {
      DealPassKeepsSeats(cleared, t.deck);
      assert r1.1 == t.deck[n..];
      DealPassToAll(r1.0, r1.1);
      assert !DealPass(r1.0, r1.1).2;
    }
  }

  // ---------------------------------------------------------- new round

  /** The resets of `start_new_round` for one seat. */
  function ResetSeat(s: Seat): Seat
  {
    s.(hand := [], bet := 0, folded := false, allIn := false, isWinner := false, score := None)
  }

  /** Every seat reset. */
  function AllReset(seats: seq<Seat>): (r: seq<Seat>)
    ensures |r| == |seats| && forall j :: 0 <= j < |seats| ==> r[j] == ResetSeat(seats[j])
  {
    seq(|seats|, j requires 0 <= j < |seats| => ResetSeat(seats[j]))
  }

  /** The resets of `start_new_round`: a new shuffled deck (the choices
      stand for `random.shuffle`), an empty board and pot, the raise
      sizes at the big blind, no aggressor, empty fold and all-in lists,
      every seat reset, and the dealer index back to 0 if it is past the
      last seat.  The dealer is not rotated. */
  function Reopened(t: Table, choices: seq<nat>): Table
  {
    t.(deck := Shuffling.Shuffled(StandardDeck(), choices), community := [], pot := 0,
       currentBet := 0, lastRaise := BigBlind, minRaise := BigBlind, roundComplete := false,
       lastAggressor := None, allInList := [], foldList := [], state := Preflop,
       seats := AllReset(t.seats),
       dealer := if t.dealer >= |t.seats| then 0 else t.dealer)
  }

  /** `start_new_round`: with fewer than two seats the table waits and the
      answer is False; otherwise the resets, the hole cards, the blinds,
      and the answer True. */
  function NewRound(t: Table, choices: seq<nat>): Call<bool>
  {
    if |t.seats| < 2 then Returned(t.(state := Waiting), false)
    else
      match DealHoles(Reopened(t, choices))
      case Raised(u, e) => Raised(u, e)
      case Returned(u, _) =>
        match Blinds(u)
        case Raised(b, e) => Raised(b, e)
        case Returned(b, _) => Returned(b, true)
  }

  /** The deck of a new round: 52 distinct cards, all showing. */
  lemma FreshDeck(choices: seq<nat>)
    ensures var d := Shuffling.Shuffled(StandardDeck(), choices);
      && |d| == 52 && Shuffling.Distinct(d)
      && forall k :: 0 <= k < 52 ==> d[k].(showing := true) == d[k]
  {
    ShuffledDeckIsComplete(choices);
  }

  /** The deal of a new round, before the blinds: every seat is reset and
      holds the cards at positions j and n + j of the fresh deck, which
      keeps its cards past the first 2n; no seat has bet and the dealer is
      a seat. */
  lemma NewRoundDeal(t: Table, choices: seq<nat>)
    requires 2 <= |t.seats| <= 26
    ensures DealHoles(Reopened(t, choices)).Returned?
    ensures var u := DealHoles(Reopened(t, choices)).table;
      var d := Shuffling.Shuffled(StandardDeck(), choices);
      var n := |t.seats|;
      && u == Reopened(t, choices).(seats := u.seats, deck := d[2 * n..])
      && |u.seats| == n && u.dealer < n
      && (forall j :: 0 <= j < n ==> u.seats[j] == ResetSeat(t.seats[j]).(hand := [d[j], d[n + j]]))
      && (forall j :: 0 <= j < n ==> u.seats[j].bet == 0 && u.seats[j].hand == [d[j], d[n + j]])
  {
    var r := Reopened(t, choices);
    FreshDeck(choices);
    DealHolesToAll(r);
    var u := DealHoles(r).table;
    var d := Shuffling.Shuffled(StandardDeck(), choices);
    forall j | 0 <= j < |t.seats|
      ensures u.seats[j].bet == 0 && u.seats[j].hand == [d[j], d[|t.seats| + j]]
    {
      assert u.seats[j] == ResetSeat(t.seats[j]).(hand := [d[j], d[|t.seats| + j]]);
    }
  }

  /** Blinds on a table where nobody has bet yet: both are posted, every
      seat keeps its stack plus contribution, and nothing but the seats,
      the pot and the betting fields changes. */
  lemma BlindsFromNoBets(t: Table)
    requires |t.seats| >= 2 && t.dealer < |t.seats|
    requires forall j :: 0 <= j < |t.seats| ==> t.seats[j].bet == 0
    ensures Blinds(t).Returned?
    ensures var u := Blinds(t).table;
      && |u.seats| == |t.seats| && Chips(u) == Chips(t)
      && u.deck == t.deck && u.community == t.community && u.state == t.state
      && u.dealer == t.dealer && u.foldList == t.foldList && u.allInList == t.allInList
      && u.lastAggressor == Some(BigBlindSeat(|t.seats|, t.dealer))
      && forall j :: 0 <= j < |t.seats| ==>
           && u.seats[j] == t.seats[j].(chips := u.seats[j].chips, bet := u.seats[j].bet)
           && u.seats[j].chips + u.seats[j].bet == t.seats[j].chips
  {
    BlindsPaidFromNoBets(t);
  }

  /** The seats and the chips part of `BlindsFromNoBets`. */
  lemma BlindsPaidFromNoBets(t: Table)
    requires |t.seats| >= 2 && t.dealer < |t.seats|
    requires forall j :: 0 <= j < |t.seats| ==> t.seats[j].bet == 0
    ensures Blinds(t).Returned?
    ensures var u := Blinds(t).table;
      && |u.seats| == |t.seats| && Chips(u) == Chips(t)
      && forall j :: 0 <= j < |t.seats| ==>
           && u.seats[j] == t.seats[j].(chips := u.seats[j].chips, bet := u.seats[j].bet)
           && u.seats[j].chips + u.seats[j].bet == t.seats[j].chips
  {
    var n := |t.seats|;
    var sb := SmallBlindSeat(n, t.dealer);
    var bb := BigBlindSeat(n, t.dealer);
    BlindSeatsDiffer(n, t.dealer);
    var s := PayBlind(t, sb, SmallBlind);
    PayBlindMoves(t, sb, SmallBlind);
    PayBlindMoves(s, bb, BigBlind);
    var seats := PayBlind(s, bb, BigBlind).seats;
    assert Blinds(t).table.seats == seats;
    forall j | 0 <= j < n
      ensures seats[j] == t.seats[j].(chips := seats[j].chips, bet := seats[j].bet)
      ensures seats[j].chips + seats[j].bet == t.seats[j].chips
    {
      if j == bb {
        assert s.seats[j] == t.seats[j];
      } else if j != sb {
        assert seats[j] == t.seats[j];
      }
    }
  }

  /** A new round with two to 26 seats is the deal followed by the blinds,
      and returns True. */
  lemma NewRoundUnfolds(t: Table, choices: seq<nat>)
    requires 2 <= |t.seats| <= 26
    ensures var h := DealHoles(Reopened(t, choices));
      && h.Returned? && Blinds(h.table).Returned?
      && NewRound(t, choices) == Returned(Blinds(h.table).table, true)
  {
    NewRoundDeal(t, choices);
    BlindsFromNoBets(DealHoles(Reopened(t, choices)).table);
  }

  /** After a new round, seat j holds the cards at positions j and n + j of
      the fresh deck. */
  lemma NewRoundHands(t: Table, choices: seq<nat>)
    requires 2 <= |t.seats| <= 26
    ensures NewRound(t, choices).Returned?
    ensures var u := NewRound(t, choices).table;
      var d := Shuffling.Shuffled(StandardDeck(), choices);
      && |u.seats| == |t.seats|
      && forall j {:trigger u.seats[j]} :: 0 <= j < |t.seats| ==> u.seats[j].hand == [d[j], d[|t.seats| + j]]
  {
    NewRoundUnfolds(t, choices);
    NewRoundDeal(t, choices);
    BlindsFromNoBets(DealHoles(Reopened(t, choices)).table);
  }

  /** After a new round every seat keeps its key and name, is back in the
      hand, has not won, has no score, and holds its old stack, now split
      between stack and contribution. */
  lemma NewRoundSeats(t: Table, choices: seq<nat>)
    requires 2 <= |t.seats| <= 26
    ensures NewRound(t, choices).Returned?
    ensures var u := NewRound(t, choices).table;
      && |u.seats| == |t.seats|
      && forall j :: 0 <= j < |t.seats| ==>
           && u.seats[j].sid == t.seats[j].sid && u.seats[j].name == t.seats[j].name
           && !u.seats[j].folded && !u.seats[j].allIn && !u.seats[j].isWinner
           && u.seats[j].score == None
           && u.seats[j].chips + u.seats[j].bet == t.seats[j].chips
  {
    NewRoundUnfolds(t, choices);
    NewRoundDeal(t, choices);
    var h := DealHoles(Reopened(t, choices)).table;
    BlindsFromNoBets(h);
    var u := Blinds(h).table;
    var d := Shuffling.Shuffled(StandardDeck(), choices);
    var n := |t.seats|;
    forall j | 0 <= j < n
      ensures && u.seats[j].sid == t.seats[j].sid && u.seats[j].name == t.seats[j].name
              && !u.seats[j].folded && !u.seats[j].allIn && !u.seats[j].isWinner
              && u.seats[j].score == None
              && u.seats[j].chips + u.seats[j].bet == t.seats[j].chips
    {
      var x := ResetSeat(t.seats[j]).(hand := [d[j], d[n + j]]);
      assert h.seats[j] == x;
      assert u.seats[j] == x.(chips := u.seats[j].chips, bet := u.seats[j].bet);
    }
  }

  /** After a new round the deck keeps 52 - 2n cards, the board is empty,
      the state is preflop, the dealer keeps its position (reset to 0 only
      when past the last seat), the big blind is the last aggressor, the
      fold and all-in lists are empty, and the chips on the table are the
      stacks the seats had. */
  lemma NewRoundFields(t: Table, choices: seq<nat>)
    requires 2 <= |t.seats| <= 26
    ensures NewRound(t, choices).Returned? && NewRound(t, choices).value
    ensures var u := NewRound(t, choices).table;
      var d := Shuffling.Shuffled(StandardDeck(), choices);
      var n := |t.seats|;
      && u.deck == d[2 * n..] && |u.deck| == 52 - 2 * n
      && u.community == [] && u.state == Preflop
      && u.dealer == (if t.dealer >= n then 0 else t.dealer)
      && u.lastAggressor == Some(BigBlindSeat(n, u.dealer))
      && u.foldList == [] && u.allInList == []
      && Chips(u) == Sum(Stacks(t.seats))
  {
    NewRoundUnfolds(t, choices);
    NewRoundDeal(t, choices);
    FreshDeck(choices);
    var r := Reopened(t, choices);
    var h := DealHoles(r).table;
    BlindsFromNoBets(h);
    var d := Shuffling.Shuffled(StandardDeck(), choices);
    var n := |t.seats|;
    forall j | 0 <= j < n
      ensures h.seats[j].chips == t.seats[j].chips
    {
      assert h.seats[j] == ResetSeat(t.seats[j]).(hand := [d[j], d[n + j]]);
    }
    assert Stacks(h.seats) == Stacks(t.seats);
    assert h.pot == 0 && h.community == [] && h.state == Preflop && h.foldList == [] && h.allInList == [];
    assert h.dealer == r.dealer;
  }

  /** Seats holding positions j and n + j of a deck without repeats share
      no card. */
  lemma HolesFromDistinct(seats: seq<Seat>, d: seq<Card>)
    requires 2 * |seats| <= |d| && Shuffling.Distinct(d)
    requires forall j {:trigger seats[j]} :: 0 <= j < |seats| ==> seats[j].hand == [d[j], d[|seats| + j]]
    ensures forall i, j, a, b ::
      (0 <= i < |seats| && 0 <= j < |seats| && 0 <= a < 2 && 0 <= b < 2 && (i != j || a != b)) ==>
        seats[i].hand[a] != seats[j].hand[b]
  {
    var n := |seats|;
    forall i, j, a, b | 0 <= i < n && 0 <= j < n && 0 <= a < 2 && 0 <= b < 2 && (i != j || a != b)
      ensures seats[i].hand[a] != seats[j].hand[b]
    {
      var p := if a == 0 then i else n + i;
      var q := if b == 0 then j else n + j;
      assert seats[i].hand[a] == d[p] by {
        if a == 0 { assert seats[i].hand[0] == d[i]; } else { assert seats[i].hand[1] == d[n + i]; }
      }
      assert seats[j].hand[b] == d[q] by {
        if b == 0 { assert seats[j].hand[0] == d[j]; } else { assert seats[j].hand[1] == d[n + j]; }
      }
      if p < q {
        assert d[p] != d[q];
      } else {
        assert d[q] != d[p];
      }
    }
  }

  /** No card of a new round is dealt to two places. */
  lemma NewRoundDealsNoCardTwice(t: Table, choices: seq<nat>)
    requires 2 <= |t.seats| <= 26
    ensures NewRound(t, choices).Returned?
    ensures var u := NewRound(t, choices).table;
      && |u.seats| == |t.seats| && (forall i :: 0 <= i < |t.seats| ==> |u.seats[i].hand| == 2)
      && forall i, j, a, b ::
        (0 <= i < |t.seats| && 0 <= j < |t.seats| && 0 <= a < 2 && 0 <= b < 2 && (i != j || a != b)) ==>
          u.seats[i].hand[a] != u.seats[j].hand[b]
  {
    NewRoundHands(t, choices);
    FreshDeck(choices);
    HolesFromDistinct(NewRound(t, choices).table.seats, Shuffling.Shuffled(StandardDeck(), choices));
  }

  /** Fewer than two seats: nothing is dealt, the table waits. */
  lemma NewRoundNeedsTwo(t: Table, choices: seq<nat>)
    requires |t.seats| < 2
    ensures NewRound(t, choices) == Returned(t.(state := Waiting), false)
  {
  }

  /** More than 26 seats need more than 52 hole cards: the deal raises. */
  lemma NewRoundRunsOut(t: Table, choices: seq<nat>)
    requires |t.seats| > 26
    ensures NewRound(t, choices).Raised? && NewRound(t, choices).error == IndexError
  {
    FreshDeck(choices);
    DealHolesRunsOut(Reopened(t, choices));
  }
}
