/** The rules of the standalone table of game.py, stated on values: a `Table`
    is what the game object holds (the seats with their stacks, bets, in-hand
    flags and hands, the pot, the bet to match, the dealer and current seats,
    the state and the raise bookkeeping), and every operation of the game is a
    function from the table before to the table after.  The class in
    StandaloneGame is proved to follow these functions; what they mean is
    proved here. */
module StandaloneRules {
  import opened CardDeck
  import opened Tally
  import opened Seating
  import Shuffling

  datatype GameState = Waiting | Preflop | Flop | Turn | River | Showdown

  /** The action string of `player_action`; every string other than "bet",
      "fold" and "check" behaves the same, as `OtherAction`. */
  datatype Action = Bet | Fold | Check | OtherAction

  /** What game.py raises.  `Hangs` stands for the `while True` search for the
      next player when no player is in the hand: Python never returns then. */
  datatype GameError = MaxPlayersReached | NameAlreadyTaken | DeckEmpty | ZeroDivision | Hangs

  datatype Outcome<T> = Ok(value: T) | Raised(error: GameError)

  datatype Option<T> = None | Some(value: T)

  const MaxPlayers: int := 10
  const SmallBlind: int := 10
  const BigBlind: int := 20

  /** One player as the table sees it. */
  datatype Seat = Seat(name: string, chips: int, bet: int, active: bool, hand: seq<CardFace>)

  datatype Table = Table(seats: seq<Seat>, pot: int, currentBet: int, dealer: int,
                         current: int, state: GameState, lastRaise: int, minimumRaise: int)

  /** The in-hand flags, stacks and bets of the seats, seat by seat. */
  function Flags(seats: seq<Seat>): (f: seq<bool>)
    ensures |f| == |seats| && forall i :: 0 <= i < |seats| ==> f[i] == seats[i].active
  {
    seq(|seats|, i requires 0 <= i < |seats| => seats[i].active)
  }

  function Stacks(seats: seq<Seat>): (s: seq<int>)
    ensures |s| == |seats| && forall i :: 0 <= i < |seats| ==> s[i] == seats[i].chips
  {
    seq(|seats|, i requires 0 <= i < |seats| => seats[i].chips)
  }

  function Bets(seats: seq<Seat>): (s: seq<int>)
    ensures |s| == |seats| && forall i :: 0 <= i < |seats| ==> s[i] == seats[i].bet
  {
    seq(|seats|, i requires 0 <= i < |seats| => seats[i].bet)
  }

  /** The position of the first seat with the given name, or -1: the
      generator `next(p for p in players if p.name == name)`. */
  function FindSeat(seats: seq<Seat>, name: string): (i: int)
    ensures -1 <= i < |seats|
    ensures i >= 0 ==> seats[i].name == name && forall j :: 0 <= j < i ==> seats[j].name != name
    ensures i < 0 ==> forall j :: 0 <= j < |seats| ==> seats[j].name != name
  {
    if seats == [] then -1
    else var i := FindSeat(seats[..|seats| - 1], name);
         if i >= 0 then i else if seats[|seats| - 1].name == name then |seats| - 1 else -1
  }

  /** A stack after `place_bet(amount)`: paid when the stack covers it,
      untouched otherwise. */
  function Pay(chips: int, amount: int): (after: int)
    ensures amount <= chips ==> after == chips - amount
    ensures amount > chips ==> after == chips
  {
    if amount <= chips then chips - amount else chips
  }

  /** `_next_player`: the turn moves to the next seat still in the hand.
      An empty table divides by zero; a table where nobody is in the hand
      loops for ever. */
  function PassTurn(t: Table): Outcome<Table>
  {
    var n := |t.seats|;
    if n == 0 then Raised(ZeroDivision)
    else
      var k := NextSeat(Flags(t.seats), t.current, 1);
      if k > n then Raised(Hangs) else Ok(t.(current := (t.current + k) % n))
  }

  /** Passing the turn fails exactly when nobody is in the hand; otherwise
      only the current seat changes, and it becomes the first seat in the
      hand going round from the old one (the old one itself last). */
  lemma PassTurnFindsNext(t: Table)
    requires 0 <= t.current < |t.seats|
    ensures PassTurn(t).Raised? <==> forall j :: 0 <= j < |t.seats| ==> !t.seats[j].active
    ensures PassTurn(t).Raised? ==> PassTurn(t).error == Hangs
    ensures PassTurn(t).Ok? ==>
      var c := PassTurn(t).value.current;
      && PassTurn(t).value == t.(current := c)
      && 0 <= c < |t.seats| && t.seats[c].active
      && NextInHand(Flags(t.seats), t.current, SeatsBetween(t.current, c, |t.seats|))
  {
    var n := |t.seats|;
    var flags := Flags(t.seats);
    var k := NextSeat(flags, t.current, 1);
    if k > n {
      forall j | 0 <= j < n
        ensures !t.seats[j].active
      {
        var back := SeatsBetween(t.current, j, n);
        assert !Around(flags, t.current, back);
      }
    } else {
      assert Around(flags, t.current, k);
      SeatsBetweenStep(t.current, k, n);
    }
  }

  function FoldAt(t: Table, i: int): Table
    requires 0 <= i < |t.seats|
  {
    t.(seats := t.seats[i := t.seats[i].(active := false)])
  }

  /** `_end_hand`: the winner's stack gains the pot, which is left as it is,
      the table goes back to waiting and the dealer button moves on. */
  function WinAt(t: Table, w: int): Table
    requires 0 <= w < |t.seats|
  {
    t.(seats := t.seats[w := t.seats[w].(chips := t.seats[w].chips + t.pot)],
       state := Waiting, dealer := (t.dealer + 1) % |t.seats|)
  }

  /** `_check_hand_end`: ends the hand when exactly one seat is left in it. */
  function HandEnd(t: Table): (Table, bool)
  {
    var f := Flags(t.seats);
    if CountTrue(f) == 1 then (FirstTrueFound(f); WinAt(t, FirstTrue(f)), true) else (t, false)
  }

  /** The hand ends exactly when one seat is left in it; that seat then gains
      the whole pot.  The pot keeps its amount, so the chips on the table
      grow by the pot. */
  lemma HandEndAwardsPot(t: Table)
    ensures HandEnd(t).1 <==> CountTrue(Flags(t.seats)) == 1
    ensures !HandEnd(t).1 ==> HandEnd(t).0 == t
    ensures HandEnd(t).1 ==>
      var e := HandEnd(t).0;
      var w := FirstTrue(Flags(t.seats));
      var n := |t.seats|;
      && w < n && t.seats[w].active
      && (forall j :: 0 <= j < n && j != w ==> !t.seats[j].active)
      && |e.seats| == n
      && e.seats[w] == t.seats[w].(chips := t.seats[w].chips + t.pot)
      && (forall j :: 0 <= j < n && j != w ==> e.seats[j] == t.seats[j])
      && e == t.(seats := e.seats, state := Waiting, dealer := (t.dealer + 1) % n)
      && Sum(Stacks(e.seats)) == Sum(Stacks(t.seats)) + t.pot
  {
    var f := Flags(t.seats);
    if CountTrue(f) == 1 {
      FirstTrueFound(f);
      var w := FirstTrue(f);
      CountTrueOne(f, w);
      var e := WinAt(t, w);
      assert Stacks(e.seats) == Stacks(t.seats)[w := t.seats[w].chips + t.pot];
      SumUpdate(Stacks(t.seats), w, t.seats[w].chips + t.pot);
    }
  }

  /** The "fold" branch of `player_action` for seat i: the seat leaves the
      hand; if that leaves one seat, the hand ends, otherwise the turn
      passes. */
  function FoldPlay(t: Table, i: int): Outcome<Table>
    requires 0 <= i < |t.seats|
  {
    var (e, ended) := HandEnd(FoldAt(t, i));
    if ended then Ok(e) else PassTurn(e)
  }

  /** The number of seats still in the hand after seat i folds. */
  function LeftAfterFold(t: Table, i: int): nat
    requires 0 <= i < |t.seats|
  {
    CountTrue(Flags(FoldAt(t, i).seats))
  }

  /** A fold takes one seat out of the hand, none if it had already left. */
  lemma FoldCount(t: Table, i: int)
    requires 0 <= i < |t.seats|
    ensures LeftAfterFold(t, i) == CountTrue(Flags(t.seats)) - (if t.seats[i].active then 1 else 0)
  {
    var flags := Flags(t.seats);
    assert Flags(FoldAt(t, i).seats) == flags[i := false];
    CountTrueUpdate(flags, i, false);
  }

  /** A fold that leaves nobody in the hand sends the search for the next
      player round for ever. */
  lemma FoldLeavingNoneHangs(t: Table, i: int)
    requires 0 <= i < |t.seats| && LeftAfterFold(t, i) == 0
    ensures FoldPlay(t, i) == Raised(Hangs)
  {
    var f := FoldAt(t, i);
    HandEndAwardsPot(f);
    CountTrueZero(Flags(f.seats));
  }

  /** A fold that leaves one seat in the hand ends it: that seat, another
      than the folder, gains the pot, the pot keeps its amount, the table
      waits and the button moves on. */
  lemma FoldLeavingOneEndsHand(t: Table, i: int)
    requires 0 <= i < |t.seats| && LeftAfterFold(t, i) == 1
    ensures
      var f := FoldAt(t, i);
      var w := FirstTrue(Flags(f.seats));
      var n := |t.seats|;
      && FoldPlay(t, i).Ok?
      && var e := FoldPlay(t, i).value;
      && w < n && w != i && t.seats[w].active
      && (forall j :: 0 <= j < n && j != w ==> !f.seats[j].active)
      && |e.seats| == n
      && e.seats[w].chips == t.seats[w].chips + t.pot
      && e.seats[i] == t.seats[i].(active := false)
      && Sum(Stacks(e.seats)) == Sum(Stacks(t.seats)) + t.pot
      && e.pot == t.pot && e.state == Waiting && e.dealer == (t.dealer + 1) % n
      && e.current == t.current
  {
    var f := FoldAt(t, i);
    HandEndAwardsPot(f);
    assert Stacks(f.seats) == Stacks(t.seats);
  }

  /** A fold that leaves two or more seats in the hand only takes the folder
      out and passes the turn to the next seat still in. */
  lemma FoldLeavingMorePassesTurn(t: Table, i: int)
    requires 0 <= i < |t.seats| && 0 <= t.current < |t.seats| && LeftAfterFold(t, i) >= 2
    ensures
      var f := FoldAt(t, i);
      var n := |t.seats|;
      && FoldPlay(t, i).Ok?
      && var c := FoldPlay(t, i).value.current;
      && FoldPlay(t, i).value == f.(current := c)
      && 0 <= c < n && c != i && t.seats[c].active
      && NextInHand(Flags(f.seats), t.current, SeatsBetween(t.current, c, n))
  {
    var f := FoldAt(t, i);
    HandEndAwardsPot(f);
    CountTrueZero(Flags(f.seats));
    PassTurnFindsNext(f);
  }

  /** The "bet" branch for seat i, once accepted: the amount moves from the
      stack into the seat's bet and the pot, becomes the bet to match and the
      last raise, and doubles into the next minimum raise. */
  function BetAt(t: Table, i: int, amount: int): Table
    requires 0 <= i < |t.seats|
  {
    t.(seats := t.seats[i := t.seats[i].(chips := t.seats[i].chips - amount,
                                         bet := t.seats[i].bet + amount)],
       currentBet := amount, pot := t.pot + amount, lastRaise := amount,
       minimumRaise := amount * 2)
  }

  function Lift(o: Outcome<Table>): Outcome<Option<Table>>
  {
    match o
    case Ok(v) => Ok(Some(v))
    case Raised(e) => Raised(e)
  }

  /** `player_action`: `Ok(None)` is the answer False with nothing changed,
      `Ok(Some(t'))` the answer True with table t'.  The action is taken for
      the first seat with the name, which must be in the hand and carry the
      same name as the current seat. */
  function Act(t: Table, name: string, action: Action, amount: int): Outcome<Option<Table>>
    requires 0 <= t.current < |t.seats| || |t.seats| == 0
  {
    var i := FindSeat(t.seats, name);
    if i < 0 || !t.seats[i].active then Ok(None)
    else if name != t.seats[t.current].name then Ok(None)
    else match action
      case Bet =>
        if amount < t.minimumRaise || amount > t.seats[i].chips then Ok(None)
        else Lift(PassTurn(BetAt(t, i, amount)))
      case Fold => Lift(FoldPlay(t, i))
      case Check => if t.currentBet > 0 then Ok(None) else Lift(PassTurn(t))
      case OtherAction => Lift(PassTurn(t))
  }

  /** Only the player holding the turn acts: an action that is not refused
      is by a seat in the hand whose name is the current seat's. */
  lemma ActNeedsTurn(t: Table, name: string, action: Action, amount: int)
    requires 0 <= t.current < |t.seats| || |t.seats| == 0
    ensures Act(t, name, action, amount) != Ok(None) ==>
      var i := FindSeat(t.seats, name);
      && 0 <= i < |t.seats| && t.seats[i].active
      && t.seats[t.current].name == name
  {
  }

  /** A check while a bet is open is refused. */
  lemma CheckRefusedWhileBetOpen(t: Table, name: string, amount: int)
    requires 0 <= t.current < |t.seats| || |t.seats| == 0
    requires t.currentBet > 0
    ensures Act(t, name, Check, amount) == Ok(None)
  {
  }

  /** A bet by the player holding the turn is refused exactly when it is
      below the minimum raise or above the stack.  An accepted bet never
      raises; it moves the amount from that stack into the seat's bet and the
      pot (so stacks plus pot are kept), sets the bet to match, the last
      raise and twice the amount as the next minimum, leaves every seat's
      in-hand flag as it was and passes the turn to the next seat in. */
  lemma BetOutcome(t: Table, name: string, amount: int)
    requires 0 <= t.current < |t.seats|
    requires 0 <= FindSeat(t.seats, name) && t.seats[FindSeat(t.seats, name)].active
    requires t.seats[t.current].name == name
    ensures
      var i := FindSeat(t.seats, name);
      var r := Act(t, name, Bet, amount);
      && (r == Ok(None) <==> amount < t.minimumRaise || amount > t.seats[i].chips)
      && (r != Ok(None) ==>
            && r.Ok? && r.value.Some?
            && var u := r.value.value;
            && |u.seats| == |t.seats|
            && u.seats[i].chips == t.seats[i].chips - amount
            && u.seats[i].bet == t.seats[i].bet + amount
            && (forall j :: 0 <= j < |t.seats| && j != i ==> u.seats[j] == t.seats[j])
            && Flags(u.seats) == Flags(t.seats)
            && Sum(Stacks(u.seats)) + u.pot == Sum(Stacks(t.seats)) + t.pot
            && u.currentBet == amount && u.lastRaise == amount && u.minimumRaise == 2 * amount
            && u.seats[u.current].active)
  {
    var i := FindSeat(t.seats, name);
    if !(amount < t.minimumRaise || amount > t.seats[i].chips) {
      BetAtMovesChips(t, i, amount);
      PassTurnFindsNext(BetAt(t, i, amount));
    }
  }

  /** A bet moves chips from one stack into the pot and changes no flag. */
  lemma BetAtMovesChips(t: Table, i: int, amount: int)
    requires 0 <= i < |t.seats|
    ensures var b := BetAt(t, i, amount);
      && Flags(b.seats) == Flags(t.seats)
      && Sum(Stacks(b.seats)) + b.pot == Sum(Stacks(t.seats)) + t.pot
  {
    var b := BetAt(t, i, amount);
    assert Flags(b.seats) == Flags(t.seats);
    assert Stacks(b.seats) == Stacks(t.seats)[i := t.seats[i].chips - amount];
    SumUpdate(Stacks(t.seats), i, t.seats[i].chips - amount);
  }

  /** A check with no bet open, or any other action string, by the player
      holding the turn is accepted, never raises and only passes the turn to
      the next seat in the hand. */
  lemma PassOutcome(t: Table, name: string, action: Action, amount: int)
    requires 0 <= t.current < |t.seats|
    requires 0 <= FindSeat(t.seats, name) && t.seats[FindSeat(t.seats, name)].active
    requires t.seats[t.current].name == name
    requires action == OtherAction || (action == Check && t.currentBet <= 0)
    ensures
      var r := Act(t, name, action, amount);
      && r.Ok? && r.value.Some?
      && var c := r.value.value.current;
      && r.value.value == t.(current := c)
      && 0 <= c < |t.seats| && t.seats[c].active
      && NextInHand(Flags(t.seats), t.current, SeatsBetween(t.current, c, |t.seats|))
  {
    PassTurnFindsNext(t);
  }

  /** `place_bet` by seat i: the stack pays into the bet when it covers the
      amount; a refused payment changes nothing. */
  function PayAt(seats: seq<Seat>, i: int, amount: int): (r: seq<Seat>)
    requires 0 <= i < |seats|
  {
    seats[i := if amount <= seats[i].chips
               then seats[i].(chips := seats[i].chips - amount, bet := seats[i].bet + amount)
               else seats[i]]
  }

  /** `_post_blinds`. */
  function Blinds(t: Table): Outcome<Table>
  {
    var n := |t.seats|;
    if n == 0 then Raised(ZeroDivision)
    else
      var sb := (t.dealer + 1) % n;
      var bb := (t.dealer + 2) % n;
      Ok(t.(seats := PayAt(PayAt(t.seats, sb, SmallBlind), bb, BigBlind),
            currentBet := BigBlind, pot := SmallBlind + BigBlind,
            current := (t.dealer + 3) % n))
  }

  /** The seats after the dealer pay the small and the big blind as far as
      their stacks allow, a refused payment being ignored (on a table of one
      the same seat is asked twice); each seat keeps its stack plus bet.  The
      bet to match is the big blind, the pot is both blinds whether they were
      paid or not, and the turn goes to the third seat after the dealer. */
  lemma BlindsEffect(t: Table)
    ensures |t.seats| == 0 <==> Blinds(t) == Raised(ZeroDivision)
    ensures |t.seats| > 0 ==>
      var n := |t.seats|;
      var sb := (t.dealer + 1) % n;
      var bb := (t.dealer + 2) % n;
      && Blinds(t).Ok?
      && var b := Blinds(t).value;
      && |b.seats| == n
      && (forall j :: 0 <= j < n ==>
            && b.seats[j].chips == Pay(Pay(t.seats[j].chips, if j == sb then SmallBlind else 0),
                                       if j == bb then BigBlind else 0)
            && b.seats[j].chips + b.seats[j].bet == t.seats[j].chips + t.seats[j].bet
            && b.seats[j] == t.seats[j].(chips := b.seats[j].chips, bet := b.seats[j].bet))
      && b == t.(seats := b.seats, currentBet := BigBlind, pot := SmallBlind + BigBlind,
                 current := (t.dealer + 3) % n)
  {
  }

  /** `collect_bets`: every seat's bet moves into the pot. */
  function Collect(t: Table): Table
  {
    t.(seats := seq(|t.seats|, j requires 0 <= j < |t.seats| => t.seats[j].(bet := 0)),
       pot := t.pot + Sum(Bets(t.seats)))
  }

  /** Collecting leaves every bet at zero and the stacks as they were, and
      keeps stacks plus bets plus pot. */
  lemma CollectConserves(t: Table)
    ensures var u := Collect(t);
      && |u.seats| == |t.seats|
      && Sum(Bets(u.seats)) == 0
      && Stacks(u.seats) == Stacks(t.seats) && Flags(u.seats) == Flags(t.seats)
      && u.pot == t.pot + Sum(Bets(t.seats))
      && Sum(Stacks(u.seats)) + Sum(Bets(u.seats)) + u.pot
         == Sum(Stacks(t.seats)) + Sum(Bets(t.seats)) + t.pot
  {
    var u := Collect(t);
    SumZeros(Bets(u.seats));
    assert Stacks(u.seats) == Stacks(t.seats);
    assert Flags(u.seats) == Flags(t.seats);
  }

  /** The reset part of `start_new_hand`: every seat back in the hand with
      no cards and no bet, the pot and the bets cleared, the minimum raise
      back to the big blind, the state preflop. */
  function ResetSeat(s: Seat): Seat
  {
    s.(hand := [], bet := 0, active := true)
  }

  function Reopened(t: Table): Table
  {
    t.(seats := seq(|t.seats|, j requires 0 <= j < |t.seats| => ResetSeat(t.seats[j])),
       pot := 0, currentBet := 0, lastRaise := 0, minimumRaise := BigBlind, state := Preflop)
  }

  /** One round of the deal: seat after seat draws from the end of the deck. */
  function DealtRound(seats: seq<Seat>, cards: seq<CardFace>): seq<Seat>
    requires |seats| <= |cards|
  {
    seq(|seats|, j requires 0 <= j < |seats| =>
      seats[j].(hand := seats[j].hand + [cards[|cards| - 1 - j]]))
  }

  /** Both rounds of the deal, the second from what the first left. */
  function DealtHoles(t: Table, cards: seq<CardFace>): Table
    requires 2 * |t.seats| <= |cards|
  {
    t.(seats := DealtRound(DealtRound(t.seats, cards), cards[..|cards| - |t.seats|]))
  }

  /** `start_new_hand` from the reshuffled deck `cards`: reset, two rounds of
      the deal, then the blinds.  A deck too short for the deal raises. */
  function NewHand(t: Table, cards: seq<CardFace>): Outcome<Table>
  {
    if 2 * |t.seats| > |cards| then Raised(DeckEmpty)
    else Blinds(DealtHoles(Reopened(t), cards))
  }

  /** Where the deal takes seat j's card of round a from: the deck is drawn
      from its end, seat by seat, round after round. */
  function HoleAt(m: int, n: int, j: int, a: int): int
  {
    m - 1 - j - a * n
  }

  /** A new hand brings every seat into it with exactly two cards, seat j
      holding the cards taken from positions HoleAt(m, n, j, 0) and
      HoleAt(m, n, j, 1) of the deck.  Stacks are kept apart from the blinds,
      the pot holds both blinds and the turn is at the third seat after the
      dealer. */
  lemma NewHandEffect(t: Table, cards: seq<CardFace>)
    requires 0 < |t.seats| && 2 * |t.seats| <= |cards|
    ensures NewHand(t, cards).Ok?
    ensures
      var u := NewHand(t, cards).value;
      var n := |t.seats|;
      var m := |cards|;
      && |u.seats| == n
      && (forall j :: 0 <= j < n ==>
            && u.seats[j].active && u.seats[j].name == t.seats[j].name
            && u.seats[j].chips + u.seats[j].bet == t.seats[j].chips
            && u.seats[j].hand == [cards[HoleAt(m, n, j, 0)], cards[HoleAt(m, n, j, 1)]])
      && u.state == Preflop && u.pot == SmallBlind + BigBlind && u.currentBet == BigBlind
      && u.lastRaise == 0 && u.minimumRaise == BigBlind && u.dealer == t.dealer
      && u.current == (t.dealer + 3) % n
  {
    var n := |t.seats|;
    var m := |cards|;
    var r := Reopened(t);
    var rest := cards[..m - n];
    var once := DealtRound(r.seats, cards);
    var d := DealtHoles(r, cards);
    assert d.seats == DealtRound(once, rest);
    forall j | 0 <= j < n
      ensures d.seats[j].hand == [cards[HoleAt(m, n, j, 0)], cards[HoleAt(m, n, j, 1)]]
      ensures d.seats[j].active && d.seats[j].name == t.seats[j].name
      ensures d.seats[j].chips == t.seats[j].chips && d.seats[j].bet == 0
    {
      assert once[j] == r.seats[j].(hand := [cards[m - 1 - j]]);
      assert rest[|rest| - 1 - j] == cards[HoleAt(m, n, j, 1)];
    }
    BlindsEffect(d);
  }

  /** The deal takes different deck positions for different holes. */
  lemma HoleAtInjective(m: int, n: int, j: int, a: int, k: int, b: int)
    requires 0 <= j < n && 0 <= k < n && 0 <= a < 2 && 0 <= b < 2
    requires HoleAt(m, n, j, a) == HoleAt(m, n, k, b)
    ensures j == k && a == b
  {
  }

  /** Hands dealt at the positions HoleAt picks from a deck without repeats
      share no card. */
  lemma HolesShareNoCard(hands: seq<seq<CardFace>>, cards: seq<CardFace>)
    requires 2 * |hands| <= |cards| && Shuffling.Distinct(cards)
    requires forall j :: 0 <= j < |hands| ==>
      hands[j] == [cards[HoleAt(|cards|, |hands|, j, 0)], cards[HoleAt(|cards|, |hands|, j, 1)]]
    ensures forall j, k, a, b ::
      0 <= j < |hands| && 0 <= k < |hands| && 0 <= a < 2 && 0 <= b < 2 && (j != k || a != b) ==>
        hands[j][a] != hands[k][b]
  {
    var n, m := |hands|, |cards|;
    forall j, k, a, b | 0 <= j < n && 0 <= k < n && 0 <= a < 2 && 0 <= b < 2 && (j != k || a != b)
      ensures hands[j][a] != hands[k][b]
    {
      var p, q := HoleAt(m, n, j, a), HoleAt(m, n, k, b);
      if p == q {
        HoleAtInjective(m, n, j, a, k, b);
      }
      assert hands[j][a] == cards[p] && hands[k][b] == cards[q];
      if p < q {
        assert cards[p] != cards[q];
      } else if q < p {
        assert cards[q] != cards[p];
      }
    }
  }

  /** From a deck without repeats, no card of a new hand goes to two places. */
  lemma NewHandDealsNoCardTwice(t: Table, cards: seq<CardFace>)
    requires 0 < |t.seats| && 2 * |t.seats| <= |cards| && Shuffling.Distinct(cards)
    ensures NewHand(t, cards).Ok?
    ensures
      var u := NewHand(t, cards).value;
      var n := |t.seats|;
      forall j, k, a, b :: 0 <= j < n && 0 <= k < n && 0 <= a < 2 && 0 <= b < 2 && (j != k || a != b) ==>
        u.seats[j].hand[a] != u.seats[k].hand[b]
  {
    NewHandEffect(t, cards);
    var u := NewHand(t, cards).value;
    var hands := seq(|t.seats|, j requires 0 <= j < |t.seats| => u.seats[j].hand);
    HolesShareNoCard(hands, cards);
  }


  /** The deck `start_new_hand` deals from is the creation order shuffled, so
      for a table of at most 26 seats the hand is dealt without a repeated card. */
  lemma ShuffledDeckDealsNoCardTwice(t: Table, choices: seq<nat>)
    requires 0 < |t.seats| && 2 * |t.seats| <= 52
    ensures
      var u := NewHand(t, Shuffling.Shuffled(FaceOrder(), choices));
      && u.Ok?
      && forall j, k, a, b :: 0 <= j < |t.seats| && 0 <= k < |t.seats| && 0 <= a < 2 && 0 <= b < 2 && (j != k || a != b) ==>
           u.value.seats[j].hand[a] != u.value.seats[k].hand[b]
  {
    FaceOrderIsComplete();
    assert Shuffling.Distinct(FaceOrder());
    Shuffling.ShuffledKeepsDistinct(FaceOrder(), choices);
    NewHandDealsNoCardTwice(t, Shuffling.Shuffled(FaceOrder(), choices));
  }
}
