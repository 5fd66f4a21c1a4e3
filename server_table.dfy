/** The table of the live server (server.py `PokerGame`) as a value: the
    seat dict in insertion order (which is the turn order), the deck, the
    community cards, the pot and the betting fields.  Every operation of the
    live engine is a function from one `Table` to the next, in the modules
    ServerStreets, ServerShowdown, ServerLobby and ServerBetting; the class in
    ServerGame is proved to follow them.  This module holds the table, the
    columns read off its seats, and `next_player`, which the betting engine
    and the streets share. */
module ServerTable {
  import opened ServerCards
  import opened Tally
  import opened Seating

  datatype Phase = Waiting | Preflop | Flop | Turn | River | Showdown | RoundComplete

  datatype Option<T> = None | Some(value: T)

  const SmallBlind: int := 10
  const BigBlind: int := 20
  const StartingChips: int := 10000

  /** One entry of the seat dict: its key (the client's sid) and the record
      under it.  A record made by `add_player` has no "is_winner" and no
      "score" key; every reader uses `get` with False and None, so a new
      seat carries those values here. */
  datatype Seat = Seat(sid: string, name: string, chips: int, hand: seq<Card>, bet: int,
                       folded: bool, allIn: bool, isWinner: bool, score: Option<seq<int>>)

  /** The fields of `PokerGame` the engine reads and writes.  `dealer` and
      `current` are never negative in the source; `lastAggressor` is None or
      a seat position. */
  datatype Table = Table(seats: seq<Seat>, deck: seq<Card>, community: seq<Card>,
                         pot: int, currentBet: int, dealer: nat, current: nat, state: Phase,
                         lastRaise: int, minRaise: int, lastAggressor: Option<nat>,
                         roundComplete: bool, foldList: seq<string>, allInList: seq<string>,
                         maxPlayers: int)

  /** The exceptions the engine can raise: a `pop(0)` from an empty deck or
      a list index past the end, and `max` of nothing. */
  datatype Fault = IndexError | ValueError

  /** How a method call ends: it returns a value or raises, and either way
      leaves the table as `table` (Python keeps what ran before the
      exception). */
  datatype Call<T> = Returned(table: Table, value: T) | Raised(table: Table, error: Fault)

  /** The stacks, bets, "can act" and "not folded" columns, seat by seat. */
  function Stacks(seats: seq<Seat>): (s: seq<int>)
    ensures |s| == |seats| && forall i :: 0 <= i < |seats| ==> s[i] == seats[i].chips
  {
    seq(|seats|, i requires 0 <= i < |seats| => seats[i].chips)
  }

  function Bets(seats: seq<Seat>): (s: seq<int>)
    ensures |s| == |seats| && forall i :: 0 <= i < |seats| ==> s[i] == seats[i].bet
  {
    seq(|seats|, i requires 0 <= i < |seats| => seats[i].bet)
  }

  /** A seat that neither folded nor went all-in still acts. */
  function Eligible(seats: seq<Seat>): (f: seq<bool>)
    ensures |f| == |seats| && forall i :: 0 <= i < |seats| ==> f[i] == (!seats[i].folded && !seats[i].allIn)
  {
    seq(|seats|, i requires 0 <= i < |seats| => !seats[i].folded && !seats[i].allIn)
  }

  function InHand(seats: seq<Seat>): (f: seq<bool>)
    ensures |f| == |seats| && forall i :: 0 <= i < |seats| ==> f[i] == !seats[i].folded
  {
    seq(|seats|, i requires 0 <= i < |seats| => !seats[i].folded)
  }

  /** The chips on the table: every stack and the pot.  Bets are already in
      the pot, so they are not counted again. */
  function Chips(t: Table): int
  {
    Sum(Stacks(t.seats)) + t.pot
  }

  /** The test `all(p["current_bet"] == self.current_bet or p["folded"] or
      p["all_in"] ...)`. */
  predicate AllMatched(seats: seq<Seat>, bet: int)
  {
    forall j :: 0 <= j < |seats| ==> seats[j].bet == bet || seats[j].folded || seats[j].allIn
  }

  /** The keys of the seat dict are distinct. */
  predicate UniqueSids(seats: seq<Seat>)
  {
    forall i, j :: 0 <= i < j < |seats| ==> seats[i].sid != seats[j].sid
  }

  /** `card.showing = True` on every card. */
  function Revealed(cards: seq<Card>): (r: seq<Card>)
    ensures |r| == |cards| && forall i :: 0 <= i < |cards| ==> r[i] == cards[i].(showing := true)
  {
    seq(|cards|, i requires 0 <= i < |cards| => cards[i].(showing := true))
  }

  /** `next_player`.  With at most one seat left to act the betting round is
      marked complete.  Otherwise the index steps round the table to the
      next seat that can act; the round completes there when that seat is
      the last aggressor and every bet is matched.  Should the walk come
      back to where it started first, the round completes when every bet is
      matched (this last branch is written out as the source has it; lemma
      PassTurnFindsNext shows no table reaches it). */
  function PassTurn(t: Table): Table
  {
    var flags := Eligible(t.seats);
    var n := |t.seats|;
    if n == 0 || CountTrue(flags) <= 1 then t.(roundComplete := true)
    else
      var k := NextSeat(flags, t.current, 1);
      if k < n then
        var c := (t.current + k) % n;
        t.(current := c,
           roundComplete := t.roundComplete || (t.lastAggressor == Some(c) && AllMatched(t.seats, t.currentBet)))
      else
        t.(current := (t.current + n) % n,
           roundComplete := t.roundComplete || AllMatched(t.seats, t.currentBet))
  }

  /** With two or more seats able to act, the turn moves to another seat
      that can act, and every seat passed on the way cannot; nothing but the
      index and the completion flag changes, and the round completes there
      exactly when it already had, or that seat is the last aggressor with
      every bet matched.  With one seat or none able to act only the
      completion flag is set. */
  lemma PassTurnFindsNext(t: Table)
    requires t.current < |t.seats|
    ensures CountTrue(Eligible(t.seats)) <= 1 ==> PassTurn(t) == t.(roundComplete := true)
    ensures CountTrue(Eligible(t.seats)) >= 2 ==>
      var u := PassTurn(t);
      var n := |t.seats|;
      && u.current < n && u.current != t.current
      && !u.seats[u.current].folded && !u.seats[u.current].allIn
      && NextInHand(Eligible(t.seats), t.current, SeatsBetween(t.current, u.current, n))
      && u == t.(current := u.current,
                 roundComplete := t.roundComplete ||
                   (t.lastAggressor == Some(u.current) && AllMatched(t.seats, t.currentBet)))
  {
    var flags := Eligible(t.seats);
    var n := |t.seats|;
    if CountTrue(flags) >= 2 {
      CountTrueOther(flags, t.current);
      var j :| 0 <= j < n && j != t.current && flags[j];
      var b := SeatsBetween(t.current, j, n);
      assert Around(flags, t.current, b);
      var k := NextSeat(flags, t.current, 1);
      assert k <= b;
      assert b < n;
      SeatsBetweenStep(t.current, k, n);
    }
  }

  /** With two or more seats able to act, the walk of `next_player` from any
      index finds one of them less than a full turn away. */
  lemma PassTurnSearch(t: Table)
    requires |t.seats| > 0 && CountTrue(Eligible(t.seats)) >= 2
    ensures 1 <= NextSeat(Eligible(t.seats), t.current, 1) < |t.seats|
    ensures var c := (t.current + NextSeat(Eligible(t.seats), t.current, 1)) % |t.seats|;
      PassTurn(t) == t.(current := c,
                        roundComplete := t.roundComplete || (t.lastAggressor == Some(c) && AllMatched(t.seats, t.currentBet)))
  {
    var flags := Eligible(t.seats);
    var n := |t.seats|;
    var r := t.current % n;
    CountTrueOther(flags, r);
    var j :| 0 <= j < n && j != r && flags[j];
    var b := SeatsBetween(r, j, n);
    WrapAdd(t.current, b, n);
    assert Around(flags, t.current, b);
  }
}
