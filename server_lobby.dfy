/** Seating and what a client is sent (server.py `add_player`,
    `remove_player`, `get_game_state`): joining fills the table up to its
    size, a returning sid is given a fresh record in its old place, leaving
    deletes the record and repairs the indices, and each client's view of
    the table hides the other seats' hole cards until the showdown. */
module ServerLobby {
  import opened ServerCards
  import opened Tally
  import opened ServerTable

  /** The record `add_player` stores. */
  function NewSeat(sid: string, name: string): Seat
  {
    Seat(sid, name, StartingChips, [], 0, false, false, false, None)
  }

  /** The position of a key in the seat dict, or the number of seats when
      it is not a key. */
  function IndexOf(seats: seq<Seat>, sid: string): (i: nat)
    ensures i <= |seats|
    ensures i < |seats| ==> seats[i].sid == sid
    ensures forall j :: 0 <= j < i ==> seats[j].sid != sid
  {
    if seats == [] then 0 else if seats[0].sid == sid then 0 else 1 + IndexOf(seats[1..], sid)
  }

  predicate Seated(seats: seq<Seat>, sid: string)
  {
    exists j :: 0 <= j < |seats| && seats[j].sid == sid
  }

  /** `add_player`: refused when the table is full (even for a sid already
      seated); otherwise the sid's record is set to a fresh one, in place
      when the sid is already a key and at the end when it is not. */
  function AddPlayer(t: Table, sid: string, name: string): (Table, bool)
  {
    if |t.seats| >= t.maxPlayers then (t, false)
    else
      var i := IndexOf(t.seats, sid);
      if i < |t.seats| then (t.(seats := t.seats[i := NewSeat(sid, name)]), true)
      else (t.(seats := t.seats + [NewSeat(sid, name)]), true)
  }

  /** A full table refuses every join and changes nothing. */
  lemma AddPlayerFull(t: Table, sid: string, name: string)
    ensures AddPlayer(t, sid, name).1 <==> |t.seats| < t.maxPlayers
    ensures !AddPlayer(t, sid, name).1 ==> AddPlayer(t, sid, name).0 == t
  {
  }

  /** A join into a free place gives the sid the fresh record, keeps every
      other seat and its place, adds a seat exactly when the sid was new,
      keeps the keys distinct, and changes nothing but the seats.  The
      chips on the table change by the starting stack less whatever the
      sid's old record held. */
  lemma AddPlayerSeats(t: Table, sid: string, name: string)
    requires |t.seats| < t.maxPlayers && UniqueSids(t.seats)
    ensures var u := AddPlayer(t, sid, name).0;
      var i := IndexOf(t.seats, sid);
      && u == t.(seats := u.seats)
      && UniqueSids(u.seats)
      && (Seated(t.seats, sid) ==> |u.seats| == |t.seats|)
      && (!Seated(t.seats, sid) ==> |u.seats| == |t.seats| + 1)
      && i < |u.seats| && u.seats[i] == NewSeat(sid, name)
      && (forall j :: 0 <= j < |t.seats| && j != i ==> u.seats[j] == t.seats[j])
      && Chips(u) == Chips(t) + StartingChips - (if i < |t.seats| then t.seats[i].chips else 0)
  {
    var u := AddPlayer(t, sid, name).0;
    var i := IndexOf(t.seats, sid);
    if i < |t.seats| {
      assert Stacks(u.seats) == Stacks(t.seats)[i := StartingChips];
      SumUpdate(Stacks(t.seats), i, StartingChips);
    } else {
      assert Stacks(u.seats) == Stacks(t.seats) + [StartingChips];
      SumAppend(Stacks(t.seats), StartingChips);
    }
  }

  /** The seats with the one at position i deleted. */
  function Without(seats: seq<Seat>, i: nat): (r: seq<Seat>)
    requires i < |seats|
    ensures |r| == |seats| - 1
    ensures forall j :: 0 <= j < |r| ==> r[j] == seats[if j < i then j else j + 1]
  {
    seats[..i] + seats[i + 1..]
  }

  /** `remove_player`.  An unknown sid changes nothing.  Otherwise the
      record is deleted; during a round that leaves seats, a dealer or turn
      index past the end goes back to 0, and a single remaining seat takes
      the pot (which is not cleared) and the table goes to the showdown. */
  function RemovePlayer(t: Table, sid: string): Table
  {
    var i := IndexOf(t.seats, sid);
    if i == |t.seats| then t
    else
      var rest := Without(t.seats, i);
      var u := t.(seats := rest);
      if t.state == Waiting || |rest| == 0 then u
      else
        var v := u.(dealer := if t.dealer >= |rest| then 0 else t.dealer,
                    current := if t.current >= |rest| then 0 else t.current);
        if |rest| == 1 then
          v.(seats := [rest[0].(chips := rest[0].chips + t.pot, isWinner := true)], state := Showdown)
        else v
  }

  lemma RemoveAbsent(t: Table, sid: string)
    requires !Seated(t.seats, sid)
    ensures RemovePlayer(t, sid) == t
  {
  }

  /** Removing a seated sid drops exactly its record, so the sid is no
      longer seated and the keys stay distinct; unless a single seat is
      left during a round, the others keep their records and their order. */
  lemma RemoveDropsRecord(t: Table, sid: string)
    requires Seated(t.seats, sid) && UniqueSids(t.seats)
    ensures var u := RemovePlayer(t, sid);
      var i := IndexOf(t.seats, sid);
      && |u.seats| == |t.seats| - 1
      && !Seated(u.seats, sid)
      && UniqueSids(u.seats)
      && (|u.seats| != 1 || t.state == Waiting ==> u.seats == Without(t.seats, i))
  {
    var i := IndexOf(t.seats, sid);
    var u := RemovePlayer(t, sid);
    if |u.seats| == 1 && t.state != Waiting {
      assert u.seats[0].sid == Without(t.seats, i)[0].sid;
    }
  }

  /** During a round with seats left both indices point at a seat; outside
      a round, or with no seat left, nothing but the seats changes. */
  lemma RemoveRepairsIndices(t: Table, sid: string)
    requires Seated(t.seats, sid)
    ensures var u := RemovePlayer(t, sid);
      && (t.state == Waiting || |u.seats| == 0 ==> u == t.(seats := u.seats))
      && (t.state != Waiting && |u.seats| > 0 ==> u.dealer < |u.seats| && u.current < |u.seats|)
  {
  }

  /** When a round loses all but one seat, that seat takes the pot and is
      marked the winner, the table goes to the showdown, and the pot keeps
      its amount; the departed seat's chips leave the table with it. */
  lemma RemoveLeavesOne(t: Table, sid: string)
    requires Seated(t.seats, sid) && |t.seats| == 2 && t.state != Waiting
    ensures var u := RemovePlayer(t, sid);
      var i := IndexOf(t.seats, sid);
      var s := t.seats[1 - i];
      && u.seats == [s.(chips := s.chips + t.pot, isWinner := true)]
      && u.state == Showdown && u.pot == t.pot
      && u.dealer == 0 && u.current == 0
      && Chips(u) == Chips(t) - t.seats[i].chips + t.pot
  {
    var i := IndexOf(t.seats, sid);
    var a := t.seats[0].chips;
    var b := t.seats[1].chips;
    assert Stacks(t.seats) == [] + [a] + [b];
    SumAppend([], a);
    SumAppend([a], b);
    var u := RemovePlayer(t, sid);
    var c := u.seats[0].chips;
    assert Stacks(u.seats) == [] + [c];
    SumAppend([], c);
  }

  /** One seat as a client sees it. */
  datatype PlayerView = PlayerView(sid: string, name: string, chips: int, bet: int, folded: bool,
                                   allIn: bool, isWinner: bool, score: Option<seq<int>>,
                                   hand: seq<CardDict>)

  /** The table as a client sees it. */
  datatype TableView = TableView(pot: int, community: seq<CardDict>, currentBet: int, state: Phase,
                                 currentPlayer: Option<string>, maxPlayers: int, bigBlind: int,
                                 lastRaise: int, minRaise: int, players: seq<PlayerView>)

  function Dicts(cards: seq<Card>): (r: seq<CardDict>)
    ensures |r| == |cards| && forall i :: 0 <= i < |cards| ==> r[i] == ToDict(cards[i])
  {
    seq(|cards|, i requires 0 <= i < |cards| => ToDict(cards[i]))
  }

  /** A seat's cards as sent to the client `forSid`: none for an empty hand,
      the cards to their owner and to everyone at the showdown, and one
      hidden card per card to everyone else. */
  function HandView(s: Seat, forSid: string, state: Phase): seq<CardDict>
  {
    if s.hand == [] then []
    else if s.sid == forSid || state == Showdown then Dicts(s.hand)
    else seq(|s.hand|, _ => Hidden)
  }

  function SeatView(s: Seat, forSid: string, state: Phase): PlayerView
  {
    PlayerView(s.sid, s.name, s.chips, s.bet, s.folded, s.allIn, s.isWinner, s.score,
               HandView(s, forSid, state))
  }

  /** `get_game_state(for_player_sid)`.  Outside the waiting state the
      current player's sid is looked up by index, which raises when the
      index is past the end. */
  function GameState(t: Table, forSid: string): Call<TableView>
  {
    if t.state != Waiting && t.current >= |t.seats| then Raised(t, IndexError)
    else
      Returned(t, TableView(t.pot, Dicts(t.community), t.currentBet, t.state,
                            if t.state == Waiting then None else Some(t.seats[t.current].sid),
                            t.maxPlayers, BigBlind, t.lastRaise, t.minRaise,
                            SeatViews(t.seats, forSid, t.state)))
  }

  /** Every seat as the client `forSid` sees it, in seat order. */
  function SeatViews(seats: seq<Seat>, forSid: string, state: Phase): (r: seq<PlayerView>)
    ensures |r| == |seats| && forall j :: 0 <= j < |seats| ==> r[j] == SeatView(seats[j], forSid, state)
  {
    seq(|seats|, j requires 0 <= j < |seats| => SeatView(seats[j], forSid, state))
  }

  /** The view is refused exactly when a round is on and the turn index is
      past the last seat; it never changes the table, lists every seat in
      order, and names the seat whose turn it is. */
  lemma GameStateShape(t: Table, forSid: string)
    ensures GameState(t, forSid).Raised? <==> t.state != Waiting && t.current >= |t.seats|
    ensures GameState(t, forSid).table == t
    ensures GameState(t, forSid).Returned? ==>
      var v := GameState(t, forSid).value;
      && |v.players| == |t.seats|
      && (forall j :: 0 <= j < |t.seats| ==>
            && v.players[j].sid == t.seats[j].sid
            && v.players[j].chips == t.seats[j].chips
            && |v.players[j].hand| == |t.seats[j].hand|)
      && (v.currentPlayer.Some? <==> t.state != Waiting)
      && (v.currentPlayer.Some? ==> v.currentPlayer.value == t.seats[t.current].sid)
  {
  }

  /** Before the showdown a client receives only hidden cards for every
      other seat; its own cards and, at the showdown, everyone's, are sent
      as they are. */
  lemma HoleCardsRedacted(t: Table, forSid: string, j: nat)
    requires GameState(t, forSid).Returned? && j < |t.seats|
    ensures var h := GameState(t, forSid).value.players[j].hand;
      && (t.seats[j].sid != forSid && t.state != Showdown ==> forall k :: 0 <= k < |h| ==> h[k] == Hidden)
      && (t.seats[j].sid == forSid || t.state == Showdown ==>
            forall k :: 0 <= k < |h| ==> h[k] == ToDict(t.seats[j].hand[k]))
  {
  }

  /** What a client is sent about another seat before the showdown does not
      depend on which cards that seat holds, only on how many. */
  lemma OthersCardsUnseen(t: Table, forSid: string, j: nat, cards: seq<Card>)
    requires GameState(t, forSid).Returned? && j < |t.seats|
    requires t.seats[j].sid != forSid && t.state != Showdown && |cards| == |t.seats[j].hand|
    ensures GameState(t.(seats := t.seats[j := t.seats[j].(hand := cards)]), forSid).value
         == GameState(t, forSid).value
  {
    var t2 := t.(seats := t.seats[j := t.seats[j].(hand := cards)]);
    var p := GameState(t, forSid).value.players;
    var p2 := GameState(t2, forSid).value.players;
    forall k | 0 <= k < |t.seats|
      ensures p2[k] == p[k]
    {
      if k == j {
        assert HandView(t2.seats[k], forSid, t.state) == HandView(t.seats[k], forSid, t.state);
      }
    }
  }

  /** A client's own hand, when its cards are showing, is sent so that the
      cards can be read back: two hands that are sent alike are equal. */
  lemma OwnCardsReadable(s: Seat, s2: Seat, forSid: string, state: Phase)
    requires s.sid == forSid && s2.sid == forSid
    requires forall k :: 0 <= k < |s.hand| ==> s.hand[k].showing
    requires forall k :: 0 <= k < |s2.hand| ==> s2.hand[k].showing
    requires HandView(s, forSid, state) == HandView(s2, forSid, state)
    ensures s.hand == s2.hand
  {
    var h := HandView(s, forSid, state);
    assert |s.hand| == |s2.hand|;
    forall k | 0 <= k < |s.hand|
      ensures s.hand[k] == s2.hand[k]
    {
      assert h[k] == ToDict(s.hand[k]) == ToDict(s2.hand[k]);
      ShownDictIdentifies(s.hand[k], s2.hand[k]);
    }
  }
}
