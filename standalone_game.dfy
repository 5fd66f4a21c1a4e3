/** The standalone table of game.py as the object it is: a list of player
    objects, a deck object, the community cards and the betting fields, all
    updated in place.  The ghost field `seats` holds what the player objects
    hold, seat by seat, and every method is proved to move the table, read
    through `View()`, exactly as the matching function of StandaloneRules
    says; what those functions mean is proved there. */
module StandaloneGame {
  import opened CardDeck
  import opened PlayerModel
  import opened StandaloneRules
  import opened Seating
  import Shuffling

  /** What a player object contributes to the table; cards are seen by face. */
  function SeatOf(p: Player): Seat
    reads p
  {
    Seat(p.name, p.chips, p.currentBet, p.isActive, Faces(p.hand))
  }

  function SeatsOf(ps: seq<Player>): (s: seq<Seat>)
    reads ps
    ensures |s| == |ps| && forall i :: 0 <= i < |ps| ==> s[i] == SeatOf(ps[i])
  {
    seq(|ps|, i reads ps requires 0 <= i < |ps| => SeatOf(ps[i]))
  }

  /** Cutting a prefix down further is cutting the whole down at once. */
  lemma PrefixOfPrefix<T>(s: seq<T>, a: nat, b: nat)
    requires b <= a <= |s|
    ensures s[..a][..b] == s[..b]
  {
  }

  /** The seats after the first i draws of one round of the deal: seat j < i
      holds the card j places from the end of the deck. */
  function DealtSoFar(seats: seq<Seat>, cards: seq<CardFace>, i: nat): (d: seq<Seat>)
    requires i <= |seats| && i <= |cards|
    ensures |d| == |seats|
  {
    seq(|seats|, j requires 0 <= j < |seats| =>
      if j < i then seats[j].(hand := seats[j].hand + [cards[|cards| - 1 - j]]) else seats[j])
  }

  /** One more draw deals seat i. */
  lemma DealtSoFarStep(seats: seq<Seat>, cards: seq<CardFace>, i: nat)
    requires i < |seats| && i < |cards|
    ensures DealtSoFar(seats, cards, i + 1) ==
      DealtSoFar(seats, cards, i)[i := seats[i].(hand := seats[i].hand + [cards[|cards| - 1 - i]])]
  {
  }

  /** No draw yet leaves the seats as they were. */
  lemma DealtSoFarStart(seats: seq<Seat>, cards: seq<CardFace>)
    ensures DealtSoFar(seats, cards, 0) == seats
  {
  }

  /** A draw for every seat is the whole round. */
  lemma DealtSoFarEnds(seats: seq<Seat>, cards: seq<CardFace>)
    requires |seats| <= |cards|
    ensures DealtSoFar(seats, cards, |seats|) == DealtRound(seats, cards)
  {
  }

  /** The seats after both rounds of the deal ran out of cards: the draws
      that succeeded are kept, as Python keeps them when `draw` raises. */
  function DealtPartly(seats: seq<Seat>, cards: seq<CardFace>): (d: seq<Seat>)
    requires |cards| < 2 * |seats|
    ensures |d| == |seats|
  {
    var m, n := |cards|, |seats|;
    if m < n then DealtSoFar(seats, cards, m)
    else DealtSoFar(DealtRound(seats, cards), cards[..m - n], m - n)
  }

  /** After a deal that ran out, seat j has its round-one card exactly when
      the deck reached it (position m - 1 - j) and its round-two card exactly
      when the deck reached that (position m - 1 - n - j). */
  lemma DealtPartlyHands(seats: seq<Seat>, cards: seq<CardFace>)
    requires |cards| < 2 * |seats|
    ensures var m, n, d := |cards|, |seats|, DealtPartly(seats, cards);
      forall j :: 0 <= j < n ==>
        d[j] == seats[j].(hand := seats[j].hand + (if j < m then [cards[m - 1 - j]] else [])
                                                + (if n + j < m then [cards[m - 1 - n - j]] else []))
  {
  }

  /** Where `start_new_hand` stops when it raises: the reset table with the
      deal as far as the deck reached, or (on a table without players) the
      whole deal before `_post_blinds` divides by zero. */
  function NewHandStopped(t: Table, cards: seq<CardFace>): Table
  {
    var r := Reopened(t);
    if 2 * |r.seats| > |cards| then r.(seats := DealtPartly(r.seats, cards))
    else DealtHoles(r, cards)
  }

  /** A new hand raises only on a deck too short for the deal or on an empty
      table.  On the short deck every seat is reset and holds the cards the
      deck reached; on the empty table the reset table is what is left. */
  lemma NewHandStoppedIs(t: Table, cards: seq<CardFace>)
    requires NewHand(t, cards).Raised?
    ensures 2 * |t.seats| > |cards| || |t.seats| == 0
    ensures |t.seats| == 0 ==> NewHandStopped(t, cards) == Reopened(t)
    ensures var m, n, u := |cards|, |t.seats|, NewHandStopped(t, cards);
      2 * n > m ==>
        && u == Reopened(t).(seats := u.seats) && |u.seats| == n
        && forall j :: 0 <= j < n ==>
             u.seats[j] == ResetSeat(t.seats[j]).(hand := (if j < m then [cards[m - 1 - j]] else [])
                                                        + (if n + j < m then [cards[m - 1 - n - j]] else []))
  {
    var r := Reopened(t);
    if 2 * |t.seats| > |cards| {
      DealtPartlyHands(r.seats, cards);
    } else {
      assert |t.seats| == 0;
      assert DealtHoles(r, cards).seats == r.seats;
    }
  }

  /** The bet of seat i moves into the pot. */
  function CollectSeat(u: Table, i: nat): (v: Table)
    requires i < |u.seats|
    ensures |v.seats| == |u.seats|
  {
    u.(seats := u.seats[i := u.seats[i].(bet := 0)], pot := u.pot + u.seats[i].bet)
  }

  /** The table after the bets of the first i seats have moved into the pot,
      one seat at a time. */
  function CollectedSoFar(t: Table, i: nat): (u: Table)
    requires i <= |t.seats|
    ensures |u.seats| == |t.seats|
  {
    if i == 0 then t else CollectSeat(CollectedSoFar(t, i - 1), i - 1)
  }

  /** After i seats, those seats' bets are zero, the rest are untouched, and
      the pot has grown by the sum of the first i bets. */
  lemma {:induction false} CollectedSoFarIs(t: Table, i: nat)
    requires i <= |t.seats|
    ensures var u := CollectedSoFar(t, i);
      && u == t.(seats := u.seats, pot := u.pot)
      && (forall j :: 0 <= j < |t.seats| ==> u.seats[j] == if j < i then t.seats[j].(bet := 0) else t.seats[j])
      && u.pot == t.pot + Tally.Sum(Bets(t.seats)[..i])
  {
    if i == 0 {
      assert Bets(t.seats)[..0] == [];
    } else {
      CollectedSoFarIs(t, i - 1);
      Tally.SumPrefixStep(Bets(t.seats), i - 1);
    }
  }

  /** Nothing collected is the table as it was; every seat collected is `Collect`. */
  lemma CollectedSoFarEnds(t: Table)
    ensures CollectedSoFar(t, |t.seats|) == Collect(t)
  {
    var n := |t.seats|;
    CollectedSoFarIs(t, n);
    assert Bets(t.seats)[..n] == Bets(t.seats);
    assert CollectedSoFar(t, n).seats == Collect(t).seats;
  }

  /** The seats after the first i players have been reset for a new hand. */
  function ResetSoFar(seats: seq<Seat>, i: nat): (r: seq<Seat>)
    requires i <= |seats|
    ensures |r| == |seats|
  {
    seq(|seats|, j requires 0 <= j < |seats| => if j < i then ResetSeat(seats[j]) else seats[j])
  }

  class PokerGame {
    var players: seq<Player>
    var deck: Deck
    var communityCards: seq<Card>
    var pot: int
    var currentBet: int
    var dealerIndex: int
    const smallBlind: int := SmallBlind
    const bigBlind: int := BigBlind
    var currentPlayerIndex: int
    var gameState: GameState
    var lastRaise: int
    var minimumRaise: int

    /** What the player objects hold, seat by seat. */
    ghost var seats: seq<Seat>
    /** The seat of each player object; that there is one shows no object
        sits at two seats. */
    ghost var seatIndex: map<Player, int>

    /** Seat i holds what player object i holds, no object sits at two seats,
        and both seat indices are positions of the list (or 0 while it is
        empty). */
    ghost predicate Valid()
      reads this, players
    {
      && |seats| == |players|
      && (forall i :: 0 <= i < |players| ==> players[i] in seatIndex && seatIndex[players[i]] == i)
      && (forall i :: 0 <= i < |players| ==> SeatOf(players[i]) == seats[i])
      && 0 <= dealerIndex && (dealerIndex < |players| || dealerIndex == 0)
      && 0 <= currentPlayerIndex && (currentPlayerIndex < |players| || currentPlayerIndex == 0)
    }

    /** The table the object holds. */
    ghost function View(): Table
      reads this
    {
      Table(seats, pot, currentBet, dealerIndex, currentPlayerIndex, gameState, lastRaise, minimumRaise)
    }

    /** The seats read off the player objects are the ghost seats. */
    lemma SeatsAreRead()
      requires Valid()
      ensures SeatsOf(players) == seats
    {
    }

    /** `__init__`: one new player per name with the starting stack, a
        freshly shuffled deck, and a waiting table with the button at seat 0. */
    constructor (playerNames: seq<string>, startingChips: int, choices: seq<nat>)
      ensures Valid() && fresh(deck) && communityCards == []
      ensures forall p :: p in players ==> fresh(p)
      ensures Faces(deck.cards) == Shuffling.Shuffled(FaceOrder(), choices)
      ensures View() == Table(seq(|playerNames|, i requires 0 <= i < |playerNames| =>
                                    Seat(playerNames[i], startingChips, 0, true, [])),
                              0, 0, 0, 0, Waiting, 0, BigBlind)
    {
      var ps: seq<Player> := [];
      ghost var ss: seq<Seat> := [];
      ghost var at: map<Player, int> := map[];
      var i := 0;
      while i < |playerNames|
        invariant i <= |playerNames| && |ps| == i && |ss| == i
        invariant forall j :: 0 <= j < i ==> ps[j] in at && at[ps[j]] == j
        invariant forall j :: 0 <= j < i ==>
          && fresh(ps[j]) && SeatOf(ps[j]) == ss[j]
          && ss[j] == Seat(playerNames[j], startingChips, 0, true, [])
      {
        var p := new Player(playerNames[i], startingChips);
        ps := ps + [p];
        ss := ss + [SeatOf(p)];
        at := at[p := i];
        i := i + 1;
      }
      players := ps;
      seats := ss;
      seatIndex := at;
      deck := new Deck(choices);
      communityCards := [];
      pot := 0;
      currentBet := 0;
      dealerIndex := 0;
      currentPlayerIndex := 0;
      gameState := Waiting;
      lastRaise := 0;
      minimumRaise := bigBlind;
    }

    /** `add_player`: raises when ten players are seated or the name is taken;
        otherwise appends a new player with the default stack. */
    method AddPlayer(name: string) returns (r: Outcome<bool>)
      requires Valid()
      modifies this
      ensures Valid()
      ensures deck == old(deck) && communityCards == old(communityCards)
      ensures |old(players)| >= MaxPlayers ==> r == Raised(MaxPlayersReached)
      ensures |old(players)| < MaxPlayers && FindSeat(old(seats), name) >= 0 ==>
        r == Raised(NameAlreadyTaken)
      ensures r.Raised? ==> players == old(players) && View() == old(View())
      ensures |old(players)| < MaxPlayers && FindSeat(old(seats), name) < 0 ==>
        && r == Ok(true)
        && |players| == |old(players)| + 1
        && players[..|old(players)|] == old(players) && fresh(players[|players| - 1])
        && View() == old(View()).(seats := old(seats) + [Seat(name, DefaultChips, 0, true, [])])
    {
      if |players| >= MaxPlayers {
        return Raised(MaxPlayersReached);
      }
      SeatsAreRead();
      var at := FindSeat(SeatsOf(players), name);
      if at >= 0 {
        return Raised(NameAlreadyTaken);
      }
      var p := new Player(name, DefaultChips);
      seatIndex := seatIndex[p := |players|];
      players := players + [p];
      seats := seats + [SeatOf(p)];
      r := Ok(true);
    }

    /** `_next_player`: steps round the table from the current seat to the
        next player still in the hand. */
    method NextPlayer() returns (r: Outcome<()>)
      requires Valid()
      modifies this
      ensures Valid() && players == old(players)
      ensures deck == old(deck) && communityCards == old(communityCards)
      ensures PassTurn(old(View())).Raised? ==>
        r == Raised(PassTurn(old(View())).error) && View() == old(View())
      ensures PassTurn(old(View())).Ok? ==> r == Ok(()) && View() == PassTurn(old(View())).value
    {
      var n := |players|;
      if n == 0 {
        return Raised(ZeroDivision);
      }
      var from := currentPlayerIndex;
      ghost var flags := Flags(seats);
      var k := 1;
      while k <= n && !players[(from + k) % n].isActive
        invariant 1 <= k <= n + 1
        invariant NextSeat(flags, from, k) == NextSeat(flags, from, 1)
        decreases n + 1 - k
      {
        assert !Around(flags, from, k);
        k := k + 1;
      }
      assert NextSeat(flags, from, 1) == k;
      if k > n {
        return Raised(Hangs);
      }
      currentPlayerIndex := (from + k) % n;
      r := Ok(());
    }

    /** One blind of `_post_blinds`: the player at seat i places the bet, a
        refusal being ignored. */
    method PayBlind(i: int, amount: int)
      requires Valid() && 0 <= i < |players|
      modifies this, players[i]
      ensures Valid() && players == old(players)
      ensures deck == old(deck) && communityCards == old(communityCards)
      ensures View() == old(View()).(seats := PayAt(old(seats), i, amount))
    {
      var paid := players[i].PlaceBet(amount);
      seats := seats[i := SeatOf(players[i])];
    }

    /** `_post_blinds`. */
    method PostBlinds() returns (r: Outcome<()>)
      requires Valid()
      modifies this, players
      ensures Valid() && players == old(players)
      ensures deck == old(deck) && communityCards == old(communityCards)
      ensures Blinds(old(View())).Raised? ==>
        r == Raised(Blinds(old(View())).error) && View() == old(View())
      ensures Blinds(old(View())).Ok? ==> r == Ok(()) && View() == Blinds(old(View())).value
    {
      var n := |players|;
      if n == 0 {
        return Raised(ZeroDivision);
      }
      PayBlind((dealerIndex + 1) % n, smallBlind);
      PayBlind((dealerIndex + 2) % n, bigBlind);
      OpenBlindBetting(n);
      r := Ok(());
    }

    /** The end of `_post_blinds`: the big blind is the bet to match, the pot
        holds both blinds, and the turn goes to the seat after the big blind. */
    method OpenBlindBetting(n: int)
      requires Valid() && n == |players| > 0
      modifies this
      ensures Valid() && players == old(players)
      ensures deck == old(deck) && communityCards == old(communityCards)
      ensures View() == old(View()).(currentBet := BigBlind, pot := SmallBlind + BigBlind,
                                     current := (old(dealerIndex) + 3) % n)
    {
      currentBet, pot, currentPlayerIndex := bigBlind, smallBlind + bigBlind, (dealerIndex + 3) % n;
    }

    /** One step of `collect_bets`: the bet of seat i moves into the pot. */
    method CollectFrom(ghost t: Table, i: nat)
      requires Valid() && i < |players| == |t.seats| && View() == CollectedSoFar(t, i)
      modifies this, players[i]
      ensures Valid() && players == old(players)
      ensures deck == old(deck) && communityCards == old(communityCards)
      ensures View() == CollectedSoFar(t, i + 1)
    {
      pot := pot + players[i].currentBet;
      players[i].currentBet := 0;
      seats := seats[i := SeatOf(players[i])];
    }

    /** `collect_bets`: every player's bet moves into the pot, seat by seat. */
    method CollectBets()
      requires Valid()
      modifies this, players
      ensures Valid() && players == old(players)
      ensures deck == old(deck) && communityCards == old(communityCards)
      ensures View() == Collect(old(View()))
    {
      ghost var t := View();
      for i := 0 to |players|
        invariant Valid() && players == old(players)
        invariant deck == old(deck) && communityCards == old(communityCards)
        invariant View() == CollectedSoFar(t, i)
      {
        CollectFrom(t, i);
      }
      CollectedSoFarEnds(t);
    }

    /** `_end_hand` for the winner at seat w. */
    method EndHand(w: int)
      requires Valid() && 0 <= w < |players|
      modifies this, players[w]
      ensures Valid() && players == old(players)
      ensures deck == old(deck) && communityCards == old(communityCards)
      ensures View() == WinAt(old(View()), w)
    {
      players[w].WinPot(pot);
      seats := seats[w := SeatOf(players[w])];
      gameState := Waiting;
      dealerIndex := (dealerIndex + 1) % |players|;
    }

    /** `_check_hand_end`: the first (and only) player left in the hand wins
        when exactly one is left. */
    method CheckHandEnd() returns (ended: bool)
      requires Valid()
      modifies this, players
      ensures Valid() && players == old(players)
      ensures deck == old(deck) && communityCards == old(communityCards)
      ensures (View(), ended) == HandEnd(old(View()))
    {
      SeatsAreRead();
      var flags := Flags(SeatsOf(players));
      if Tally.CountTrue(flags) == 1 {
        Tally.FirstTrueFound(flags);
        var w := Tally.FirstTrue(flags);
        EndHand(w);
        return true;
      }
      ended := false;
    }

    /** After a street: the deck lost its last `1 + count` cards (one burnt),
        and the community cards gained the drawn ones face up, in drawing order,
        which walks the old deck backwards from second-to-last. */
    ghost predicate StreetDealt(oldCards: seq<Card>, oldCommunity: seq<Card>, count: nat)
      reads this, deck, communityCards
    {
      var m := |oldCards|;
      && m > count
      && deck.cards == oldCards[..m - 1 - count]
      && |communityCards| == |oldCommunity| + count
      && communityCards[..|oldCommunity|] == oldCommunity
      && forall j :: |oldCommunity| <= j < |communityCards| ==>
           communityCards[j] == oldCards[m - 2 - (j - |oldCommunity|)] && communityCards[j].faceUp
    }

    /** After a street that ran out of cards: the deck is empty, and every
        card after the burnt one already sits face up on the board, in drawing
        order, as Python leaves it when `draw` raises. */
    ghost predicate StreetRanOut(oldCards: seq<Card>, oldCommunity: seq<Card>)
      reads this, deck, communityCards
    {
      var m := |oldCards|;
      && deck.cards == []
      && |communityCards| == |oldCommunity| + (if m == 0 then 0 else m - 1)
      && communityCards[..|oldCommunity|] == oldCommunity
      && forall j :: |oldCommunity| <= j < |communityCards| ==>
           communityCards[j] == oldCards[m - 2 - (j - |oldCommunity|)] && communityCards[j].faceUp
    }

    /** The burn and the draws of a street: `count` cards from the end of the
        deck, each turned face up and appended to the community cards. */
    method DrawStreet(count: nat) returns (r: Outcome<()>)
      modifies this, deck, deck.cards
      ensures deck == old(deck) && players == old(players) && seats == old(seats) && seatIndex == old(seatIndex)
      ensures View() == old(View())
      ensures |old(deck.cards)| <= count ==>
        r == Raised(DeckEmpty) && StreetRanOut(old(deck.cards), old(communityCards))
      ensures |old(deck.cards)| > count ==> r == Ok(()) && StreetDealt(old(deck.cards), old(communityCards), count)
      ensures forall p :: p in players ==> unchanged(p)
    {
      ghost var m := |deck.cards|;
      var burn := deck.Draw();
      if burn.DrawFailed? {
        assert communityCards[..|communityCards|] == communityCards;
        return Raised(DeckEmpty);
      }
      var k := 0;
      while k < count
        invariant k <= count && k < m && deck == old(deck)
        invariant deck.cards == old(deck.cards)[..m - 1 - k]
        invariant |communityCards| == |old(communityCards)| + k
        invariant communityCards[..|old(communityCards)|] == old(communityCards)
        invariant forall j :: |old(communityCards)| <= j < |communityCards| ==>
          communityCards[j] == old(deck.cards)[m - 2 - (j - |old(communityCards)|)] && communityCards[j].faceUp
        invariant players == old(players) && seats == old(seats) && seatIndex == old(seatIndex)
        invariant View() == old(View())
        invariant forall p :: p in players ==> unchanged(p)
      {
        var drawn := deck.Draw();
        if drawn.DrawFailed? {
          return Raised(DeckEmpty);
        }
        var card := drawn.value;
        card.faceUp := true;
        communityCards := communityCards + [card];
        k := k + 1;
      }
      r := Ok(());
    }

    /** The body shared by `deal_flop`, `deal_turn` and `deal_river`: only in
        state `from` does it burn a card, deal `count` cards face up, move to
        state `to`, clear the bet to match and give the turn to the seat after
        the dealer.  A deck that runs out raises; so does the modulo by an
        empty table, after the street has been dealt. */
    method DealStreet(from: GameState, to: GameState, count: nat) returns (r: Outcome<bool>)
      requires Valid()
      modifies this, deck, deck.cards
      ensures Valid() && players == old(players) && deck == old(deck)
      ensures old(gameState) != from ==> r == Ok(false) && unchanged(this) && unchanged(deck)
      ensures old(gameState) == from && |old(deck.cards)| <= count ==>
        r == Raised(DeckEmpty) && StreetRanOut(old(deck.cards), old(communityCards)) && View() == old(View())
      ensures old(gameState) == from && |old(deck.cards)| > count ==>
        && StreetDealt(old(deck.cards), old(communityCards), count)
        && (|players| == 0 ==>
              r == Raised(ZeroDivision) && View() == old(View()).(state := to, currentBet := 0))
        && (|players| > 0 ==>
              && r == Ok(true)
              && View() == old(View()).(state := to, currentBet := 0,
                                        current := (dealerIndex + 1) % |players|))
    {
      if gameState != from {
        return Ok(false);
      }
      var drew := DrawStreet(count);
      if drew.Raised? {
        return Raised(drew.error);
      }
      gameState := to;
      currentBet := 0;
      if |players| == 0 {
        return Raised(ZeroDivision);
      }
      currentPlayerIndex := (dealerIndex + 1) % |players|;
      r := Ok(true);
    }

    /** `deal_flop`: from preflop, burns one card and deals three face up. */
    method DealFlop() returns (r: Outcome<bool>)
      requires Valid()
      modifies this, deck, deck.cards
      ensures Valid() && players == old(players) && deck == old(deck)
      ensures old(gameState) != Preflop ==> r == Ok(false) && unchanged(this) && unchanged(deck)
      ensures old(gameState) == Preflop && |old(deck.cards)| <= 3 ==>
        r == Raised(DeckEmpty) && StreetRanOut(old(deck.cards), old(communityCards)) && View() == old(View())
      ensures old(gameState) == Preflop && |old(deck.cards)| > 3 ==>
        StreetDealt(old(deck.cards), old(communityCards), 3)
      ensures old(gameState) == Preflop && |old(deck.cards)| > 3 && |players| == 0 ==>
        r == Raised(ZeroDivision) && View() == old(View()).(state := Flop, currentBet := 0)
      ensures old(gameState) == Preflop && |old(deck.cards)| > 3 && |players| > 0 ==>
        r == Ok(true) && View() == old(View()).(state := Flop, currentBet := 0, current := (dealerIndex + 1) % |players|)
    {
      r := DealStreet(Preflop, Flop, 3);
    }

    /** `deal_turn`: from the flop, burns one card and deals one face up. */
    method DealTurn() returns (r: Outcome<bool>)
      requires Valid()
      modifies this, deck, deck.cards
      ensures Valid() && players == old(players) && deck == old(deck)
      ensures old(gameState) != Flop ==> r == Ok(false) && unchanged(this) && unchanged(deck)
      ensures old(gameState) == Flop && |old(deck.cards)| <= 1 ==>
        r == Raised(DeckEmpty) && StreetRanOut(old(deck.cards), old(communityCards)) && View() == old(View())
      ensures old(gameState) == Flop && |old(deck.cards)| > 1 ==>
        StreetDealt(old(deck.cards), old(communityCards), 1)
      ensures old(gameState) == Flop && |old(deck.cards)| > 1 && |players| == 0 ==>
        r == Raised(ZeroDivision) && View() == old(View()).(state := Turn, currentBet := 0)
      ensures old(gameState) == Flop && |old(deck.cards)| > 1 && |players| > 0 ==>
        r == Ok(true) && View() == old(View()).(state := Turn, currentBet := 0, current := (dealerIndex + 1) % |players|)
    {
      r := DealStreet(Flop, Turn, 1);
    }

    /** `deal_river`: from the turn, burns one card and deals one face up. */
    method DealRiver() returns (r: Outcome<bool>)
      requires Valid()
      modifies this, deck, deck.cards
      ensures Valid() && players == old(players) && deck == old(deck)
      ensures old(gameState) != Turn ==> r == Ok(false) && unchanged(this) && unchanged(deck)
      ensures old(gameState) == Turn && |old(deck.cards)| <= 1 ==>
        r == Raised(DeckEmpty) && StreetRanOut(old(deck.cards), old(communityCards)) && View() == old(View())
      ensures old(gameState) == Turn && |old(deck.cards)| > 1 ==>
        StreetDealt(old(deck.cards), old(communityCards), 1)
      ensures old(gameState) == Turn && |old(deck.cards)| > 1 && |players| == 0 ==>
        r == Raised(ZeroDivision) && View() == old(View()).(state := River, currentBet := 0)
      ensures old(gameState) == Turn && |old(deck.cards)| > 1 && |players| > 0 ==>
        r == Ok(true) && View() == old(View()).(state := River, currentBet := 0, current := (dealerIndex + 1) % |players|)
    {
      r := DealStreet(Turn, River, 1);
    }

    /** The "bet" branch of `player_action` for seat i, up to the turn
        passing: refused below the minimum raise or when the stack cannot pay. */
    method BetTurn(i: int, amount: int) returns (accepted: bool)
      requires Valid() && 0 <= i < |players|
      modifies this, players[i]
      ensures Valid() && players == old(players)
      ensures deck == old(deck) && communityCards == old(communityCards)
      ensures accepted <==> old(minimumRaise) <= amount <= old(seats[i].chips)
      ensures !accepted ==> View() == old(View())
      ensures accepted ==> View() == BetAt(old(View()), i, amount)
    {
      if amount < minimumRaise {
        return false;
      }
      accepted := players[i].PlaceBet(amount);
      seats := seats[i := SeatOf(players[i])];
      if !accepted {
        return;
      }
      RecordRaise(amount);
    }

    /** The end of an accepted bet in `player_action`: the amount becomes the
        bet to match and the last raise, joins the pot, and doubles into the
        minimum raise. */
    method RecordRaise(amount: int)
      requires Valid()
      modifies this
      ensures Valid() && players == old(players)
      ensures deck == old(deck) && communityCards == old(communityCards)
      ensures View() == old(View()).(currentBet := amount, pot := old(pot) + amount,
                                     lastRaise := amount, minimumRaise := amount * 2)
    {
      currentBet := amount;
      pot := pot + amount;
      lastRaise := amount;
      minimumRaise := amount * 2;
    }

    /** The fold itself in the "fold" branch of `player_action`. */
    method FoldSeat(i: int)
      requires Valid() && 0 <= i < |players|
      modifies this, players[i]
      ensures Valid() && players == old(players)
      ensures deck == old(deck) && communityCards == old(communityCards)
      ensures View() == FoldAt(old(View()), i)
    {
      players[i].Fold();
      seats := seats[i := SeatOf(players[i])];
    }

    /** The "fold" branch of `player_action` for seat i. */
    method FoldTurn(i: int) returns (r: Outcome<bool>)
      requires Valid() && 0 <= i < |players|
      modifies this, players
      ensures Valid() && players == old(players)
      ensures deck == old(deck) && communityCards == old(communityCards)
      ensures FoldPlay(old(View()), i).Ok? ==> r == Ok(true) && View() == FoldPlay(old(View()), i).value
      ensures FoldPlay(old(View()), i).Raised? ==> r == Raised(FoldPlay(old(View()), i).error)
    {
      FoldSeat(i);
      var ended := CheckHandEnd();
      if ended {
        return Ok(true);
      }
      var moved := NextPlayer();
      if moved.Raised? {
        return Raised(moved.error);
      }
      r := Ok(true);
    }

    /** `player_action`: answers `Ok(false)` (and changes nothing) or
        `Ok(true)` exactly as `Act` refuses or accepts, and then holds the
        table `Act` gives. */
    method PlayerAction(name: string, action: Action, amount: int) returns (r: Outcome<bool>)
      requires Valid()
      modifies this, players
      ensures Valid() && players == old(players)
      ensures deck == old(deck) && communityCards == old(communityCards)
      ensures Act(old(View()), name, action, amount) == Ok(None) ==>
        r == Ok(false) && View() == old(View())
      ensures Act(old(View()), name, action, amount).Ok? && Act(old(View()), name, action, amount).value.Some? ==>
        r == Ok(true) && View() == Act(old(View()), name, action, amount).value.value
      ensures Act(old(View()), name, action, amount).Raised? ==>
        r == Raised(Act(old(View()), name, action, amount).error)
    {
      SeatsAreRead();
      var i := FindSeat(SeatsOf(players), name);
      if i < 0 || !players[i].isActive {
        return Ok(false);
      }
      if name != players[currentPlayerIndex].name {
        return Ok(false);
      }
      match action
      case Fold =>
        r := FoldTurn(i);
      case Bet =>
        var accepted := BetTurn(i, amount);
        if !accepted {
          return Ok(false);
        }
        r := PassOn();
      case Check =>
        if currentBet > 0 {
          return Ok(false);
        }
        r := PassOn();
      case OtherAction =>
        r := PassOn();
    }

    /** The closing `_next_player()` of `player_action`, answering True. */
    method PassOn() returns (r: Outcome<bool>)
      requires Valid()
      modifies this
      ensures Valid() && players == old(players)
      ensures deck == old(deck) && communityCards == old(communityCards)
      ensures PassTurn(old(View())).Ok? ==> r == Ok(true) && View() == PassTurn(old(View())).value
      ensures PassTurn(old(View())).Raised? ==> r == Raised(PassTurn(old(View())).error)
    {
      var moved := NextPlayer();
      if moved.Raised? {
        return Raised(moved.error);
      }
      r := Ok(true);
    }

    /** `reset_for_new_hand` on the player at seat i. */
    method ResetAt(i: int)
      requires Valid() && 0 <= i < |players|
      modifies this, players[i]
      ensures Valid() && players == old(players)
      ensures deck == old(deck) && communityCards == old(communityCards)
      ensures View() == old(View()).(seats := old(seats)[i := ResetSeat(old(seats)[i])])
    {
      players[i].ResetForNewHand();
      seats := seats[i := SeatOf(players[i])];
    }

    /** The `reset_for_new_hand` loop of `start_new_hand`. */
    method ResetPlayers()
      requires Valid()
      modifies this, players
      ensures Valid() && players == old(players)
      ensures deck == old(deck) && communityCards == old(communityCards)
      ensures View() == old(View()).(seats := Reopened(old(View())).seats)
    {
      ghost var t := View();
      var i := 0;
      assert ResetSoFar(t.seats, 0) == t.seats;
      while i < |players|
        invariant Valid() && i <= |players| && players == old(players)
        invariant deck == old(deck) && communityCards == old(communityCards)
        invariant View() == t.(seats := ResetSoFar(t.seats, i))
      {
        ResetAt(i);
        i := i + 1;
      }
      assert ResetSoFar(t.seats, i) == Reopened(t).seats;
    }

    /** `receive_card` for the player at seat i. */
    method GiveCard(i: int, card: Card)
      requires Valid() && 0 <= i < |players|
      modifies this, players[i]
      ensures Valid() && players == old(players)
      ensures deck == old(deck) && communityCards == old(communityCards)
      ensures View() == old(View()).(seats := old(seats)[i := old(seats)[i].(hand := old(seats)[i].hand + [Face(card)])])
    {
      FacesAppend(players[i].hand, card);
      players[i].ReceiveCard(card);
      seats := seats[i := SeatOf(players[i])];
    }

    /** One draw of the deal: the player at seat i takes the last card of the
        deck, or nothing happens when the deck is empty. */
    method DealOne(i: int) returns (dealt: bool)
      requires Valid() && 0 <= i < |players|
      modifies this, players[i], deck
      ensures Valid() && players == old(players) && deck == old(deck)
      ensures communityCards == old(communityCards)
      ensures dealt <==> old(deck.cards) != []
      ensures !dealt ==> View() == old(View()) && deck.cards == old(deck.cards)
      ensures dealt ==>
        && deck.cards == old(deck.cards)[..|old(deck.cards)| - 1]
        && View() == old(View()).(seats := old(seats)[i := old(seats)[i].(hand :=
             old(seats)[i].hand + [Face(old(deck.cards)[|old(deck.cards)| - 1])])])
    {
      var drawn := deck.Draw();
      if drawn.DrawFailed? {
        return false;
      }
      GiveCard(i, drawn.value);
      dealt := true;
    }

    /** One round of the deal in `start_new_hand`: each player in turn draws
        from the end of the deck.  A deck shorter than the table raises. */
    method DealRound() returns (r: Outcome<()>)
      requires Valid()
      modifies this, players, deck
      ensures Valid() && players == old(players) && deck == old(deck)
      ensures communityCards == old(communityCards)
      ensures |old(deck.cards)| < |players| ==>
        && r == Raised(DeckEmpty) && deck.cards == []
        && View() == old(View()).(seats := DealtSoFar(old(seats), Faces(old(deck.cards)), |old(deck.cards)|))
      ensures |players| <= |old(deck.cards)| ==>
        && r == Ok(())
        && deck.cards == old(deck.cards)[..|old(deck.cards)| - |players|]
        && View() == old(View()).(seats := DealtRound(old(seats), Faces(old(deck.cards))))
    {
      ghost var t := View();
      ghost var cards := deck.cards;
      ghost var m := |cards|;
      var i := 0;
      DealtSoFarStart(t.seats, Faces(cards));
      while i < |players|
        invariant Valid() && i <= |players| && i <= m && players == old(players)
        invariant deck == old(deck) && communityCards == old(communityCards)
        invariant deck.cards == cards[..m - i]
        invariant View() == t.(seats := DealtSoFar(t.seats, Faces(cards), i))
      {
        var dealt := DealOne(i);
        if !dealt {
          assert i == m;
          return Raised(DeckEmpty);
        }
        PrefixOfPrefix(cards, m - i, m - i - 1);
        DealtSoFarStep(t.seats, Faces(cards), i);
        i := i + 1;
      }
      DealtSoFarEnds(t.seats, Faces(cards));
      r := Ok(());
    }

    /** The two rounds of the deal in `start_new_hand`. */
    method DealHoleCards() returns (r: Outcome<()>)
      requires Valid()
      modifies this, players, deck
      ensures Valid() && players == old(players) && deck == old(deck)
      ensures communityCards == old(communityCards)
      ensures 2 * |players| > |old(deck.cards)| ==>
        && r == Raised(DeckEmpty) && deck.cards == []
        && View() == old(View()).(seats := DealtPartly(old(seats), Faces(old(deck.cards))))
      ensures 2 * |players| <= |old(deck.cards)| ==>
        && r == Ok(())
        && deck.cards == old(deck.cards)[..|old(deck.cards)| - 2 * |players|]
        && View() == DealtHoles(old(View()), Faces(old(deck.cards)))
    {
      ghost var cards := deck.cards;
      ghost var n := |players|;
      var dealt := DealRound();
      if dealt.Raised? {
        return Raised(dealt.error);
      }
      FacesPrefix(cards, |cards| - n);
      dealt := DealRound();
      if dealt.Raised? {
        return Raised(dealt.error);
      }
      PrefixOfPrefix(cards, |cards| - n, |cards| - 2 * n);
      FacesPrefix(cards, |cards| - n);
      r := Ok(());
    }

    /** The reset part of `start_new_hand`: a rebuilt deck shuffled by the
        given draws, no community cards, and the table as `Reopened` says. */
    method ResetTable(choices: seq<nat>)
      requires Valid()
      modifies this, players, deck
      ensures Valid() && players == old(players) && deck == old(deck)
      ensures Faces(deck.cards) == Shuffling.Shuffled(FaceOrder(), choices) && communityCards == []
      ensures View() == Reopened(old(View()))
    {
      deck.Reset(choices);
      ReopenBetting();
      ResetPlayers();
    }

    /** The table-wide resets of `start_new_hand`: no community cards, an
        empty pot, no bet to match, and preflop betting from the big blind. */
    method ReopenBetting()
      requires Valid()
      modifies this
      ensures Valid() && players == old(players) && deck == old(deck) && communityCards == []
      ensures View() == old(View()).(pot := 0, currentBet := 0, lastRaise := 0,
                                     minimumRaise := BigBlind, state := Preflop)
    {
      communityCards := [];
      pot := 0;
      currentBet := 0;
      lastRaise := 0;
      minimumRaise := bigBlind;
      gameState := Preflop;
    }

    /** The deal and the blinds of `start_new_hand`, from the deck as it
        stands. */
    method DealAndPost() returns (r: Outcome<()>)
      requires Valid()
      modifies this, players, deck
      ensures Valid() && players == old(players) && deck == old(deck)
      ensures communityCards == old(communityCards)
      ensures 2 * |players| > |old(deck.cards)| ==>
        && r == Raised(DeckEmpty) && deck.cards == []
        && View() == old(View()).(seats := DealtPartly(old(seats), Faces(old(deck.cards))))
      ensures 2 * |players| <= |old(deck.cards)| ==>
        && (Blinds(DealtHoles(old(View()), Faces(old(deck.cards)))).Raised? ==>
              && r == Raised(Blinds(DealtHoles(old(View()), Faces(old(deck.cards)))).error)
              && View() == DealtHoles(old(View()), Faces(old(deck.cards))))
        && (Blinds(DealtHoles(old(View()), Faces(old(deck.cards)))).Ok? ==>
              r == Ok(()) && View() == Blinds(DealtHoles(old(View()), Faces(old(deck.cards)))).value)
        && deck.cards == old(deck.cards)[..|old(deck.cards)| - 2 * |players|]
    {
      ghost var t, faces := View(), Faces(deck.cards);
      var dealt := DealHoleCards();
      if dealt.Raised? {
        return Raised(dealt.error);
      }
      assert View() == DealtHoles(t, faces);
      r := PostBlinds();
    }

    /** `start_new_hand`: the deck is rebuilt and shuffled by the given
        draws, the table is reset, two rounds are dealt and the blinds posted,
        as `NewHand` says of the shuffled creation order.  On a raise the
        table is `NewHandStopped`: the reset, and the deal as far as it got. */
    method StartNewHand(choices: seq<nat>) returns (r: Outcome<()>)
      requires Valid()
      modifies this, players, deck
      ensures Valid() && players == old(players) && deck == old(deck) && communityCards == []
      ensures
        var cards := Shuffling.Shuffled(FaceOrder(), choices);
        var u := NewHand(old(View()), cards);
        && (u.Raised? ==> r == Raised(u.error) && View() == NewHandStopped(old(View()), cards))
        && (u.Ok? ==> r == Ok(()) && View() == u.value)
      ensures 2 * |players| <= 52 ==>
        Faces(deck.cards) == Shuffling.Shuffled(FaceOrder(), choices)[..52 - 2 * |players|]
      ensures 2 * |players| > 52 ==> deck.cards == []
    {
      ResetTable(choices);
      ghost var cards := deck.cards;
      r := DealAndPost();
      if 2 * |players| <= 52 {
        FacesPrefix(cards, 52 - 2 * |players|);
      }
    }
  }
}
