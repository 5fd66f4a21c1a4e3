/** A seat of the standalone engine (player.py): a named player with a chip
    stack, the cards in hand, an in-hand flag and the chips bet so far. */
module PlayerModel {
  import opened CardDeck

  /** The stack a player gets when no other is named. */
  const DefaultChips: int := 1000

  class Player {
    const name: string
    var chips: int
    var hand: seq<Card>
    var isActive: bool
    var currentBet: int

    constructor (name: string, chips: int)
      ensures this.name == name && this.chips == chips
      ensures hand == [] && isActive && currentBet == 0
    {
      this.name := name;
      this.chips := chips;
      hand := [];
      isActive := true;
      currentBet := 0;
    }

    /** `receive_card` appends the card to the end of the hand. */
    method ReceiveCard(card: Card)
      modifies this
      ensures hand == old(hand) + [card]
      ensures chips == old(chips) && isActive == old(isActive) && currentBet == old(currentBet)
    {
      hand := hand + [card];
    }

    /** `clear_hand` empties the hand and the bet but keeps the in-hand flag. */
    method ClearHand()
      modifies this
      ensures hand == [] && currentBet == 0
      ensures chips == old(chips) && isActive == old(isActive)
    {
      hand := [];
      currentBet := 0;
    }

    /** `place_bet`: refused, with nothing changed, when the amount exceeds the
        stack; otherwise the amount moves from the stack to the bet, so their
        sum is kept and a non-negative stack stays non-negative. */
    method PlaceBet(amount: int) returns (ok: bool)
      modifies this
      ensures ok <==> amount <= old(chips)
      ensures ok ==> chips == old(chips) - amount && currentBet == old(currentBet) + amount
      ensures !ok ==> unchanged(this)
      ensures chips + currentBet == old(chips) + old(currentBet)
      ensures old(chips) >= 0 ==> chips >= 0
      ensures hand == old(hand) && isActive == old(isActive)
    {
      if amount > chips {
        return false;
      }
      chips := chips - amount;
      currentBet := currentBet + amount;
      ok := true;
    }

    /** `win_pot` adds the amount to the stack and touches nothing else. */
    method WinPot(amount: int)
      modifies this
      ensures chips == old(chips) + amount
      ensures hand == old(hand) && isActive == old(isActive) && currentBet == old(currentBet)
    {
      chips := chips + amount;
    }

    /** `fold` leaves the hand; nothing else changes. */
    method Fold()
      modifies this
      ensures !isActive
      ensures chips == old(chips) && hand == old(hand) && currentBet == old(currentBet)
    {
      isActive := false;
    }

    /** `reset_for_new_hand` empties the hand and the bet and brings the player
        back into the hand; the stack is kept. */
    method ResetForNewHand()
      modifies this
      ensures hand == [] && currentBet == 0 && isActive
      ensures chips == old(chips)
    {
      hand := [];
      currentBet := 0;
      isActive := true;
    }
  }
}
