# LAN-Poker engines in Dafny

The model covers the two Texas Hold'em engines of LAN-Poker, along with
proofs about them.

**The live server engine (`server.py`).**
- Cards and the 52-card `StandardDeck` (`ServerCards`).
- The five-card scorer `score_hand` (`HandScore`).
- The best-of-all-five-card-subsets search `evaluate_hand` (`HandSearch`).
- The `PokerGame` table. Each of its operations is a function from one table value to the next. These live in:
  - `ServerTable`: the table itself and `next_player`.
  - `ServerStreets`: `deal_next_street`, `post_blinds`, `deal_hole_cards` and `start_new_round`.
  - `ServerShowdown`: the pot award of `handle_showdown`.
  - `ServerLobby`: `add_player`, `remove_player` and the redacting `get_game_state`.
  - `ServerBetting`: `handle_player_action`, `_perform_action` and `check_round_complete`.
- The `PokerGame` class in `ServerGame`. It keeps these fields and updates them in place. Each method is proved to leave the table the function above describes.
- The seat dict, whose insertion order is the turn order, is a sequence of seat records.
- In the server engine, a Python exception becomes `Raised(table, error)`. The table it carries is the state the method had reached when it raised, because Python keeps that partial mutation.
- Scores are `seq<int>`, ordered the way Python orders lists (`HandSearch.Below`).

**The standalone engine (`game.py`, `card.py`, `player.py`).**
- `card.py` `Card` and `Deck` are classes in `CardDeck`.
- `player.py` `Player` is a class in `PlayerModel`.
- `game.py` `PokerGame` is a class in `StandaloneGame`. Its methods are proved against the table functions in `StandaloneRules`.
- A standalone method that raises returns `Raised(error)`. Its ensures state the object as Python leaves it at that point: a deal that ran out keeps the cards already drawn (`DealtPartly`, `StreetRanOut`), and the deck is empty.

**Shared pieces.**
- `random.shuffle` is a Fisher–Yates shuffle driven by a caller-supplied stream of choices (`Shuffling`). Every lemma holds for all choice streams.
- `Tally` holds sums and counts over sequences.
- `Seating` holds the modular walk around the table.

**Quirks the model keeps as the source has them:**
- A suited A-2-3-4-5 scores `[8, 12]`.
- A split pot drops its remainder.
- The pot is not zeroed after it is awarded.
- `start_new_round` does not move the dealer button.
- `game.py` "fold" ends the hand with `_end_hand`, which does move the dealer.

## Model

| member | source | states |
|---|---|---|
| CardDeck.Card.constructor | card.py:26-29 | a new card has the given suit and rank and lies face down |
| CardDeck.Card.Flip | card.py:36-37 | flipping toggles `face_up` and nothing else |
| CardDeck.FlipTwice | card.py:36-37 | two flips leave a card on the side it started on |
| CardDeck.Card.Str | card.py:31-34 | the text is the card back exactly when the card is face down; face up it is the rank label followed by the suit symbol |
| CardDeck.FaceLabelInjective | card.py:31-34 | two face-up cards print alike only when rank and suit both agree |
| CardDeck.FaceOrderAt | card.py:44-48 | `reset` builds suit by suit, rank by rank: position 13·suit + rank holds that pair |
| CardDeck.FaceOrderIsComplete | card.py:44-48 | that order holds every (suit, rank) pair exactly once |
| CardDeck.NewCardsInOrder | card.py:44-48 | the 52 new cards are distinct, freshly allocated, face down and in that order |
| CardDeck.Deck.constructor | card.py:40-42 | a new deck holds fresh face-down cards whose faces are the full order, shuffled |
| CardDeck.Deck.Reset | card.py:44-48 | after `reset` the deck holds 52 fresh face-down cards, one per (suit, rank) pair, shuffled |
| CardDeck.FullDeckFromFaces | card.py:44-51 | a deck whose faces are a shuffle of the full order holds each pair exactly once |
| CardDeck.FacesOfShuffled | card.py:50-51 | shuffling the cards shuffles their faces the same way |
| CardDeck.Deck.Shuffle | card.py:50-51 | the deck is permuted; its multiset of cards is unchanged |
| CardDeck.Deck.Draw | card.py:53-56 | on an empty deck it fails and changes nothing; otherwise it returns the former last card and the deck loses exactly that card |
| CardDeck.Deck.DrawMultiple | card.py:58-59 | succeeds exactly when `count` cards remain; it returns them last card first and the deck shrinks by `count`; on failure the draws already made stay taken, which leaves the deck empty |
| PlayerModel.Player.constructor | player.py:5-10 | a new player has the given name and chips, an empty hand, no bet, and is active |
| PlayerModel.Player.ReceiveCard | player.py:12-13 | the card is appended at the end of the hand; no other field changes |
| PlayerModel.Player.ClearHand | player.py:15-17 | hand emptied and bet zeroed; chips and `is_active` kept |
| PlayerModel.Player.PlaceBet | player.py:19-24 | accepted exactly when the amount is within the chips; a refusal changes nothing; chips plus bet is preserved and chips stay non-negative |
| PlayerModel.Player.WinPot | player.py:26-27 | chips grow by the amount; no other field changes |
| PlayerModel.Player.Fold | player.py:29-30 | the player becomes inactive; no other field changes |
| PlayerModel.Player.ResetForNewHand | player.py:32-35 | hand emptied, bet zeroed, player active, chips unchanged |
| Shuffling.Shuffle | card.py:50-51 | returns the shuffle of its input for the given choices, a permutation of it |
| Shuffling.ShuffledPermutes | card.py:50-51 | every shuffle keeps the multiset of its input |
| Shuffling.ShuffledKeepsDistinct | server.py:124-125 | a shuffle of a sequence without repeats has no repeats |
| StandaloneGame.PokerGame.constructor | game.py:7-19 | one active player per name with the starting chips, empty pot, dealer 0, state waiting, minimum raise the big blind, a fresh shuffled deck |
| StandaloneGame.PokerGame.AddPlayer | game.py:21-28 | raises when 10 players sit, or when the name is taken, and then changes nothing; otherwise appends one new player with the default chips |
| StandaloneRules.FindSeat | game.py:116 | finds the first player with the name, or reports that none has it |
| StandaloneRules.NewHandEffect | game.py:30-51 | after a new hand every player is active with exactly two cards dealt from the end of the deck, has paid only blinds, pot is small+big, state preflop |
| StandaloneRules.HolesShareNoCard | game.py:45-48 | two deal passes from a deck without repeats give no card to two places |
| StandaloneRules.NewHandDealsNoCardTwice | game.py:30-51 | no hole card of the new hand is held twice |
| StandaloneRules.ShuffledDeckDealsNoCardTwice | game.py:30-51 | from any shuffle of the fresh deck, no hole card is held twice |
| StandaloneGame.PokerGame.StartNewHand | game.py:30-51 | the table after a new hand is `NewHand` of the old one over the shuffled deck; 2·n cards leave a fresh 52; on a raise the table is `NewHandStopped`, the reset plus the deal as far as it got, with the deck emptied when it ran out |
| StandaloneGame.NewHandStoppedIs | game.py:30-51 | a new hand raises only on a deck shorter than 2·n or an empty table; on the short deck every seat is reset and holds exactly the cards the deck reached, on the empty table the reset table stays |
| StandaloneGame.DealtPartlyHands | game.py:45-48 | after a deal that ran out after m cards, seat j holds its round-one card iff j < m and its round-two card iff n + j < m, drawn from the end of the deck |
| StandaloneGame.PokerGame.ResetTable | game.py:32-42 | deck refilled and shuffled, pot/bet/raise fields reset, every player reset for the new hand |
| StandaloneGame.PokerGame.ResetPlayers | game.py:41-42 | every player reset for the new hand, nothing else changed |
| StandaloneGame.PokerGame.DealRound | game.py:46-48 | one pass deals one card from the end of the deck to each player in order; when the deck runs out it raises with the deck empty and the first m players dealt |
| StandaloneGame.PokerGame.DealHoleCards | game.py:45-48 | two passes give each player two cards and shrink the deck by 2·n; when the deck runs out it raises with the deck empty and the seats `DealtPartly` |
| StandaloneGame.PokerGame.DealAndPost | game.py:45-51 | dealing then posting blinds ends as `Blinds` of the dealt table; a short deck raises with the seats `DealtPartly`, and the blinds' error leaves the dealt table |
| StandaloneRules.BlindsEffect | game.py:53-64 | SB is charged at dealer+1 and BB at dealer+2 (a short stack pays nothing); current bet is the big blind, pot small+big, first to act dealer+3 mod n; no players is a division by zero |
| StandaloneGame.PokerGame.PostBlinds | game.py:53-64 | the table after `_post_blinds` is `Blinds` of the old one, or the division-by-zero error with nothing changed |
| StandaloneGame.PokerGame.PayBlind | game.py:56 | one guarded `place_bet` on one seat |
| StandaloneGame.PokerGame.OpenBlindBetting | game.py:62-64 | current bet, pot and first player set as `_post_blinds` ends |
| StandaloneGame.PokerGame.DealFlop | game.py:66-81 | from preflop: burn one, three face-up community cards, current bet 0, current player dealer+1; from any other state returns False and changes nothing; a short deck raises with the deck emptied onto the board; no players raises ZeroDivision after the deal, state and bet already changed |
| StandaloneGame.PokerGame.DealTurn | game.py:83-97 | same with one card, from flop only |
| StandaloneGame.PokerGame.DealRiver | game.py:99-113 | same with one card, from turn only |
| StandaloneGame.PokerGame.DealStreet | game.py:66-113 | burn one card and show `count` more only in the expected state; a short deck raises with every card after the burn already face up on the board and the deck empty |
| StandaloneGame.PokerGame.DrawStreet | game.py:70-76 | burns the top card and moves the next cards, face up, to the community cards; a short deck raises after moving all it had |
| StandaloneRules.ActNeedsTurn | game.py:115-121 | any action other than a plain refusal comes from an active player whose turn it is |
| StandaloneRules.CheckRefusedWhileBetOpen | game.py:138-140 | a check while a bet is open is refused with no change |
| StandaloneRules.BetOutcome | game.py:123-131 | a bet below the minimum raise or above the stack is refused; an accepted bet moves the amount from stack to pot, sets current bet and last raise to it and the minimum raise to twice it, then passes the turn |
| StandaloneRules.BetAtMovesChips | game.py:126-129 | an accepted bet keeps stacks plus pot constant |
| StandaloneGame.PokerGame.BetTurn | game.py:124-127 | the bet is placed exactly when it is within the minimum raise and the stack |
| StandaloneGame.PokerGame.RecordRaise | game.py:128-131 | current bet, pot, last raise and minimum raise after an accepted bet |
| StandaloneRules.PassOutcome | game.py:138-143 | a check with no bet open (or an unknown action) only passes the turn to the next active player |
| StandaloneRules.PassTurnFindsNext | game.py:145-149 | the turn goes to the first active player after the current one; with nobody active the loop never ends |
| StandaloneGame.PokerGame.NextPlayer | game.py:145-149 | the table after `_next_player` is `PassTurn` of the old one |
| StandaloneGame.PokerGame.PassOn | game.py:142-143 | passes the turn and reports success as `player_action` does |
| StandaloneRules.FoldCount | game.py:133-134 | a fold lowers the number of active players by one when the folder was active |
| StandaloneRules.FoldLeavingOneEndsHand | game.py:133-136 | a fold leaving one active player gives that player the pot, sets waiting, moves the dealer by one mod n, keeps the turn |
| StandaloneRules.FoldLeavingMorePassesTurn | game.py:133-142 | a fold leaving two or more passes the turn to the next active player |
| StandaloneRules.FoldLeavingNoneHangs | game.py:133-149 | a fold leaving nobody active never returns |
| StandaloneGame.PokerGame.FoldSeat | game.py:134 | only that player becomes inactive |
| StandaloneGame.PokerGame.FoldTurn | game.py:133-136 | the table after a fold is `FoldPlay` of the old one |
| StandaloneGame.PokerGame.PlayerAction | game.py:115-143 | returns False with no change on any refusal, True with the table `Act` describes, or the error `Act` raises |
| StandaloneRules.HandEndAwardsPot | game.py:151-161 | the hand ends exactly when one player is active; that player gains the pot, others are untouched, dealer moves on |
| StandaloneGame.PokerGame.CheckHandEnd | game.py:151-156 | the table and the flag are `HandEnd` of the old table |
| StandaloneGame.PokerGame.EndHand | game.py:158-161 | the winner gains the pot, state waiting, dealer moves by one mod n |
| StandaloneRules.CollectConserves | game.py:179-182 | bets go to the pot: every bet becomes 0, the pot grows by their sum, stacks + bets + pot unchanged |
| StandaloneGame.PokerGame.CollectBets | game.py:179-182 | the table after `collect_bets` is `Collect` of the old one |
| StandaloneGame.PokerGame.CollectFrom | game.py:181-182 | one player's bet moves to the pot |
| StandaloneGame.PokerGame.ResetAt | game.py:42 | one player reset for the new hand |
| StandaloneGame.PokerGame.GiveCard | game.py:48 | one card appended to one player's hand |
| StandaloneGame.PokerGame.DealOne | game.py:47-48 | the last card of the deck goes to the player, or nothing changes when the deck is empty |
| StandaloneGame.PokerGame.ReopenBetting | game.py:33-38 | community cards, pot, bet and raise fields reset and state preflop |
| ServerCards.ToDict | server.py:103-115 | the dict is the hidden marker exactly when the card is not showing |
| ServerCards.ShownDictIdentifies | server.py:103-115 | two showing cards with equal dicts are the same card |
| ServerCards.NamesDistinct | server.py:97-98 | the value and suit names are pairwise distinct |
| ServerCards.ReprHidesExactly | server.py:96-101 | `repr` is `[CARD]` exactly when the card is hidden |
| ServerCards.ValueRow | server.py:122 | one value's row holds its four suits, showing |
| ServerCards.RowsFrom | server.py:118-122 | from value v up, position k holds value v + k/4 and suit k mod 4 |
| ServerCards.StandardDeck | server.py:118-122 | 52 showing cards, position k holding value k/4 and suit k mod 4 |
| ServerCards.StandardDeckIsComplete | server.py:118-122 | every (value, suit) pair is in the deck, and no card twice |
| ServerCards.ShuffledDeckIsComplete | server.py:192-193 | any shuffle of the new deck is 52 distinct showing cards covering every pair |
| HandScore.ScoreHand | server.py:1169-1221 | a score starts with a category code in 0..9 and has at least two entries |
| HandScore.StraightFlushScore | server.py:1183-1186 | five suited consecutive values from lo score `[9, 12]` when lo is 8 (royal) and `[8, lo+4]` otherwise |
| HandScore.SuitedWheelScore | server.py:1183-1186 | a suited A-2-3-4-5 scores `[8, 12]`, because `max(values)` is the ace |
| HandScore.QuadsScore | server.py:1188-1191 | four of q and a kicker k score `[7, q, k]` |
| HandScore.FullHouseScore | server.py:1193-1196 | three of t and two of p score `[6, t, p]` |
| HandScore.FlushScore | server.py:1198-1199 | a suited hand of five distinct, unconnected values scores `[5]` then the values descending |
| HandScore.StraightScore | server.py:1201-1204 | five unsuited consecutive values from lo score `[4, lo+4]` |
| HandScore.WheelScore | server.py:1201-1203 | an unsuited A-2-3-4-5 scores `[4, 3]` |
| HandScore.TripsScore | server.py:1206-1209 | three of t with kickers a > b score `[3, t, a, b]` |
| HandScore.TwoPairScore | server.py:1211-1214 | pairs h > l with kicker k score `[2, h, l, k]` |
| HandScore.PairScore | server.py:1216-1219 | a pair p with kickers a > b > c scores `[1, p, a, b, c]` |
| HandScore.HighCardScore | server.py:1221 | an unsuited hand of five distinct, unconnected values scores `[0]` then the values descending |
| HandScore.StraightIff | server.py:1175-1176 | `is_straight` holds exactly for five consecutive values or the wheel |
| HandScore.FlushIsOneSuit | server.py:1174 | `is_flush` holds exactly when all cards share one suit |
| HandScore.Sort | server.py:1170 | the result is sorted ascending and a permutation of the input |
| HandScore.SortDescOf | server.py:1199 | sorting descending gives the one descending arrangement of a multiset |
| HandScore.CounterTallies | server.py:1179 | the counter holds each value once with its number of occurrences |
| HandScore.ValuesWithCount | server.py:1189 | the values listed with count k are exactly those occurring k times, without repeats |
| HandSearch.BelowIrreflexive | server.py:1164 | no score is below itself |
| HandSearch.BelowTransitive | server.py:1164 | list order is transitive |
| HandSearch.BelowTotal | server.py:482 | two different scores are ordered one way and not both |
| HandSearch.CombinationsSound | server.py:1159 | every combination is k cards picked in order by increasing positions |
| HandSearch.CombinationsComplete | server.py:1159 | every such pick is one of the combinations |
| HandSearch.CombinationsCount | server.py:1159 | there are C(n, k) combinations |
| HandSearch.SevenCardsGiveTwentyOne | server.py:1159 | seven cards give 21 five-card hands |
| HandSearch.BestOfIsGreatest | server.py:1160-1166 | the running maximum is below no score and not below the floor |
| HandSearch.BestOfIsAScore | server.py:1160-1166 | the running maximum is the floor or one of the scores |
| HandSearch.BestAmong | server.py:1160-1166 | the loop computes the running maximum of the scores |
| HandSearch.EvaluateHand | server.py:1157-1167 | the result is below the score of no five-card subset of hole + community, and is the floor or one of those scores |
| HandSearch.BestScoreIsAHand | server.py:1157-1167 | with five or more distinct cards the best score is above the floor and is the score of one five-card subset |
| HandSearch.ScoreAboveFloor | server.py:1160 | every score of five distinct cards beats the `[0]*8` floor |
| ServerTable.PassTurnFindsNext | server.py:1090-1119 | with two or more seats able to act the turn goes to the first such seat after the current one, and the round closes when that seat was the last aggressor with all bets matched; otherwise only the round-complete flag is set |
| ServerStreets.IdleStreetChangesNothing | server.py:265-269 | at waiting, showdown or round complete nothing changes |
| ServerStreets.StreetResetKeepsChips | server.py:273-288 | the street reset zeroes bets and keeps stacks |
| ServerStreets.RiverStreetOnlyResets | server.py:290-301 | on the river only the betting fields reset: no card moves, state stays river |
| ServerStreets.StreetDeals | server.py:265-339 | preflop→flop→turn→river; one burn then 3/1/1 cards shown, so 4/2/2 leave the deck; bets, current bet and raise fields reset; nothing else changes; the turn goes to the first seat able to act after the dealer |
| ServerStreets.StreetRunsOut | server.py:304-319 | a deck too short for the street raises `IndexError` with the deck emptied |
| ServerStreets.FirstToActFinds | server.py:326-339 | the first seat after the dealer that can act, or dealer+2 when none can (the loop's give-up exit) |
| ServerStreets.PayBlindMoves | server.py:776-787 | a blind moves min(blind, chips) from one stack to the pot and sets that seat's bet |
| ServerStreets.BlindSeatsDiffer | server.py:764-771 | the two blind seats are different seats of the table |
| ServerStreets.BlindsPosted | server.py:757-811 | fewer than 2 seats returns False; otherwise heads-up SB is the dealer, else SB dealer+1 and BB dealer+2; each pays min(blind, chips); current bet is the BB paid, min raise the big blind, last aggressor the BB, SB acts first heads-up and BB+1 otherwise; chips + pot unchanged |
| ServerStreets.HeadsUpDealerOutOfRange | server.py:765-776 | heads-up with the dealer index past the table raises `IndexError` |
| ServerStreets.BlindsFromNoBets | server.py:775-787 | from a table without bets every seat's chips + bet equals its old chips |
| ServerStreets.DealPassToAll | server.py:246-251 | one pass gives each seat the next card, showing, when the deck is long enough, and fails otherwise |
| ServerStreets.DealPassConcat | server.py:246-251 | a pass over two groups of seats is the pass over the first group, then the pass over the second |
| ServerStreets.DealHolesToAll | server.py:238-251 | with 2·n cards each seat gets cards j and n + j, showing, and the deck loses 2·n cards |
| ServerStreets.DealHolesRunsOut | server.py:245-248 | with fewer than 2·n cards `pop(0)` raises `IndexError` |
| ServerStreets.FreshDeck | server.py:192-193 | the shuffled new deck has 52 distinct showing cards |
| ServerStreets.NewRoundNeedsTwo | server.py:186-189 | with fewer than 2 seats the state becomes waiting and the call returns False |
| ServerStreets.NewRoundDeal | server.py:192-228 | the round reset seats, then two cards each from the shuffled deck, dealer clamped into range |
| ServerStreets.NewRoundHands | server.py:227-228 | each seat j holds cards j and n + j of the shuffled deck |
| ServerStreets.NewRoundSeats | server.py:205-231 | every seat keeps its sid and name, is unfolded, not all-in, not a winner, unscored, and chips + bet equals its old chips |
| ServerStreets.NewRoundFields | server.py:192-231 | deck is the shuffle minus 2·n cards, no community cards, preflop, dealer kept unless out of range (then 0), last aggressor the BB, lists empty, chips + pot equal the old stacks |
| ServerStreets.NewRoundDealsNoCardTwice | server.py:192-228 | no card is held by two seats or twice by one |
| ServerStreets.NewRoundRunsOut | server.py:245-248 | more than 26 seats run the deck out: `IndexError` |
| ServerShowdown.Scored | server.py:472-479 | each seat still in the hand shows its cards and gets the best score of its hand with the board; folded seats are untouched |
| ServerShowdown.BestLiveIsGreatest | server.py:482 | the best score exists exactly when some seat is scored, is one of those scores, and is below none |
| ServerShowdown.SomeWinner | server.py:483 | some seat holds the best score |
| ServerShowdown.ScoredHasBest | server.py:478-482 | with a seat left in the hand scoring gives a best score |
| ServerShowdown.AwardAdds | server.py:486-489 | each winner gains the share and is marked; everyone else is untouched; the stacks grow by winners × share |
| ServerShowdown.UncontestedPot | server.py:396-404 | with one seat left it gains the whole pot, is marked, shows its cards, nothing else changes, state round complete, pot not zeroed |
| ServerShowdown.WinnersAreTheBest | server.py:481-483 | a seat wins exactly when it is in the hand and no other seat in the hand scores above it |
| ServerShowdown.SplitPot | server.py:472-489 | with two or more left every seat with the best score gains pot // winners; the stacks grow by winners × (pot // winners), so the remainder is lost |
| ServerShowdown.NobodyLeft | server.py:482 | with every seat folded `max` of nothing raises `ValueError` after the scoring |
| ServerLobby.IndexOf | server.py:1225 | the position of the first seat with the sid, or the table size when absent |
| ServerLobby.AddPlayerFull | server.py:701-703 | the seat is added exactly when fewer than `max_players` sit; otherwise nothing changes |
| ServerLobby.AddPlayerSeats | server.py:701-712 | a new sid is appended with starting chips; a seated sid has its record replaced in place; other seats untouched; sids stay unique |
| ServerLobby.Without | server.py:1226 | removal keeps the other seats in order |
| ServerLobby.RemoveAbsent | server.py:1225 | an unknown sid changes nothing |
| ServerLobby.RemoveDropsRecord | server.py:1223-1226 | the sid is gone, the table is one seat smaller and the sids stay unique |
| ServerLobby.RemoveRepairsIndices | server.py:1227-1237 | outside waiting, dealer and current index are reset into range; in waiting only the seat goes |
| ServerLobby.RemoveLeavesOne | server.py:1239-1244 | when one seat remains mid-round it gains the pot, is marked the winner and the state becomes showdown |
| ServerLobby.Dicts | server.py:653 | the community cards as dicts, card by card |
| ServerLobby.SeatViews | server.py:668-697 | one view per seat, in seat order |
| ServerLobby.GameStateShape | server.py:649-699 | the view lists every seat with its sid, chips and hand size; the current player is named exactly outside waiting; an out-of-range index raises `IndexError`; the table is unchanged |
| ServerLobby.HoleCardsRedacted | server.py:684-695 | another seat's cards are hidden markers unless at the showdown; one's own cards (and all at the showdown) are their dicts |
| ServerLobby.OthersCardsUnseen | server.py:693-695 | changing another seat's cards (keeping their number) does not change the view outside the showdown |
| ServerLobby.OwnCardsReadable | server.py:686-689 | one's own showing cards are determined by one's view |
| ServerBetting.ActGated | server.py:819-832 | round complete, waiting or showdown refuse; a current index past the table raises `IndexError`; another seat's turn, or a folded or all-in seat, refuse; each refusal changes nothing |
| ServerBetting.AcceptedOnlyInTurn | server.py:819-832 | an accepted action comes from the seat whose turn it is, which can still act |
| ServerBetting.RefusalChangesNothing | server.py:848-963 | a refused action leaves the table as it was |
| ServerBetting.CheckAllowed | server.py:851-857 | check is accepted exactly when there is nothing to call and, preflop, the seat has put in the big blind; it changes nothing |
| ServerBetting.FoldEffect | server.py:859-863 | fold marks the seat folded and records its sid |
| ServerBetting.CallEffect | server.py:865-886 | call is accepted exactly when there is a gap; it pays min(gap, chips) and the seat is all-in exactly when capped; a full call matches the bet |
| ServerBetting.RaiseLegal | server.py:888-915 | a raise to T is accepted exactly when T is given and non-zero, T > current bet, T ≥ current bet + min raise and T ≤ chips + bet |
| ServerBetting.RaiseEffect | server.py:916-940 | an accepted raise makes T the current bet and the seat's bet, takes T − bet from the stack, sets min raise to T − old bet, the last aggressor the seat, all-in exactly at zero chips |
| ServerBetting.AllInEffect | server.py:942-961 | all-in is accepted exactly with chips left; it moves the whole stack, and raises the current bet and takes the lead only when the new bet exceeds the old |
| ServerBetting.ApplyKeepsChips | server.py:848-963 | every action keeps Σ chips + pot |
| ServerBetting.PassTurnKeepsChips | server.py:1090-1119 | passing the turn moves no chips |
| ServerBetting.PerformKeepsChips | server.py:848-963 | an action followed by the turn pass keeps Σ chips + pot |
| ServerBetting.ApplyKeepsBetsCapped | server.py:848-963 | no seat's bet exceeds the current bet and no stack goes negative, before and after any action |
| ServerBetting.PerformKeepsBetsCapped | server.py:848-963 | the same through the turn pass |
| ServerBetting.RoundCheckWaits | server.py:1124-1155 | at waiting, showdown or round complete, or with betting still open and more than one seat in the hand, nothing changes |
| ServerBetting.RoundCheckLastSeat | server.py:1129-1136 | the last seat in the hand takes the pot and the round completes |
| ServerBetting.RoundCheckAfterRiver | server.py:1139-1144 | a closed river goes to the showdown award |
| ServerBetting.RoundCheckNextStreet | server.py:1145-1152 | a closed earlier street deals the next street |
| ServerGame.WalkToNextSeat | server.py:1090-1119 | the loop stops at the first seat after the current one that can act and reports whether the round closed there |
| ServerGame.SeatAfterDealer | server.py:326-339 | the loop stops at the first seat after the dealer that can act, or gives up at dealer+2 |
| ServerGame.ClearBets | server.py:287-288 | every seat's bet becomes 0 |
| ServerGame.DrawStreet | server.py:304-319 | burn and show the street's cards, or raise when the deck runs out |
| ServerGame.ResetSeats | server.py:206-212 | every seat reset for the round |
| ServerGame.ClearHands | server.py:241-242 | every hand emptied |
| ServerGame.DealRound | server.py:246-251 | one pass of `deal_hole_cards`, as `DealPass` |
| ServerGame.LiveSeats | server.py:346 | counts the seats in the hand and finds the first |
| ServerGame.ScoreSeats | server.py:472-479 | reveals and scores every seat in the hand |
| ServerGame.BestLiveScore | server.py:482 | the maximum score of the seats in the hand |
| ServerGame.CountWinners | server.py:483 | the number of seats holding the best score |
| ServerGame.PayWinners | server.py:487-489 | pays the share to every winner |
| ServerGame.ViewSeats | server.py:668-697 | the per-seat views of `get_game_state` |
| ServerGame.PokerGame.constructor | server.py:135-156 | an empty table in waiting with the given seat limit |
| ServerGame.PokerGame.NextPlayer | server.py:1090-1119 | the table after `next_player` is `PassTurn` of the old one |
| ServerGame.PokerGame.DealNextStreet | server.py:265-339 | the table and outcome are `NextStreet` of the old table |
| ServerGame.PokerGame.PostBlinds | server.py:757-811 | the table and outcome are `Blinds` of the old table |
| ServerGame.PokerGame.DealHoleCards | server.py:238-256 | the table and outcome are `DealHoles` of the old table |
| ServerGame.PokerGame.StartNewRound | server.py:158-236 | the table and outcome are `NewRound` of the old table for the given shuffle |
| ServerGame.PokerGame.HandleShowdown | server.py:345-489 | the table and outcome are `Payout` of the old table at the showdown |
| ServerGame.PokerGame.CheckAction | server.py:851-857 | the verdict of a check, with no change |
| ServerGame.PokerGame.FoldAction | server.py:859-863 | the table and verdict of a fold are `FoldStep` |
| ServerGame.PokerGame.CallAction | server.py:865-886 | the table and verdict of a call are `CallStep` |
| ServerGame.PokerGame.RaiseAction | server.py:888-940 | the table and verdict of a raise are `RaiseStep` |
| ServerGame.PokerGame.AllInAction | server.py:942-961 | the table and verdict of an all-in are `AllInStep` |
| ServerGame.PokerGame.PerformAction | server.py:848-963 | the table and verdict are `Perform`: the action, then the turn pass unless refused |
| ServerGame.PokerGame.CheckRoundComplete | server.py:1121-1155 | the table and outcome are `RoundCheck` of the old table |
| ServerGame.PokerGame.HandlePlayerAction | server.py:813-846 | the table and outcome are `Act` of the old table |
| ServerGame.PokerGame.AddPlayer | server.py:701-712 | the table and flag are `AddPlayer` of the old table |
| ServerGame.PokerGame.RemovePlayer | server.py:1223-1246 | the table is `RemovePlayer` of the old table |
| ServerGame.PokerGame.GetGameState | server.py:649-699 | the view is `GameState` of the table, which is unchanged |

## Left out

- Flask routes, socket handlers, `emit` and `broadcast_game_state` are transport I/O.
- Statistics recording (SQLite) never changes the game.
- The `threading.Timer` and thread restarts are concurrency and time. A next round is an explicit `StartNewRound` call.
- The `room_id` check at the top of `start_new_round` is left out, along with the repair of the global `player_rooms` registry. Both are registry plumbing: the model's table always has its room.
- The ante block never runs, because `ante` is 0.
- `get_hand_type` labels are not modelled. They are off by one against the category codes.
- Log messages, and the text of refusal and error messages, are left out. Each refusal is a constructor of `ServerBetting.Refusal`.
- The `int(amount)` conversion in `_perform_action` is left out. The amount is an `Option<int>` that is `None` when missing.
- Before the first round the server's deck is `None`; the model uses the empty sequence.
- `random.shuffle` is a permutation chosen by a stream of numbers, not a random draw.
- Aliasing of seat records is not modelled. The server's per-seat loops are methods over seat sequences whose results the class stores, so no two names ever refer to the same record.
- Card objects on the server are values, so the cards' `showing` flags are not shared.
- Uncalled code is left out: `handle_action`, `determine_winner`, `_start_new_round`, `start_game`, and the server's own `deal_flop`/`deal_turn`/`deal_river`.
- `game.py` `get_game_state`, `get_active_players`, `get_player_hands`, `get_community_cards` and `__str__` are display helpers outside the engine.
- `player.py` `__str__` is a display helper.
- `poker_stats.py`, `debug_db.py`, `reset_db.py` and `main.py` are reports, database scripts and an interactive loop.
- Integers are unbounded, as Python's are.
- StandaloneRules.PassTurnFindsNext: the endless `_next_player` loop when nobody is active is reported as the `Hangs` error rather than as non-termination.
- ServerBetting.RoundCheckAfterRiver: states the resulting table and state; the full award is stated by `ServerShowdown.SplitPot`.
