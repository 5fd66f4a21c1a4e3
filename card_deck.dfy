/** The cards and deck of the standalone engine (card.py): a card carries a suit,
    a rank and a face-up flag that `flip` toggles; a deck is a list of card
    objects that is rebuilt and shuffled by `reset` and drawn from its end. */
module CardDeck {
  import Shuffling

  datatype Suit = Hearts | Diamonds | Clubs | Spades
  datatype Rank = Two | Three | Four | Five | Six | Seven | Eight | Nine | Ten
                | Jack | Queen | King | Ace

  /** The declaration order of the two enumerations, which is the order in
      which `reset` walks them. */
  const Suits: seq<Suit> := [Hearts, Diamonds, Clubs, Spades]
  const Ranks: seq<Rank> := [Two, Three, Four, Five, Six, Seven, Eight, Nine, Ten,
                             Jack, Queen, King, Ace]

  function SuitIndex(s: Suit): (i: nat)
    ensures i < |Suits| && Suits[i] == s
  {
    match s
    case Hearts => 0
    case Diamonds => 1
    case Clubs => 2
    case Spades => 3
  }

  function RankIndex(r: Rank): (i: nat)
    ensures i < |Ranks| && Ranks[i] == r
  {
    match r
    case Two => 0
    case Three => 1
    case Four => 2
    case Five => 3
    case Six => 4
    case Seven => 5
    case Eight => 6
    case Nine => 7
    case Ten => 8
    case Jack => 9
    case Queen => 10
    case King => 11
    case Ace => 12
  }

  /** The enumeration values of the source: one symbol per suit. */
  function SuitSymbol(s: Suit): string
  {
    match s
    case Hearts => "♥"
    case Diamonds => "♦"
    case Clubs => "♣"
    case Spades => "♠"
  }

  function RankLabel(r: Rank): string
  {
    match r
    case Two => "2"
    case Three => "3"
    case Four => "4"
    case Five => "5"
    case Six => "6"
    case Seven => "7"
    case Eight => "8"
    case Nine => "9"
    case Ten => "10"
    case Jack => "J"
    case Queen => "Q"
    case King => "K"
    case Ace => "A"
  }

  /** What a face-down card prints as: the playing-card back. */
  const CardBack: string := "\U{1F0A0}"

  /** What a face-up card prints as: its rank label followed by its suit symbol. */
  function FaceLabel(r: Rank, s: Suit): (text: string)
    ensures |text| >= 2 && text[|text| - 1] == SuitSymbol(s)[0]
    ensures text != CardBack
  {
    RankLabel(r) + SuitSymbol(s)
  }

  /** Different face-up cards never print alike. */
  lemma FaceLabelInjective(r1: Rank, s1: Suit, r2: Rank, s2: Suit)
    requires FaceLabel(r1, s1) == FaceLabel(r2, s2)
    ensures r1 == r2 && s1 == s2
  {
    var l := FaceLabel(r1, s1);
    assert SuitSymbol(s1)[0] == SuitSymbol(s2)[0];
    assert s1 == s2;
    assert RankLabel(r1) == l[..|l| - 1] == RankLabel(r2);
  }

  class Card {
    const suit: Suit
    const rank: Rank
    var faceUp: bool

    /** A new card is face down. */
    constructor (suit: Suit, rank: Rank)
      ensures this.suit == suit && this.rank == rank && !faceUp
    {
      this.suit := suit;
      this.rank := rank;
      faceUp := false;
    }

    method Flip()
      modifies this
      ensures faceUp == !old(faceUp)
    {
      faceUp := !faceUp;
    }

    /** `__str__`: a face-down card shows only the card back, a face-up card
        its rank and suit. */
    function Str(): (text: string)
      reads this
      ensures text == CardBack <==> !faceUp
      ensures faceUp ==> text == FaceLabel(rank, suit)
    {
      if !faceUp then CardBack else FaceLabel(rank, suit)
    }
  }

  /** Flipping twice restores the card as it was. */
  method FlipTwice(c: Card)
    modifies c
    ensures c.faceUp == old(c.faceUp)
  {
    c.Flip();
    c.Flip();
  }

  /** What a card shows once turned up: its suit and its rank. */
  type CardFace = (Suit, Rank)

  function Face(c: Card): CardFace
  {
    (c.suit, c.rank)
  }

  /** The (suit, rank) pairs in the order `reset` creates them: suit by suit,
      and within a suit rank by rank. */
  function FaceOrder(): (faces: seq<CardFace>)
    ensures |faces| == 52
  {
    seq(52, i requires 0 <= i < 52 => (Suits[i / 13], Ranks[i % 13]))
  }

  /** Creation order puts suit number a, rank number b at position 13a + b. */
  lemma FaceOrderAt(s: Suit, r: Rank)
    ensures FaceOrder()[13 * SuitIndex(s) + RankIndex(r)] == (s, r)
  {
    var a, b := SuitIndex(s), RankIndex(r);
    var i := 13 * a + b;
    assert i / 13 == a && i % 13 == b;
  }

  /** Every (suit, rank) pair is created and no pair is created twice. */
  lemma FaceOrderIsComplete()
    ensures forall s: Suit, r: Rank :: (s, r) in FaceOrder()
    ensures forall i, j :: 0 <= i < j < 52 ==> FaceOrder()[i] != FaceOrder()[j]
  {
    forall s: Suit, r: Rank
      ensures (s, r) in FaceOrder()
    {
      FaceOrderAt(s, r);
    }
    forall i, j | 0 <= i < j < 52
      ensures FaceOrder()[i] != FaceOrder()[j]
    {
      assert i == 13 * (i / 13) + i % 13;
      assert j == 13 * (j / 13) + j % 13;
      assert Suits[i / 13] != Suits[j / 13] || Ranks[i % 13] != Ranks[j % 13];
    }
  }

  /** A full deck: 52 distinct card objects with one of each (suit, rank). */
  ghost predicate IsFullDeck(cards: seq<Card>)
  {
    && |cards| == 52
    && Shuffling.Distinct(cards)
    && (forall s: Suit, r: Rank :: exists i :: 0 <= i < |cards| && Face(cards[i]) == (s, r))
    && (forall i, j :: 0 <= i < j < |cards| ==> Face(cards[i]) != Face(cards[j]))
  }

  /** The errors card.py raises. */
  datatype DeckError = NoCardsLeft

  datatype Drawn<T> = Drawn(value: T) | DrawFailed(error: DeckError)

  class Deck {
    var cards: seq<Card>

    /** `__init__` resets, so a new deck is a freshly shuffled full deck. */
    constructor (choices: seq<nat>)
      ensures Faces(cards) == Shuffling.Shuffled(FaceOrder(), choices)
      ensures forall c :: c in cards ==> fresh(c) && !c.faceUp
    {
      cards := [];
      new;
      Reset(choices);
    }

    /** Rebuilds the 52 cards, every one face down, and shuffles them with the
        given random draws. */
    method Reset(choices: seq<nat>)
      modifies this
      ensures Faces(cards) == Shuffling.Shuffled(FaceOrder(), choices)
      ensures forall c :: c in cards ==> fresh(c) && !c.faceUp
    {
      var built := NewCardsInOrder();
      cards := built;
      assert Faces(built) == FaceOrder();
      FacesOfShuffled(built, choices);
      Shuffle(choices);
      forall c | c in cards
        ensures c in built
      {
        assert c in multiset(cards);
      }
    }

    /** `shuffle` permutes the cards in place with Python's Fisher-Yates pass. */
    method Shuffle(choices: seq<nat>)
      modifies this
      ensures cards == Shuffling.Shuffled(old(cards), choices)
      ensures multiset(cards) == multiset(old(cards))
    {
      cards := Shuffling.Shuffle(cards, choices);
    }

    /** `draw`: raises on an empty deck and changes nothing; otherwise removes
        and returns the last card. */
    method Draw() returns (r: Drawn<Card>)
      modifies this
      ensures old(cards) == [] ==> r == DrawFailed(NoCardsLeft) && cards == old(cards)
      ensures old(cards) != [] ==>
        && r == Drawn(old(cards)[|old(cards)| - 1])
        && cards == old(cards)[..|old(cards)| - 1]
    {
      if cards == [] {
        return DrawFailed(NoCardsLeft);
      }
      r := Drawn(cards[|cards| - 1]);
      cards := cards[..|cards| - 1];
    }

    /** `draw_multiple`: draws `count` cards one by one, so the k-th card
        returned is the k-th from the end.  When fewer remain, the draws that
        succeeded have already emptied the deck before the error is raised. */
    method DrawMultiple(count: int) returns (r: Drawn<seq<Card>>)
      modifies this
      ensures count <= |old(cards)| <==> r.Drawn?
      ensures r.Drawn? ==>
        && |r.value| == (if count < 0 then 0 else count)
        && cards == old(cards)[..|old(cards)| - |r.value|]
        && forall k :: 0 <= k < |r.value| ==> r.value[k] == old(cards)[|old(cards)| - 1 - k]
      ensures r.DrawFailed? ==> cards == []
    {
      var drawn: seq<Card> := [];
      var k := 0;
      while k < count
        invariant 0 <= k <= (if count < 0 then 0 else count) && |drawn| == k
        invariant k <= |old(cards)|
        invariant cards == old(cards)[..|old(cards)| - k]
        invariant forall i :: 0 <= i < k ==> drawn[i] == old(cards)[|old(cards)| - 1 - i]
      {
        var one := Draw();
        if one.DrawFailed? {
          return DrawFailed(one.error);
        }
        drawn := drawn + [one.value];
        k := k + 1;
      }
      r := Drawn(drawn);
    }
  }

  /** The comprehension of `reset`: one new face-down card per (suit, rank),
      suit by suit. */
  method NewCardsInOrder() returns (built: seq<Card>)
    ensures |built| == 52 && Shuffling.Distinct(built)
    ensures forall k :: 0 <= k < 52 ==> Face(built[k]) == FaceOrder()[k]
    ensures forall c :: c in built ==> fresh(c) && !c.faceUp
  {
    built := [];
    var si := 0;
    while si < |Suits|
      invariant si <= |Suits| && |built| == 13 * si
      invariant forall k :: 0 <= k < |built| ==> Face(built[k]) == FaceOrder()[k]
      invariant forall c :: c in built ==> fresh(c) && !c.faceUp
      invariant Shuffling.Distinct(built)
    {
      var ri := 0;
      while ri < |Ranks|
        invariant ri <= |Ranks| && |built| == 13 * si + ri
        invariant forall k :: 0 <= k < |built| ==> Face(built[k]) == FaceOrder()[k]
        invariant forall c :: c in built ==> fresh(c) && !c.faceUp
        invariant Shuffling.Distinct(built)
      {
        var card := new Card(Suits[si], Ranks[ri]);
        ghost var at := 13 * si + ri;
        assert at / 13 == si && at % 13 == ri;
        built := built + [card];
        ri := ri + 1;
      }
      si := si + 1;
    }
  }

  /** The faces of a row of cards, position by position. */
  function Faces(cards: seq<Card>): (f: seq<CardFace>)
    ensures |f| == |cards| && forall i :: 0 <= i < |cards| ==> f[i] == Face(cards[i])
  {
    seq(|cards|, i requires 0 <= i < |cards| => Face(cards[i]))
  }

  lemma FacesAppend(cards: seq<Card>, c: Card)
    ensures Faces(cards + [c]) == Faces(cards) + [Face(c)]
  {
  }

  lemma FacesPrefix(cards: seq<Card>, k: nat)
    requires k <= |cards|
    ensures Faces(cards[..k]) == Faces(cards)[..k]
  {
  }

  /** Reading the faces commutes with the swaps of a shuffle. */
  lemma {:induction false} FacesOfFisherYates(s: seq<Card>, choices: seq<nat>, k: nat)
    requires k == 0 || k < |s|
    ensures Faces(Shuffling.FisherYates(s, choices, k)) == Shuffling.FisherYates(Faces(s), choices, k)
    decreases k
  {
    if k > 0 {
      FacesOfFisherYates(s, choices, k - 1);
      var before := Shuffling.FisherYates(s, choices, k - 1);
      var i, j := |s| - k, Shuffling.SwapPartner(choices, |s|, k - 1);
      assert Faces(Shuffling.Swap(before, i, j)) == Shuffling.Swap(Faces(before), i, j);
    }
  }

  lemma FacesOfShuffled(s: seq<Card>, choices: seq<nat>)
    ensures Faces(Shuffling.Shuffled(s, choices)) == Shuffling.Shuffled(Faces(s), choices)
  {
    if |s| > 0 {
      FacesOfFisherYates(s, choices, |s| - 1);
    }
  }

  /** A row whose faces are the creation order shuffled is a full deck: 52
      distinct cards showing every (suit, rank) pair exactly once. */
  lemma FullDeckFromFaces(cards: seq<Card>, choices: seq<nat>)
    requires Faces(cards) == Shuffling.Shuffled(FaceOrder(), choices)
    ensures IsFullDeck(cards)
  {
    var faces := Faces(cards);
    Shuffling.ShuffledPermutes(FaceOrder(), choices);
    FaceOrderIsComplete();
    assert Shuffling.Distinct(FaceOrder());
    Shuffling.ShuffledKeepsDistinct(FaceOrder(), choices);
    forall s: Suit, r: Rank
      ensures exists i :: 0 <= i < |cards| && Face(cards[i]) == (s, r)
    {
      assert (s, r) in multiset(faces);
      var i :| 0 <= i < |faces| && faces[i] == (s, r);
    }
    forall i, j | 0 <= i < j < |cards|
      ensures cards[i] != cards[j] && Face(cards[i]) != Face(cards[j])
    {
      assert faces[i] != faces[j];
    }
  }
}
