/** The cards of the live server (server.py): a card is a value code 0..12
    (2 up to the ace) and a suit code 0..3 (diamonds, clubs, hearts, spades)
    with a `showing` flag, and the standard deck is the 52 cards in
    value-major order. */
module ServerCards {
  import Shuffling

  type Value = v: int | 0 <= v < 13
  type SuitCode = s: int | 0 <= s < 4

  /** A card is created showing, and the server only ever sets `showing`
      to true, so a card is a value. */
  datatype Card = Card(value: Value, suit: SuitCode, showing: bool)

  const ValueNames: seq<string> := ["2", "3", "4", "5", "6", "7", "8", "9", "10", "J", "Q", "K", "A"]
  const SuitNames: seq<string> := ["Diamonds", "Clubs", "Hearts", "Spades"]

  /** What `to_dict` sends to a client: a hidden card, or its names. */
  datatype CardDict = Hidden | Shown(value: string, suit: string)

  /** `to_dict`. */
  function ToDict(c: Card): (d: CardDict)
    ensures d.Hidden? <==> !c.showing
  {
    if !c.showing then Hidden else Shown(ValueNames[c.value], SuitNames[c.suit])
  }

  /** `__repr__`: the names of a showing card, a placeholder otherwise. */
  function Repr(c: Card): (s: string)
  {
    if c.showing then ValueNames[c.value] + " of " + SuitNames[c.suit] else "[CARD]"
  }

  /** The names of showing cards tell the cards apart, so a client sees
      exactly which card it is shown. */
  lemma ShownDictIdentifies(c: Card, d: Card)
    requires c.showing && d.showing && ToDict(c) == ToDict(d)
    ensures c == d
  {
    NamesDistinct();
  }

  lemma NamesDistinct()
    ensures forall i, j :: 0 <= i < j < 13 ==> ValueNames[i] != ValueNames[j]
    ensures forall i, j :: 0 <= i < j < 4 ==> SuitNames[i] != SuitNames[j]
  {
    forall i, j | 0 <= i < j < 13
      ensures ValueNames[i] != ValueNames[j]
    {
      assert ValueNames[i][0] != ValueNames[j][0];
    }
    forall i, j | 0 <= i < j < 4
      ensures SuitNames[i] != SuitNames[j]
    {
      assert SuitNames[i][0] != SuitNames[j][0];
    }
  }

  /** A card shows as the placeholder exactly when it is not showing. */
  lemma ReprHidesExactly(c: Card)
    ensures Repr(c) == "[CARD]" <==> !c.showing
  {
    if c.showing {
      var s := Repr(c);
      var v := ValueNames[c.value];
      assert s[|v|] == ' ';
      assert "[CARD]"[|v|] != ' ' || |v| >= 6;
    }
  }

  /** The cards of one value in suit order, as the inner comprehension of
      `StandardDeck.__init__` appends them. */
  function ValueRow(v: Value): (row: seq<Card>)
    ensures |row| == 4 && forall s :: 0 <= s < 4 ==> row[s] == Card(v, s, true)
  {
    [Card(v, 0, true), Card(v, 1, true), Card(v, 2, true), Card(v, 3, true)]
  }

  /** The rows of values v and up. */
  function RowsFrom(v: nat): (d: seq<Card>)
    requires v <= 13
    ensures |d| == 4 * (13 - v)
    ensures forall k :: 0 <= k < |d| ==> d[k] == Card(v + k / 4, k % 4, true)
    decreases 13 - v
  {
    if v == 13 then [] else
      var rest := RowsFrom(v + 1);
      assert forall k :: 4 <= k < 4 + |rest| ==> (k - 4) / 4 == k / 4 - 1 && (k - 4) % 4 == k % 4;
      ValueRow(v) + rest
  }

  /** The card at position k of the standard deck. */
  function DeckCard(k: int): (c: Card)
    requires 0 <= k < 52
  {
    Card(k / 4, k % 4, true)
  }

  /** `StandardDeck.__init__`: for every value, every suit. */
  function StandardDeck(): (d: seq<Card>)
    ensures |d| == 52
    ensures forall k :: 0 <= k < 52 ==> d[k] == Card(k / 4, k % 4, true)
  {
    seq(52, DeckCard)
  }

  /** The deck is the value rows in order. */
  lemma StandardDeckRows()
    ensures StandardDeck() == RowsFrom(0)
  {
    var d, r := StandardDeck(), RowsFrom(0);
    assert forall k :: 0 <= k < 52 ==> d[k] == r[k];
  }

  /** The standard deck holds every card once, showing. */
  lemma StandardDeckIsComplete()
    ensures forall v: Value, s: SuitCode :: Card(v, s, true) in StandardDeck()
    ensures Shuffling.Distinct(StandardDeck())
  {
    var d := StandardDeck();
    forall v: Value, s: SuitCode
      ensures Card(v, s, true) in d
    {
      assert d[4 * v + s] == Card(v, s, true);
    }
    forall i, j | 0 <= i < j < 52
      ensures d[i] != d[j]
    {
      assert i / 4 != j / 4 || i % 4 != j % 4;
    }
  }

  /** `shuffle` after `__init__`: a fresh deck in the order the choices pick
      (random.shuffle stands for the choice stream); it still holds every
      card once. */
  lemma ShuffledDeckIsComplete(choices: seq<nat>)
    ensures var d := Shuffling.Shuffled(StandardDeck(), choices);
      && |d| == 52 && Shuffling.Distinct(d)
      && (forall v: Value, s: SuitCode :: Card(v, s, true) in d)
      && (forall k :: 0 <= k < 52 ==> d[k].showing)
  {
    var d := Shuffling.Shuffled(StandardDeck(), choices);
    StandardDeckIsComplete();
    Shuffling.ShuffledPermutes(StandardDeck(), choices);
    Shuffling.ShuffledKeepsDistinct(StandardDeck(), choices);
    forall v: Value, s: SuitCode
      ensures Card(v, s, true) in d
    {
      assert Card(v, s, true) in multiset(StandardDeck());
    }
    forall k | 0 <= k < 52
      ensures d[k].showing
    {
      assert d[k] in multiset(StandardDeck());
    }
  }
}
