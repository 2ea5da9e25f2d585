/** Cards of Flea Devil Solitaire and the fixed pre-shuffle deck order.

    The game compares cards by object identity, and the two Zonkers (and the two
    Parking Lots) are structurally equal. The model therefore gives each card an
    `id`, its position in the freshly built deck; two cards are the same card
    exactly when they are equal as values. */
module Cards {

  datatype Card = Card(id: nat, suit: string, rank: string, faceUp: bool, isZonker: bool, isParkingLot: bool)

  /** The four suit symbols, in generation order. */
  const Suits: seq<string> := ["♠", "♥", "♦", "♣"]

  /** The thirteen rank symbols, in generation order. */
  const Ranks: seq<string> := ["A", "2", "3", "4", "5", "6", "7", "8", "9", "10", "J", "Q", "K"]

  /** Number of cards in a fresh deck: 13 ranks x 4 suits, 2 Zonkers, 2 Parking Lots. */
  const DeckSize: nat := 56

  /** The standard card of suit number `s` and rank number `r`, as the deck builder creates it. */
  function StandardCard(s: nat, r: nat): Card
    requires s < 4 && r < 13
  {
    Card(13 * s + r, Suits[s], Ranks[r], true, false, false)
  }

  function Zonker(id: nat): Card {
    Card(id, "", "Z", true, true, false)
  }

  function ParkingLot(id: nat): Card {
    Card(id, "", "P", true, false, true)
  }

  /** Exactly one of "standard rank and suit", "Zonker", "Parking Lot" describes a card;
      specials have the empty suit. */
  predicate WellFormed(c: Card) {
    if c.isZonker then !c.isParkingLot && c.suit == "" && c.rank == "Z"
    else if c.isParkingLot then c.suit == "" && c.rank == "P"
    else c.suit in Suits && c.rank in Ranks
  }

  /** The card at position `i` of the deck before shuffling: suit-major, rank-minor,
      then the two Zonkers, then the two Parking Lots. */
  function DeckCard(i: nat): (c: Card)
    requires i < DeckSize
    ensures c.id == i && WellFormed(c)
  {
    if i < 52 then StandardCard(i / 13, i % 13)
    else if i < 54 then Zonker(i)
    else ParkingLot(i)
  }

  function CanonicalDeck(): (deck: seq<Card>)
    ensures |deck| == DeckSize
    ensures forall i :: 0 <= i < |deck| ==> deck[i].id == i
  {
    seq(DeckSize, i requires 0 <= i < DeckSize => DeckCard(i))
  }

  /** Position 13 * s + r of the fresh deck holds suit s and rank r. */
  lemma SuitMajorPosition(s: nat, r: nat)
    requires s < 4 && r < 13
    ensures 13 * s + r < 52
    ensures DeckCard(13 * s + r) == StandardCard(s, r)
  {
    var i := 13 * s + r;
    assert i / 13 == s && i % 13 == r;
  }

  /** The layout of the fresh deck: the 52 standard cards in suit-major order, each face up
      and neither special, then two Zonkers and two Parking Lots, all with the empty suit. */
  lemma {:induction false} CanonicalDeckLayout()
    ensures forall s: nat, r: nat :: s < 4 && r < 13 ==> CanonicalDeck()[13 * s + r] == StandardCard(s, r)
    ensures CanonicalDeck()[52..] == [Zonker(52), Zonker(53), ParkingLot(54), ParkingLot(55)]
    ensures forall i :: 0 <= i < DeckSize ==> WellFormed(CanonicalDeck()[i]) && CanonicalDeck()[i].faceUp
  {
    forall s: nat, r: nat | s < 4 && r < 13
      ensures CanonicalDeck()[13 * s + r] == StandardCard(s, r)
    {
      SuitMajorPosition(s, r);
    }
  }

  /** The 52 standard cards are pairwise different as (suit, rank) pairs. */
  lemma StandardCardsUnique(s1: nat, r1: nat, s2: nat, r2: nat)
    requires s1 < 4 && r1 < 13 && s2 < 4 && r2 < 13
    requires StandardCard(s1, r1).suit == StandardCard(s2, r2).suit
    requires StandardCard(s1, r1).rank == StandardCard(s2, r2).rank
    ensures s1 == s2 && r1 == r2
  {
  }
}
