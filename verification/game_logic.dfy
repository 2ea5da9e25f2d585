/** The move engine of Flea Devil Solitaire (src/utils/gameLogic.ts): the deck builder,
    the shuffle, and one evaluator per move. Every evaluator returns a fresh Market and
    never changes the one it is given. */
module GameLogic {

  import opened Cards
  import opened Market

  datatype MoveResult = MoveResult(success: bool, newMarket: seq<Card>)

  datatype HaulResult = HaulResult(success: bool, newMarket: seq<Card>, score: int)

  /* ---------------------------------------------------------------- the deck */

  /** `initializeDeck`: pushes the 52 standard cards suit by suit, then two Zonkers and
      two Parking Lots. Each card's id is the position it is pushed to. */
  method InitializeDeck() returns (deck: seq<Card>)
    ensures deck == CanonicalDeck()
  {
    deck := [];
    for s := 0 to |Suits|
      invariant |deck| == 13 * s
      invariant DeckPrefix(deck)
    {
      for r := 0 to |Ranks|
        invariant |deck| == 13 * s + r
        invariant DeckPrefix(deck)
      {
        SuitMajorPosition(s, r);
        DeckPrefixGrows(deck, Card(|deck|, Suits[s], Ranks[r], true, false, false));
        deck := deck + [Card(|deck|, Suits[s], Ranks[r], true, false, false)];
      }
    }
    DeckPrefixGrows(deck, Card(|deck|, "", "Z", true, true, false));
    deck := deck + [Card(|deck|, "", "Z", true, true, false)];
    DeckPrefixGrows(deck, Card(|deck|, "", "Z", true, true, false));
    deck := deck + [Card(|deck|, "", "Z", true, true, false)];
    DeckPrefixGrows(deck, Card(|deck|, "", "P", true, false, true));
    deck := deck + [Card(|deck|, "", "P", true, false, true)];
    DeckPrefixGrows(deck, Card(|deck|, "", "P", true, false, true));
    deck := deck + [Card(|deck|, "", "P", true, false, true)];
  }

  /** `deck` is the first |deck| cards of the fresh deck. */
  predicate DeckPrefix(deck: seq<Card>) {
    |deck| <= DeckSize && forall k :: 0 <= k < |deck| ==> deck[k] == DeckCard(k)
  }

  lemma DeckPrefixGrows(deck: seq<Card>, c: Card)
    requires DeckPrefix(deck) && |deck| < DeckSize && c == DeckCard(|deck|)
    ensures DeckPrefix(deck + [c])
    ensures |deck| + 1 == DeckSize ==> deck + [c] == CanonicalDeck()
  {
  }

  /** A fresh deck holds no card twice. */
  lemma CanonicalDeckDistinct()
    ensures Distinct(CanonicalDeck())
  {
  }

  /* ------------------------------------------------------------- the shuffle */

  /** The random index drawn at step `i` of the shuffle lies in [0, i]; `choices[i]` stands
      for `Math.floor(Math.random() * (i + 1))` (entry 0 is never used). */
  predicate ValidChoices(choices: seq<nat>, n: nat) {
    |choices| == n && forall i :: 0 < i < n ==> choices[i] <= i
  }

  /** The Fisher-Yates steps i, i - 1, ..., 1 applied to `s`: step k swaps positions k and
      choices[k]. */
  function FisherYates(s: seq<Card>, choices: seq<nat>, i: int): (r: seq<Card>)
    requires ValidChoices(choices, |s|) && i < |s|
    ensures |r| == |s| && multiset(r) == multiset(s)
    decreases i
  {
    if i <= 0 then s
    else FisherYates(Swapped(s, i, choices[i]), choices, i - 1)
  }

  /** A permutation of a sequence without repeats has no repeats either. */
  lemma PermutationKeepsDistinct(s: seq<Card>, t: seq<Card>)
    requires Distinct(s) && multiset(s) == multiset(t)
    ensures Distinct(t)
  {
    forall a, b | 0 <= a < b < |t| ensures t[a] != t[b] {
      if t[a] == t[b] {
        assert t == t[..b] + [t[b]] + t[b + 1..];
        assert t[a] in t[..b];
        assert multiset(t)[t[b]] >= 2;
        DistinctCountsOnce(s, t[b]);
        assert false;
      }
    }
  }

  lemma {:induction false} DistinctCountsOnce(s: seq<Card>, x: Card)
    requires Distinct(s)
    ensures multiset(s)[x] <= 1
  {
    if s != [] {
      assert s == [s[0]] + s[1..];
      DistinctCountsOnce(s[1..], x);
      if s[0] == x {
        assert x !in s[1..];
      }
    }
  }

  /** `shuffleDeck`: copies the deck into a fresh array and shuffles the copy in place,
      from the last position down to position 1. */
  method ShuffleDeck(deck: seq<Card>, choices: seq<nat>) returns (shuffled: seq<Card>)
    requires ValidChoices(choices, |deck|)
    ensures shuffled == FisherYates(deck, choices, |deck| - 1)
    ensures |shuffled| == |deck| && multiset(shuffled) == multiset(deck)
  {
    var a := new Card[|deck|](k requires 0 <= k < |deck| => deck[k]);
    assert a[..] == deck;
    var i := a.Length - 1;
    while i > 0
      invariant -1 <= i < a.Length == |a[..]| == |deck|
      invariant FisherYates(a[..], choices, i) == FisherYates(deck, choices, |deck| - 1)
    {
      var j := choices[i];
      ghost var before := a[..];
      a[i], a[j] := a[j], a[i];
      assert a[..] == Swapped(before, i, j);
      i := i - 1;
    }
    shuffled := a[..];
    assert FisherYates(shuffled, choices, i) == shuffled;
  }

  /* ---------------------------------------------------------------- Haul */

  predicate SameRank(sel: seq<Card>) {
    forall k :: 0 <= k < |sel| ==> sel[k].rank == sel[0].rank
  }

  /** The `every` test of `haul`: each selected card after the first has the first card's
      rank and stands one market position after the card selected before it. */
  predicate IsHaulRun(market: seq<Card>, sel: seq<Card>) {
    forall k :: 1 <= k < |sel| ==> RunStep(market, sel, k)
  }

  /** The test `every` applies to the card at selection index k >= 1. */
  predicate RunStep(market: seq<Card>, sel: seq<Card>, k: nat)
    requires 1 <= k < |sel|
  {
    sel[k].rank == sel[0].rank && IndexOf(market, sel[k]) == IndexOf(market, sel[k - 1]) + 1
  }

  /** `sel` fills the market positions p, p + 1, ..., p + |sel| - 1, in that order. */
  predicate OccupiesFrom(market: seq<Card>, sel: seq<Card>, p: int) {
    0 <= p && p + |sel| <= |market| && market[p..p + |sel|] == sel
  }

  /** `haul`, as written. */
  function Haul(market: seq<Card>, sel: seq<Card>): (r: HaulResult)
    ensures r.success ==> |sel| >= 2 && r.score == |sel| && |r.newMarket| <= |market|
    ensures !r.success ==> r == HaulResult(false, market, 0)
  {
    if |sel| < 2 then HaulResult(false, market, 0)
    else if !IsHaulRun(market, sel) then HaulResult(false, market, 0)
    else HaulResult(true, Without(market, sel), |sel|)
  }

  /** `haul` with the first selected card also required to be in the market. */
  function HaulInMarket(market: seq<Card>, sel: seq<Card>): (r: HaulResult)
    ensures r.success ==> |sel| >= 2 && sel[0] in market && r.score == |sel| && |r.newMarket| <= |market|
    ensures !r.success ==> r == HaulResult(false, market, 0)
  {
    if |sel| < 2 || sel[0] !in market then HaulResult(false, market, 0)
    else if !IsHaulRun(market, sel) then HaulResult(false, market, 0)
    else HaulResult(true, Without(market, sel), |sel|)
  }

  /** Along a run, positions grow by one per selected card. */
  lemma {:induction false} HaulRunPositions(market: seq<Card>, sel: seq<Card>, k: nat)
    requires IsHaulRun(market, sel) && k < |sel|
    ensures IndexOf(market, sel[k]) == IndexOf(market, sel[0]) + k
  {
    if k > 0 {
      assert RunStep(market, sel, k);
      HaulRunPositions(market, sel, k - 1);
    }
  }

  /** A run lies on consecutive market positions: from the first card's position when
      that card is in the market, and otherwise from position 0 on, after the first card. */
  lemma HaulRunOccupies(market: seq<Card>, sel: seq<Card>)
    requires IsHaulRun(market, sel) && |sel| >= 2
    ensures SameRank(sel)
    ensures 0 <= IndexOf(market, sel[0]) ==> OccupiesFrom(market, sel, IndexOf(market, sel[0]))
    ensures IndexOf(market, sel[0]) < 0 ==> OccupiesFrom(market, sel[1..], 0)
  {
    forall k | 1 <= k < |sel| ensures sel[k].rank == sel[0].rank {
      assert RunStep(market, sel, k);
    }
    if IndexOf(market, sel[0]) >= 0 {
      HaulRunFromFirst(market, sel);
    } else {
      HaulRunAfterAbsent(market, sel);
    }
  }

  lemma HaulRunFromFirst(market: seq<Card>, sel: seq<Card>)
    requires IsHaulRun(market, sel) && |sel| >= 2 && 0 <= IndexOf(market, sel[0])
    ensures OccupiesFrom(market, sel, IndexOf(market, sel[0]))
  {
    var p := IndexOf(market, sel[0]);
    HaulRunPositions(market, sel, |sel| - 1);
    forall k | 0 <= k < |sel| ensures market[p + k] == sel[k] {
      HaulRunPositions(market, sel, k);
    }
    SliceFrom(market, sel, p);
  }

  lemma HaulRunAfterAbsent(market: seq<Card>, sel: seq<Card>)
    requires IsHaulRun(market, sel) && |sel| >= 2 && IndexOf(market, sel[0]) < 0
    ensures OccupiesFrom(market, sel[1..], 0)
  {
    HaulRunPositions(market, sel, |sel| - 1);
    forall k | 0 <= k < |sel| - 1 ensures market[k] == sel[1..][k] {
      HaulRunPositions(market, sel, k + 1);
    }
    SliceFrom(market, sel[1..], 0);
  }

  lemma SliceFrom(market: seq<Card>, sel: seq<Card>, p: nat)
    requires p + |sel| <= |market|
    requires forall k :: 0 <= k < |sel| ==> market[p + k] == sel[k]
    ensures OccupiesFrom(market, sel, p)
  {
    assert market[p..p + |sel|] == sel;
  }

  /** Conversely, same-rank cards on consecutive positions of a market without repeats
      form a run. */
  lemma OccupiesIsHaulRun(market: seq<Card>, sel: seq<Card>, p: int)
    requires Distinct(market) && SameRank(sel) && OccupiesFrom(market, sel, p)
    ensures IsHaulRun(market, sel)
  {
    forall k | 1 <= k < |sel| ensures RunStep(market, sel, k) {
      IndexOfDistinct(market, p + k);
      IndexOfDistinct(market, p + k - 1);
      assert sel[k] == market[p + k] && sel[k - 1] == market[p + k - 1];
    }
  }

  /** A first card missing from the market, followed by same-rank cards from position 0
      on, also passes the run test, because `indexOf` answers -1 for the missing card. */
  lemma AbsentFirstIsHaulRun(market: seq<Card>, sel: seq<Card>)
    requires Distinct(market) && SameRank(sel) && sel != [] && sel[0] !in market
    requires OccupiesFrom(market, sel[1..], 0)
    ensures IsHaulRun(market, sel)
  {
    forall k | 1 <= k < |sel| ensures RunStep(market, sel, k) {
      assert sel[k] == sel[1..][k - 1] == market[k - 1];
      IndexOfDistinct(market, k - 1);
      if k >= 2 {
        assert sel[k - 1] == sel[1..][k - 2] == market[k - 2];
        IndexOfDistinct(market, k - 2);
      }
    }
  }

  /** When `haul` (as written) succeeds: two or more cards of one rank, lying in selection
      order on consecutive market positions -- or, because `indexOf` answers -1 for a
      missing card, a first card that is not in the market at all followed by a run that
      starts at position 0. A rejected haul returns the market as it was and scores 0. */
  lemma HaulSucceedsIff(market: seq<Card>, sel: seq<Card>)
    requires Distinct(market)
    ensures Haul(market, sel).success <==>
      |sel| >= 2 && SameRank(sel) &&
      (OccupiesFrom(market, sel, IndexOf(market, sel[0])) ||
       (sel[0] !in market && OccupiesFrom(market, sel[1..], 0)))
    ensures !Haul(market, sel).success ==> Haul(market, sel) == HaulResult(false, market, 0)
  {
    if |sel| >= 2 {
      var p := IndexOf(market, sel[0]);
      if IsHaulRun(market, sel) {
        HaulRunOccupies(market, sel);
      } else if SameRank(sel) && OccupiesFrom(market, sel, p) {
        OccupiesIsHaulRun(market, sel, p);
      } else if SameRank(sel) && sel[0] !in market && OccupiesFrom(market, sel[1..], 0) {
        AbsentFirstIsHaulRun(market, sel);
      }
    }
  }

  /** The discrepancy: a selection whose first card is not in the market scores two points
      while only one card leaves the market. */
  lemma HaulScoresAbsentFirstCard()
    ensures var market := [StandardCard(0, 0)];
            var r := Haul(market, [StandardCard(1, 0), StandardCard(0, 0)]);
            r.success && r.score == 2 && |market| - |r.newMarket| == 1
    ensures !HaulInMarket([StandardCard(0, 0)], [StandardCard(1, 0), StandardCard(0, 0)]).success
  {
    var market := [StandardCard(0, 0)];
    var sel := [StandardCard(1, 0), StandardCard(0, 0)];
    assert IndexOf(market, sel[0]) == -1;
    assert IndexOf(market, sel[1]) == 0;
    assert Without(market, sel) == [];
  }

  /** `haul` with the first card required in the market succeeds exactly on two or more
      cards of one rank lying in selection order on consecutive market positions; a
      rejected haul leaves the market as it was and scores nothing. */
  lemma HaulInMarketSucceedsIff(market: seq<Card>, sel: seq<Card>)
    requires Distinct(market)
    ensures HaulInMarket(market, sel).success <==>
      |sel| >= 2 && SameRank(sel) && OccupiesFrom(market, sel, IndexOf(market, sel[0]))
    ensures !HaulInMarket(market, sel).success ==> HaulInMarket(market, sel) == HaulResult(false, market, 0)
  {
    HaulSucceedsIff(market, sel);
  }

  /** A successful haul removes exactly the selected block, keeps every other card in its
      order, and scores one point per removed card. */
  lemma HaulInMarketRemovesRun(market: seq<Card>, sel: seq<Card>)
    requires Distinct(market) && HaulInMarket(market, sel).success
    ensures OccupiesFrom(market, sel, IndexOf(market, sel[0]))
    ensures HaulInMarket(market, sel).newMarket
         == market[..IndexOf(market, sel[0])] + market[IndexOf(market, sel[0]) + |sel|..]
    ensures HaulInMarket(market, sel).score == |sel| == |market| - |HaulInMarket(market, sel).newMarket|
    ensures Distinct(HaulInMarket(market, sel).newMarket)
  {
    var p := IndexOf(market, sel[0]);
    HaulInMarketFilters(market, sel);
    HaulInMarketSucceedsIff(market, sel);
    OutsideBlock(market, sel, p);
    RemoveBlock(market, sel, p);
    WithoutKeepsDistinct(market, sel);
  }

  lemma HaulInMarketFilters(market: seq<Card>, sel: seq<Card>)
    requires HaulInMarket(market, sel).success
    ensures HaulInMarket(market, sel) == HaulResult(true, Without(market, sel), |sel|)
  {
  }

  /** A successful haul loses no card: what leaves the market is exactly the selection. */
  lemma HaulInMarketKeepsCards(market: seq<Card>, sel: seq<Card>)
    requires Distinct(market) && HaulInMarket(market, sel).success
    ensures multiset(market) == multiset(HaulInMarket(market, sel).newMarket) + multiset(sel)
  {
    HaulInMarketRemovesRun(market, sel);
    CutBlockCount(market, IndexOf(market, sel[0]), sel, HaulInMarket(market, sel).newMarket);
  }

  /** Filtering out a block that occupies consecutive positions of a market without repeats
      cuts exactly that block out. */
  lemma RemoveBlock(market: seq<Card>, sel: seq<Card>, p: int)
    requires OccupiesFrom(market, sel, p)
    requires forall i :: 0 <= i < |market| && (i < p || p + |sel| <= i) ==> market[i] !in sel
    ensures Without(market, sel) == market[..p] + market[p + |sel|..]
  {
    forall k | p <= k < p + |sel| ensures market[k] in sel {
      assert market[k] == market[p..p + |sel|][k - p];
    }
    WithoutCutsBlock(market, sel, p, p + |sel|);
  }

  /** In a market without repeats, no card outside the block a selection occupies is
      selected. */
  lemma OutsideBlock(market: seq<Card>, sel: seq<Card>, p: int)
    requires Distinct(market) && OccupiesFrom(market, sel, p)
    ensures forall i :: 0 <= i < |market| && (i < p || p + |sel| <= i) ==> market[i] !in sel
  {
    forall i | 0 <= i < |market| && (i < p || p + |sel| <= i) ensures market[i] !in sel {
      forall k | 0 <= k < |sel| ensures sel[k] != market[i] {
        assert sel[k] == market[p + k];
      }
    }
  }

  /** On every selection whose first card is in the market, both versions agree. */
  lemma HaulAgreesWhenFirstInMarket(market: seq<Card>, sel: seq<Card>)
    requires sel != [] && sel[0] in market
    ensures Haul(market, sel) == HaulInMarket(market, sel)
  {
  }

  /* ---------------------------------------------------------------- Bargain */

  function Abs(x: int): nat {
    if x < 0 then -x else x
  }

  /** `performBargain`: two cards one market position apart swap places.
      Both cards must be in the market. With one card missing (index -1) and the other at
      position 0 the distance test passes and the JavaScript code writes to index -1, leaving
      position 0 undefined; the model does not represent that case. */
  function Bargain(market: seq<Card>, card1: Card, card2: Card): (r: MoveResult)
    requires card1 in market && card2 in market
    ensures var i, j := IndexOf(market, card1), IndexOf(market, card2);
            (r.success <==> i + 1 == j || j + 1 == i) &&
            (r.success ==> |r.newMarket| == |market| && r.newMarket[i] == card2 && r.newMarket[j] == card1 &&
                           (forall k :: 0 <= k < |market| && k != i && k != j ==> r.newMarket[k] == market[k]) &&
                           multiset(r.newMarket) == multiset(market)) &&
            (!r.success ==> r.newMarket == market)
  {
    var index1 := IndexOf(market, card1);
    var index2 := IndexOf(market, card2);
    if Abs(index1 - index2) != 1 then MoveResult(false, market)
    else MoveResult(true, Swapped(market, index1, index2))
  }

  /** A bargain is undone by bargaining the same two cards again. */
  lemma BargainUndo(market: seq<Card>, card1: Card, card2: Card)
    requires Distinct(market) && card1 in market && card2 in market
    requires Bargain(market, card1, card2).success
    ensures var m' := Bargain(market, card1, card2).newMarket;
            Distinct(m') && card1 in m' && card2 in m' && Bargain(m', card1, card2) == MoveResult(true, market)
  {
    var i, j := IndexOf(market, card1), IndexOf(market, card2);
    var m' := Bargain(market, card1, card2).newMarket;
    PermutationKeepsDistinct(market, m');
    IndexOfDistinct(m', i);
    IndexOfDistinct(m', j);
    assert Swapped(m', j, i) == market;
  }

  /** `performBargain` on a copy of the market. */
  method PerformBargain(market: seq<Card>, card1: Card, card2: Card) returns (success: bool, newMarket: seq<Card>)
    requires card1 in market && card2 in market
    ensures MoveResult(success, newMarket) == Bargain(market, card1, card2)
  {
    var index1 := IndexOf(market, card1);
    var index2 := IndexOf(market, card2);
    if Abs(index1 - index2) != 1 {
      return false, market;
    }
    var a := new Card[|market|](k requires 0 <= k < |market| => market[k]);
    a[index1], a[index2] := a[index2], a[index1];
    return true, a[..];
  }

  /* ---------------------------------------------------------------- Flea Hop */

  /** The card whose market position a flea hop takes: the next card of the same suit in
      market order, wrapping round to the first one. Specials all have the empty suit and
      so form one "suit". */
  function SuitSuccessor(market: seq<Card>, card: Card): (c: Card)
    requires card in market && |SameSuit(market, card.suit)| >= 2
    ensures c in market && c.suit == card.suit
  {
    var suitCards := SameSuit(market, card.suit);
    suitCards[NextInCycle(IndexOf(suitCards, card), |suitCards|)]
  }

  /** `performFleaHop`: takes the card out and re-inserts it at the original market index
      of its same-suit successor. It succeeds exactly when the card is in the market and
      shares its suit with another card there. */
  function FleaHop(market: seq<Card>, card: Card): (r: MoveResult)
    ensures r.success <==> card in market && |SameSuit(market, card.suit)| >= 2
    ensures !r.success ==> r.newMarket == market
  {
    var suitCards := SameSuit(market, card.suit);
    var currentIndex := IndexOf(suitCards, card);
    if currentIndex == -1 || |suitCards| < 2 then MoveResult(false, market)
    else
      var newPosition := IndexOf(market, suitCards[NextInCycle(currentIndex, |suitCards|)]);
      var oldPosition := IndexOf(market, card);
      MoveResult(true, InsertAt(RemoveAt(market, oldPosition), newPosition, card))
  }

  /** A successful flea hop permutes the market: the card now stands where its suit
      successor stood, and taking it out again leaves the market with the card taken out. */
  lemma FleaHopMovesCard(market: seq<Card>, card: Card)
    requires card in market && |SameSuit(market, card.suit)| >= 2
    ensures |FleaHop(market, card).newMarket| == |market|
    ensures multiset(FleaHop(market, card).newMarket) == multiset(market)
    ensures FleaHop(market, card).newMarket[IndexOf(market, SuitSuccessor(market, card))] == card
    ensures RemoveAt(FleaHop(market, card).newMarket, IndexOf(market, SuitSuccessor(market, card)))
         == RemoveAt(market, IndexOf(market, card))
  {
    var from, to := IndexOf(market, card), IndexOf(market, SuitSuccessor(market, card));
    FleaHopSplices(market, card);
    MovePermutes(market, from, to);
    RemoveInserted(RemoveAt(market, from), to, card);
  }

  /** The market a successful flea hop returns, spelled as the two splices. */
  lemma FleaHopSplices(market: seq<Card>, card: Card)
    requires card in market && |SameSuit(market, card.suit)| >= 2
    ensures FleaHop(market, card).newMarket ==
      InsertAt(RemoveAt(market, IndexOf(market, card)), IndexOf(market, SuitSuccessor(market, card)), card)
  {
  }

  /** Taking a card out and putting it back elsewhere permutes the sequence. */
  lemma MovePermutes(s: seq<Card>, from: nat, to: nat)
    requires from < |s| && to < |s|
    ensures multiset(InsertAt(RemoveAt(s, from), to, s[from])) == multiset(s)
  {
    var t := RemoveAt(s, from);
    calc {
      multiset(s);
      { assert s == s[..from] + [s[from]] + s[from + 1..]; }
      multiset(s[..from]) + multiset{s[from]} + multiset(s[from + 1..]);
      multiset(t) + multiset{s[from]};
      { assert t == t[..to] + t[to..]; }
      multiset(t[..to]) + multiset{s[from]} + multiset(t[to..]);
      multiset(InsertAt(t, to, s[from]));
    }
  }

  /** The suit subsequence splits at the card: the suit cards before it, the card, the suit
      cards after it; so the card's rank within its suit counts the suit cards before it. */
  lemma SuitSplit(market: seq<Card>, card: Card) returns (before: seq<Card>, after: seq<Card>)
    requires card in market
    ensures before == SameSuit(market[..IndexOf(market, card)], card.suit)
    ensures after == SameSuit(market[IndexOf(market, card) + 1..], card.suit)
    ensures SameSuit(market, card.suit) == before + [card] + after
    ensures IndexOf(SameSuit(market, card.suit), card) == |before|
  {
    var suit := card.suit;
    var from := IndexOf(market, card);
    var a, b := market[..from], market[from + 1..];
    before, after := SameSuit(a, suit), SameSuit(b, suit);
    SplitAt(market, from);
    SameSuitAppend(a + [card], b, suit);
    SameSuitAppend(a, [card], suit);
    assert SameSuit([card], suit) == [card];
    assert card !in before;
    IndexOfAfterPrefix(before, card, after);
  }

  /** When a card of its suit lies after the card, the successor is the first such card,
      and no card of the suit lies between the two. */
  lemma ForwardSuccessor(market: seq<Card>, card: Card) returns (to: nat)
    requires card in market
    requires SameSuit(market[IndexOf(market, card) + 1..], card.suit) != []
    ensures |SameSuit(market, card.suit)| >= 2
    ensures IndexOf(market, card) < to < |market| && SuitSuccessor(market, card) == market[to]
    ensures forall k :: IndexOf(market, card) < k < to ==> market[k].suit != card.suit
  {
    var from := IndexOf(market, card);
    to := SuitHeadAfter(market, from, card.suit);
    var before, after := SuitSplit(market, card);
    var ss := SameSuit(market, card.suit);
    assert ss[|before| + 1] == after[0];
  }

  /** When no card of its suit lies after the card, the successor is the first card of the
      suit, and no card of the suit lies before it or after the card. */
  lemma WrapSuccessor(market: seq<Card>, card: Card) returns (to: nat)
    requires card in market && |SameSuit(market, card.suit)| >= 2
    requires SameSuit(market[IndexOf(market, card) + 1..], card.suit) == []
    ensures to < IndexOf(market, card) && SuitSuccessor(market, card) == market[to]
    ensures forall k :: 0 <= k < to ==> market[k].suit != card.suit
    ensures forall k :: IndexOf(market, card) < k < |market| ==> market[k].suit != card.suit
  {
    var from, suit := IndexOf(market, card), card.suit;
    var before, after := SuitSplit(market, card);
    var ss := SameSuit(market, suit);
    assert |after| == 0 && |ss| == |before| + 1;
    assert SuitSuccessor(market, card) == ss[0] == before[0];
    NoSuitAfter(market, from, suit);
    to := SuitHeadBefore(market, from, suit);
  }

  /** A card with a suit card after it hops onto the first such card, passing no card of
      its suit. */
  lemma FleaHopForward(market: seq<Card>, card: Card)
    requires Distinct(market) && card in market
    requires SameSuit(market[IndexOf(market, card) + 1..], card.suit) != []
    ensures |SameSuit(market, card.suit)| >= 2
    ensures var from, to := IndexOf(market, card), IndexOf(market, SuitSuccessor(market, card));
            from < to && market[to].suit == card.suit &&
            forall k :: from < k < to ==> market[k].suit != card.suit
  {
    var to := ForwardSuccessor(market, card);
    IndexOfDistinct(market, to);
  }

  /** A card that is the last of its suit wraps round onto the first card of its suit: no
      card of the suit lies before that position or after the card. */
  lemma FleaHopWrap(market: seq<Card>, card: Card)
    requires Distinct(market) && card in market && |SameSuit(market, card.suit)| >= 2
    requires SameSuit(market[IndexOf(market, card) + 1..], card.suit) == []
    ensures var from, to := IndexOf(market, card), IndexOf(market, SuitSuccessor(market, card));
            0 <= to < from && market[to].suit == card.suit &&
            (forall k :: 0 <= k < to ==> market[k].suit != card.suit) &&
            (forall k :: from < k < |market| ==> market[k].suit != card.suit)
  {
    var to := WrapSuccessor(market, card);
    IndexOfDistinct(market, to);
  }

  /** `(i + 1) % n`, the next index round a cycle of length `n`: one step on, or back to 0
      from the end. */
  function NextInCycle(i: nat, n: nat): (j: nat)
    requires i < n
    ensures j < n
  {
    if i + 1 < n then i + 1 else 0
  }

  lemma NextInCycleIsModulo(i: nat, n: nat)
    requires i < n
    ensures NextInCycle(i, n) == (i + 1) % n
  {
  }

  /** Where the card lands: if a card of its suit lies after it, at the first such card's
      position, which no card of the suit separates from it; otherwise (the wrap-around) at
      the position of the first card of its suit, with no card of the suit before that
      position or after the card. */
  lemma FleaHopTarget(market: seq<Card>, card: Card)
    requires Distinct(market) && card in market && |SameSuit(market, card.suit)| >= 2
    ensures var from, to := IndexOf(market, card), IndexOf(market, SuitSuccessor(market, card));
            0 <= to && market[to].suit == card.suit && from != to &&
            (from < to ==> forall k :: from < k < to ==> market[k].suit != card.suit) &&
            (to < from ==> (forall k :: 0 <= k < to ==> market[k].suit != card.suit) &&
                           (forall k :: from < k < |market| ==> market[k].suit != card.suit))
  {
    if SameSuit(market[IndexOf(market, card) + 1..], card.suit) != [] {
      FleaHopForward(market, card);
    } else {
      FleaHopWrap(market, card);
    }
  }

  /** `performFleaHop` on a copy of the market: two `splice` calls. */
  method PerformFleaHop(market: seq<Card>, selectedCard: Card) returns (success: bool, newMarket: seq<Card>)
    ensures MoveResult(success, newMarket) == FleaHop(market, selectedCard)
  {
    var suitCards := SameSuit(market, selectedCard.suit);
    var currentIndex := IndexOf(suitCards, selectedCard);
    if currentIndex == -1 || |suitCards| < 2 {
      return false, market;
    }
    var newSuitIndex := NextInCycle(currentIndex, |suitCards|);
    assert selectedCard in market && suitCards[newSuitIndex] in market;
    var newPosition := IndexOf(market, suitCards[newSuitIndex]);
    newMarket := market;
    var oldPosition := IndexOf(newMarket, selectedCard);
    newMarket := newMarket[..oldPosition] + newMarket[oldPosition + 1..];
    assert newMarket == RemoveAt(market, oldPosition);
    newMarket := newMarket[..newPosition] + [selectedCard] + newMarket[newPosition..];
    success := true;
  }

  /* ------------------------------------------------ moves left unimplemented */

  /** `performDevilHop` is a stub: it rejects every selection. */
  function PerformDevilHop(market: seq<Card>, selectedCards: seq<Card>): (r: MoveResult)
    ensures !r.success && r.newMarket == market
  {
    MoveResult(false, market)
  }

  /** `performWalkyTalky` is a stub: it rejects every selection. */
  function PerformWalkyTalky(market: seq<Card>, selectedCards: seq<Card>): (r: MoveResult)
    ensures !r.success && r.newMarket == market
  {
    MoveResult(false, market)
  }

  /** `performZonkOut` is a stub: it rejects every selection. */
  function PerformZonkOut(market: seq<Card>, selectedCards: seq<Card>): (r: MoveResult)
    ensures !r.success && r.newMarket == market
  {
    MoveResult(false, market)
  }

  /** `performHangout` is a stub: it rejects every selection. */
  function PerformHangout(market: seq<Card>, selectedCards: seq<Card>): (r: MoveResult)
    ensures !r.success && r.newMarket == market
  {
    MoveResult(false, market)
  }

  /** `performEasyGo` is a stub: it rejects every selection, including two adjacent cards
      of one suit. */
  function PerformEasyGo(market: seq<Card>, selectedCards: seq<Card>): (r: MoveResult)
    ensures !r.success && r.newMarket == market
  {
    MoveResult(false, market)
  }
}
