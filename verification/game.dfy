/** The game screen of Flea Devil Solitaire (src/components/Game.tsx): the state the
    component keeps, and one handler per button or card click.

    `Session` is the component's state as a value, and the `*Step` functions say what each
    handler makes of it; the class `Game` holds the same state in mutable fields and its
    methods update them as the handlers do, each proved to take the state to its `*Step`. */
module GameScreen {

  import opened Cards
  import opened Market
  import opened GameLogic

  /** The eight move buttons. */
  datatype Move = HaulMove | BargainMove | FleaHopMove | DevilHopMove | WalkyTalkyMove
                | ZonkOutMove | HangoutMove | EasyGoMove

  /** The status line, by meaning rather than wording. */
  datatype Message =
    | NoMessage                 // the empty string
    | WrongSelectionSize(move: Move)  // "Select exactly ... cards ..."
    | Succeeded(move: Move)     // "... successful!"
    | Invalid(move: Move)       // "Invalid ... Try again."

  datatype Session = Session(
    deck: seq<Card>,
    bankroll: seq<Card>,
    market: seq<Card>,
    easyGo: seq<Card>,
    selected: seq<Card>,
    score: int,
    strikes: int,
    message: Message)

  /** The `useState` initial values, before the mount effect deals a game. */
  const Initial := Session([], [], [], [], [], 0, 0, NoMessage)

  /** The invariant every reachable state keeps: no card twice in the market or in the
      selection, Bankroll and Easy Go empty (only the unimplemented moves would fill them),
      and every selected card lying in the market. */
  predicate ValidSession(s: Session) {
    Distinct(s.market) && Distinct(s.selected) && s.bankroll == [] && s.easyGo == [] &&
    forall i :: 0 <= i < |s.selected| ==> s.selected[i] in s.market
  }

  /** Only moves that succeed change anything but the status line. */
  predicate OnlyMessageChanged(s: Session, t: Session) {
    t == s.(message := t.message)
  }

  /* ------------------------------------------------------------- new game */

  /** `initializeGame`: deals the shuffled fresh deck into the Market and clears all else. */
  function NewGame(choices: seq<nat>): (t: Session)
    requires ValidChoices(choices, DeckSize)
    ensures |t.market| == DeckSize && multiset(t.market) == multiset(CanonicalDeck())
  {
    var shuffled := FisherYates(CanonicalDeck(), choices, DeckSize - 1);
    Session(shuffled, [], shuffled, [], [], 0, 0, NoMessage)
  }

  /** A new game puts all 56 cards of a fresh deck in the Market, each once, with nothing
      selected and score and strikes at 0. */
  lemma NewGameDeals(choices: seq<nat>)
    requires ValidChoices(choices, DeckSize)
    ensures var s := NewGame(choices);
            |s.market| == DeckSize && multiset(s.market) == multiset(CanonicalDeck()) &&
            s.deck == s.market && s.selected == [] && s.score == 0 && s.strikes == 0 &&
            ValidSession(s)
  {
    var s := NewGame(choices);
    CanonicalDeckDistinct();
    PermutationKeepsDistinct(CanonicalDeck(), s.market);
  }

  /* ---------------------------------------------------------- card clicks */

  /** The selection after clicking `card`: dropped if selected, else appended. */
  function Toggle(sel: seq<Card>, card: Card): (r: seq<Card>)
    ensures card in r <==> card !in sel
    ensures forall c :: c != card ==> (c in r <==> c in sel)
    ensures card !in sel ==> r == sel + [card]
    ensures card in sel && Distinct(sel) ==> r == RemoveAt(sel, IndexOf(sel, card))
  {
    WithoutMembers(sel, [card]);
    if card in sel then
      if Distinct(sel) then WithoutDropsOne(sel, card); Without(sel, [card])
      else Without(sel, [card])
    else sel + [card]
  }

  /** Clicking the same unselected card twice restores the selection. */
  lemma {:induction false} ToggleTwice(sel: seq<Card>, card: Card)
    requires card !in sel
    ensures Toggle(Toggle(sel, card), card) == sel
  {
    WithoutAppend(sel, [card], [card]);
    WithoutNoneSelected(sel, [card]);
    assert Without([card], [card]) == [];
  }

  /** Toggling keeps a selection free of repeats. */
  lemma ToggleKeepsDistinct(sel: seq<Card>, card: Card)
    requires Distinct(sel)
    ensures Distinct(Toggle(sel, card))
  {
    if card in sel {
      WithoutKeepsDistinct(sel, [card]);
    }
  }

  /** `handleCardClick`. */
  function ClickCard(s: Session, card: Card): (t: Session)
    ensures t == s.(selected := t.selected)
    ensures card in t.selected <==> card !in s.selected
  {
    s.(selected := Toggle(s.selected, card))
  }

  /** A click on a card on the table keeps the session valid and changes only the
      selection. */
  lemma ClickKeepsValid(s: Session, card: Card)
    requires ValidSession(s) && card in s.market + s.bankroll + s.easyGo
    ensures ValidSession(ClickCard(s, card))
    ensures ClickCard(s, card) == s.(selected := ClickCard(s, card).selected)
  {
    var t := ClickCard(s, card);
    ToggleKeepsDistinct(s.selected, card);
    assert s.market + s.bankroll + s.easyGo == s.market;
    forall i | 0 <= i < |t.selected| ensures t.selected[i] in t.market {
      var c := t.selected[i];
      if c != card {
        assert c in s.selected;
        var j :| 0 <= j < |s.selected| && s.selected[j] == c;
      }
    }
  }

  /* ---------------------------------------------------------------- moves */

  /** `handleHaul`: no size check of its own; a successful haul adds its score. */
  function HaulStep(s: Session): (t: Session)
    ensures t.message == Succeeded(HaulMove) ==> t.selected == [] && t.score == s.score + |s.selected| && t.strikes == s.strikes
    ensures t.message != Succeeded(HaulMove) ==> OnlyMessageChanged(s, t)
  {
    var r := HaulInMarket(s.market, s.selected);
    if r.success then
      s.(market := r.newMarket, score := s.score + r.score, selected := [], message := Succeeded(HaulMove))
    else s.(message := Invalid(HaulMove))
  }

  /** `handleBargain`: two cards, a point's cost. */
  function BargainStep(s: Session): (t: Session)
    requires |s.selected| == 2 ==> s.selected[0] in s.market && s.selected[1] in s.market
    ensures t.message == Succeeded(BargainMove) ==> t.selected == [] && t.score == s.score - 1 && t.strikes == s.strikes
    ensures t.message != Succeeded(BargainMove) ==> OnlyMessageChanged(s, t)
  {
    if |s.selected| != 2 then s.(message := WrongSelectionSize(BargainMove))
    else
      var r := Bargain(s.market, s.selected[0], s.selected[1]);
      if r.success then
        s.(market := r.newMarket, score := s.score - 1, selected := [], message := Succeeded(BargainMove))
      else s.(message := Invalid(BargainMove))
  }

  /** `handleFleaHop`: one card, free. */
  function FleaHopStep(s: Session): (t: Session)
    ensures t.message == Succeeded(FleaHopMove) ==> t.selected == [] && t.score == s.score && t.strikes == s.strikes
    ensures t.message != Succeeded(FleaHopMove) ==> OnlyMessageChanged(s, t)
  {
    if |s.selected| != 1 then s.(message := WrongSelectionSize(FleaHopMove))
    else
      var r := FleaHop(s.market, s.selected[0]);
      if r.success then
        s.(market := r.newMarket, selected := [], message := Succeeded(FleaHopMove))
      else s.(message := Invalid(FleaHopMove))
  }

  /** `handleDevilHop`: four cards, three points' cost. */
  function DevilHopStep(s: Session): (t: Session)
    ensures t.message == Succeeded(DevilHopMove) ==> t.selected == [] && t.score == s.score - 3 && t.strikes == s.strikes
    ensures t.message != Succeeded(DevilHopMove) ==> OnlyMessageChanged(s, t)
  {
    if |s.selected| != 4 then s.(message := WrongSelectionSize(DevilHopMove))
    else
      var r := PerformDevilHop(s.market, s.selected);
      if r.success then
        s.(market := r.newMarket, score := s.score - 3, selected := [], message := Succeeded(DevilHopMove))
      else s.(message := Invalid(DevilHopMove))
  }

  /** `handleWalkyTalky`: three cards, three points' cost. */
  function WalkyTalkyStep(s: Session): (t: Session)
    ensures t.message == Succeeded(WalkyTalkyMove) ==> t.selected == [] && t.score == s.score - 3 && t.strikes == s.strikes
    ensures t.message != Succeeded(WalkyTalkyMove) ==> OnlyMessageChanged(s, t)
  {
    if |s.selected| != 3 then s.(message := WrongSelectionSize(WalkyTalkyMove))
    else
      var r := PerformWalkyTalky(s.market, s.selected);
      if r.success then
        s.(market := r.newMarket, score := s.score - 3, selected := [], message := Succeeded(WalkyTalkyMove))
      else s.(message := Invalid(WalkyTalkyMove))
  }

  /** `handleZonkOut`: two cards, which would go to Easy Go. */
  function ZonkOutStep(s: Session): (t: Session)
    ensures t.message == Succeeded(ZonkOutMove) ==> t.selected == [] && t.score == s.score && t.strikes == s.strikes
    ensures t.message != Succeeded(ZonkOutMove) ==> OnlyMessageChanged(s, t)
  {
    if |s.selected| != 2 then s.(message := WrongSelectionSize(ZonkOutMove))
    else
      var r := PerformZonkOut(s.market, s.selected);
      if r.success then
        s.(market := r.newMarket, easyGo := s.easyGo + s.selected, selected := [],
           message := Succeeded(ZonkOutMove))
      else s.(message := Invalid(ZonkOutMove))
  }

  /** `handleHangout`: at least two cards, which would go to the Bankroll. */
  function HangoutStep(s: Session): (t: Session)
    ensures t.message == Succeeded(HangoutMove) ==> t.selected == [] && t.score == s.score && t.strikes == s.strikes
    ensures t.message != Succeeded(HangoutMove) ==> OnlyMessageChanged(s, t)
  {
    if |s.selected| < 2 then s.(message := WrongSelectionSize(HangoutMove))
    else
      var r := PerformHangout(s.market, s.selected);
      if r.success then
        s.(market := r.newMarket, bankroll := s.bankroll + s.selected, selected := [],
           message := Succeeded(HangoutMove))
      else s.(message := Invalid(HangoutMove))
  }

  /** `handleEasyGo`: two cards, which would go to Easy Go at a point's cost. */
  function EasyGoStep(s: Session): (t: Session)
    ensures t.message == Succeeded(EasyGoMove) ==> t.selected == [] && t.score == s.score - 1 && t.strikes == s.strikes
    ensures t.message != Succeeded(EasyGoMove) ==> OnlyMessageChanged(s, t)
  {
    if |s.selected| != 2 then s.(message := WrongSelectionSize(EasyGoMove))
    else
      var r := PerformEasyGo(s.market, s.selected);
      if r.success then
        s.(market := r.newMarket, easyGo := s.easyGo + s.selected, score := s.score - 1,
           selected := [], message := Succeeded(EasyGoMove))
      else s.(message := Invalid(EasyGoMove))
  }

  /** The row of move buttons. */
  function Press(s: Session, m: Move): (t: Session)
    requires |s.selected| == 2 ==> s.selected[0] in s.market && s.selected[1] in s.market
    ensures t.message in {WrongSelectionSize(m), Succeeded(m), Invalid(m)}
    ensures t.strikes == s.strikes && t.deck == s.deck
  {
    match m
    case HaulMove => HaulStep(s)
    case BargainMove => BargainStep(s)
    case FleaHopMove => FleaHopStep(s)
    case DevilHopMove => DevilHopStep(s)
    case WalkyTalkyMove => WalkyTalkyStep(s)
    case ZonkOutMove => ZonkOutStep(s)
    case HangoutMove => HangoutStep(s)
    case EasyGoMove => EasyGoStep(s)
  }

  /** The selection size a button asks for before it consults the engine; Haul asks for
      none of its own. */
  predicate SizeOk(m: Move, n: nat) {
    match m
    case HaulMove => true
    case BargainMove => n == 2
    case FleaHopMove => n == 1
    case DevilHopMove => n == 4
    case WalkyTalkyMove => n == 3
    case ZonkOutMove => n == 2
    case HangoutMove => n >= 2
    case EasyGoMove => n == 2
  }

  /* ------------------------------------------------------- move properties */

  /** A button answers "wrong selection size" exactly when the selection has the wrong
      size for it, and then changes nothing else; with the right size the engine decides
      between success and an invalid move. */
  lemma PressChecksSize(s: Session, m: Move)
    requires |s.selected| == 2 ==> s.selected[0] in s.market && s.selected[1] in s.market
    ensures Press(s, m).message == WrongSelectionSize(m) <==> !SizeOk(m, |s.selected|)
    ensures !SizeOk(m, |s.selected|) ==> Press(s, m) == s.(message := WrongSelectionSize(m))
    ensures SizeOk(m, |s.selected|) ==> Press(s, m).message in {Succeeded(m), Invalid(m)}
  {
  }

  /** The screen calls `haul` as written; on every valid session it gives the corrected
      haul's answer, so the screen never reaches the as-written haul's extra successes. */
  lemma ScreenHaulAgrees(s: Session)
    requires ValidSession(s)
    ensures Haul(s.market, s.selected) == HaulInMarket(s.market, s.selected)
  {
    if s.selected != [] {
      assert s.selected[0] in s.market;
      HaulAgreesWhenFirstInMarket(s.market, s.selected);
    }
  }

  /** A haul succeeds exactly on two or more selected cards of one rank lying, in selection
      order, on consecutive Market positions; otherwise only the status line changes. */
  lemma HaulStepSucceedsIff(s: Session)
    requires ValidSession(s)
    ensures HaulStep(s).message == Succeeded(HaulMove) <==>
      |s.selected| >= 2 && SameRank(s.selected) &&
      OccupiesFrom(s.market, s.selected, IndexOf(s.market, s.selected[0]))
    ensures HaulStep(s).message != Succeeded(HaulMove) ==> HaulStep(s) == s.(message := Invalid(HaulMove))
  {
    HaulInMarketSucceedsIff(s.market, s.selected);
  }

  /** A successful haul takes the selected block out of the Market, keeps every other card,
      adds one point per card taken and clears the selection. */
  lemma HaulStepScores(s: Session)
    requires ValidSession(s) && HaulStep(s).message == Succeeded(HaulMove)
    ensures HaulStep(s).score == s.score + |s.selected|
    ensures |HaulStep(s).market| == |s.market| - |s.selected|
    ensures multiset(s.market) == multiset(HaulStep(s).market) + multiset(s.selected)
    ensures HaulStep(s).selected == [] && HaulStep(s).strikes == s.strikes
    ensures HaulStep(s).bankroll == s.bankroll && HaulStep(s).easyGo == s.easyGo
  {
    HaulInMarketRemovesRun(s.market, s.selected);
    HaulInMarketKeepsCards(s.market, s.selected);
  }

  /** A bargain succeeds exactly on two selected cards standing next to each other; it
      then swaps them, costs a point and clears the selection. */
  lemma BargainStepSwaps(s: Session)
    requires ValidSession(s)
    ensures var t, sel := BargainStep(s), s.selected;
            (t.message == Succeeded(BargainMove) <==>
               |sel| == 2 && Abs(IndexOf(s.market, sel[0]) - IndexOf(s.market, sel[1])) == 1) &&
            (t.message == Succeeded(BargainMove) ==>
               var i, j := IndexOf(s.market, sel[0]), IndexOf(s.market, sel[1]);
               t.market == Swapped(s.market, i, j) && t.score == s.score - 1 && t.selected == [] &&
               t.strikes == s.strikes && t.bankroll == s.bankroll && t.easyGo == s.easyGo) &&
            (t.message != Succeeded(BargainMove) ==> OnlyMessageChanged(s, t))
  {
  }

  /** A flea hop succeeds exactly on one selected card sharing its suit with another Market
      card; it then moves that card onto its suit successor's position, keeps the Market a
      permutation of itself and clears the selection, at no cost. */
  lemma FleaHopStepMoves(s: Session)
    requires ValidSession(s)
    ensures var t, sel := FleaHopStep(s), s.selected;
            (t.message == Succeeded(FleaHopMove) <==>
               |sel| == 1 && |SameSuit(s.market, sel[0].suit)| >= 2) &&
            (t.message == Succeeded(FleaHopMove) ==>
               var to := IndexOf(s.market, SuitSuccessor(s.market, sel[0]));
               t.market[to] == sel[0] && multiset(t.market) == multiset(s.market) &&
               t.score == s.score && t.selected == [] &&
               t.strikes == s.strikes && t.bankroll == s.bankroll && t.easyGo == s.easyGo) &&
            (t.message != Succeeded(FleaHopMove) ==> OnlyMessageChanged(s, t))
  {
    if |s.selected| == 1 && s.selected[0] in s.market && |SameSuit(s.market, s.selected[0].suit)| >= 2 {
      FleaHopMovesCard(s.market, s.selected[0]);
    }
  }

  /** The two outcomes of a flea hop on a one-card selection, given the engine's answer. */
  lemma FleaHopStepCases(s: Session, success: bool, newMarket: seq<Card>)
    requires ValidSession(s) && |s.selected| == 1
    requires MoveResult(success, newMarket) == FleaHop(s.market, s.selected[0])
    ensures ValidSession(FleaHopStep(s))
    ensures FleaHopStep(s) == if success then s.(market := newMarket, selected := [], message := Succeeded(FleaHopMove))
                              else s.(message := Invalid(FleaHopMove))
  {
    PressKeepsValid(s, FleaHopMove);
  }

  /** The five unimplemented moves never succeed: each only reports a wrong selection size
      or an invalid move. */
  lemma UnimplementedMovesReject(s: Session, m: Move)
    requires m in {DevilHopMove, WalkyTalkyMove, ZonkOutMove, HangoutMove, EasyGoMove}
    requires |s.selected| == 2 ==> s.selected[0] in s.market && s.selected[1] in s.market
    ensures Press(s, m).message in {WrongSelectionSize(m), Invalid(m)}
    ensures Press(s, m).message == Invalid(m) <==> SizeOk(m, |s.selected|)
    ensures OnlyMessageChanged(s, Press(s, m))
  {
  }

  /** Every move keeps the session valid and leaves the strikes as they were; a move that
      does not succeed changes nothing but the status line. */
  lemma PressKeepsValid(s: Session, m: Move)
    requires ValidSession(s)
    ensures ValidSession(Press(s, m))
    ensures Press(s, m).strikes == s.strikes
    ensures Press(s, m).message != Succeeded(m) ==> OnlyMessageChanged(s, Press(s, m))
  {
    match m
    case HaulMove =>
      HaulStepSucceedsIff(s);
      if HaulInMarket(s.market, s.selected).success {
        HaulInMarketRemovesRun(s.market, s.selected);
      }
    case BargainMove =>
      var t := BargainStep(s);
      if t.message == Succeeded(BargainMove) {
        BargainStepSwaps(s);
        SwappedDistinct(s.market, IndexOf(s.market, s.selected[0]), IndexOf(s.market, s.selected[1]));
      }
    case FleaHopMove =>
      var t := FleaHopStep(s);
      if t.message == Succeeded(FleaHopMove) {
        FleaHopStepMoves(s);
        PermutationKeepsDistinct(s.market, t.market);
      }
    case _ =>
      UnimplementedMovesReject(s, m);
  }

  /* ------------------------------------------------------------ the screen */

  /** The component: its state hooks become fields, its handlers methods. The unused
      `isRulesOpen` flag belongs to the rules dialog and is not part of this model. */
  class Game {
    var deck: seq<Card>
    var bankroll: seq<Card>
    var market: seq<Card>
    var easyGo: seq<Card>
    var selectedCards: seq<Card>
    var score: int
    var strikes: int
    var message: Message

    function Current(): Session
      reads this
    {
      Session(deck, bankroll, market, easyGo, selectedCards, score, strikes, message)
    }

    predicate Valid()
      reads this
    {
      ValidSession(Current())
    }

    /** The state hooks' initial values. The mount effect then calls `InitializeGame`. */
    constructor()
      ensures Current() == Initial && Valid()
    {
      deck, bankroll, market, easyGo, selectedCards := [], [], [], [], [];
      score, strikes, message := 0, 0, NoMessage;
    }

    /** `initializeGame`, with the shuffle's random draws given as `choices`. */
    method InitializeGame(choices: seq<nat>)
      requires ValidChoices(choices, DeckSize)
      modifies this
      ensures Current() == NewGame(choices) && Valid()
    {
      var newDeck := InitializeDeck();
      var shuffledDeck := ShuffleDeck(newDeck, choices);
      deck := shuffledDeck;
      bankroll := [];
      market := shuffledDeck;
      easyGo := [];
      score := 0;
      strikes := 0;
      message := NoMessage;
      selectedCards := [];
      NewGameDeals(choices);
    }

    /** `handleCardClick`, for a card shown in the Bankroll, the Market or Easy Go. */
    method HandleCardClick(card: Card)
      requires Valid() && card in market + bankroll + easyGo
      modifies this
      ensures Current() == ClickCard(old(Current()), card) && Valid()
    {
      if card in selectedCards {
        selectedCards := Without(selectedCards, [card]);
      } else {
        selectedCards := selectedCards + [card];
      }
      ClickKeepsValid(old(Current()), card);
    }

    method HandleHaul()
      requires Valid()
      modifies this
      ensures Current() == HaulStep(old(Current())) && Valid()
    {
      var result := HaulInMarket(market, selectedCards);
      if result.success {
        market := result.newMarket;
        score := score + result.score;
        selectedCards := [];
        message := Succeeded(HaulMove);
      } else {
        message := Invalid(HaulMove);
      }
      assert Current() == HaulStep(old(Current()));
      PressKeepsValid(old(Current()), HaulMove);
    }

    method HandleBargain()
      requires Valid()
      modifies this
      ensures Current() == BargainStep(old(Current())) && Valid()
    {
      if |selectedCards| != 2 {
        message := WrongSelectionSize(BargainMove);
        PressKeepsValid(old(Current()), BargainMove);
        return;
      }
      var success, newMarket := PerformBargain(market, selectedCards[0], selectedCards[1]);
      if success {
        market := newMarket;
        score := score - 1;
        selectedCards := [];
        message := Succeeded(BargainMove);
      } else {
        message := Invalid(BargainMove);
      }
      assert Current() == BargainStep(old(Current()));
      PressKeepsValid(old(Current()), BargainMove);
    }

    method HandleFleaHop()
      requires Valid()
      modifies this
      ensures Current() == FleaHopStep(old(Current())) && Valid()
    {
      if |selectedCards| != 1 {
        message := WrongSelectionSize(FleaHopMove);
        PressKeepsValid(old(Current()), FleaHopMove);
        return;
      }
      var success, newMarket := PerformFleaHop(market, selectedCards[0]);
      FleaHopStepCases(old(Current()), success, newMarket);
      if success {
        market := newMarket;
        selectedCards := [];
        message := Succeeded(FleaHopMove);
      } else {
        message := Invalid(FleaHopMove);
      }
    }

    // The four remaining engines always reject, so the success branches below never run;
    // they compute the new state into locals and the fields are written once at the end.

    method HandleDevilHop()
      requires Valid()
      modifies this
      ensures Current() == DevilHopStep(old(Current())) && Valid()
    {
      if |selectedCards| != 4 {
        message := WrongSelectionSize(DevilHopMove);
        PressKeepsValid(old(Current()), DevilHopMove);
        return;
      }
      var result := PerformDevilHop(market, selectedCards);
      var newMarket, newScore, newSelected, newMessage := market, score, selectedCards, Invalid(DevilHopMove);
      if result.success {
        newMarket, newScore, newSelected, newMessage := result.newMarket, score - 3, [], Succeeded(DevilHopMove);
      }
      market, score, selectedCards, message := newMarket, newScore, newSelected, newMessage;
      assert Current() == DevilHopStep(old(Current()));
      PressKeepsValid(old(Current()), DevilHopMove);
    }

    method HandleWalkyTalky()
      requires Valid()
      modifies this
      ensures Current() == WalkyTalkyStep(old(Current())) && Valid()
    {
      if |selectedCards| != 3 {
        message := WrongSelectionSize(WalkyTalkyMove);
        PressKeepsValid(old(Current()), WalkyTalkyMove);
        return;
      }
      var result := PerformWalkyTalky(market, selectedCards);
      var newMarket, newScore, newSelected, newMessage := market, score, selectedCards, Invalid(WalkyTalkyMove);
      if result.success {
        newMarket, newScore, newSelected, newMessage := result.newMarket, score - 3, [], Succeeded(WalkyTalkyMove);
      }
      market, score, selectedCards, message := newMarket, newScore, newSelected, newMessage;
      assert Current() == WalkyTalkyStep(old(Current()));
      PressKeepsValid(old(Current()), WalkyTalkyMove);
    }

    method HandleZonkOut()
      requires Valid()
      modifies this
      ensures Current() == ZonkOutStep(old(Current())) && Valid()
    {
      if |selectedCards| != 2 {
        message := WrongSelectionSize(ZonkOutMove);
        PressKeepsValid(old(Current()), ZonkOutMove);
        return;
      }
      var result := PerformZonkOut(market, selectedCards);
      var newMarket, newEasyGo, newSelected, newMessage := market, easyGo, selectedCards, Invalid(ZonkOutMove);
      if result.success {
        newMarket, newEasyGo, newSelected, newMessage := result.newMarket, easyGo + selectedCards, [], Succeeded(ZonkOutMove);
      }
      market, easyGo, selectedCards, message := newMarket, newEasyGo, newSelected, newMessage;
      assert Current() == ZonkOutStep(old(Current()));
      PressKeepsValid(old(Current()), ZonkOutMove);
    }

    method HandleHangout()
      requires Valid()
      modifies this
      ensures Current() == HangoutStep(old(Current())) && Valid()
    {
      if |selectedCards| < 2 {
        message := WrongSelectionSize(HangoutMove);
        PressKeepsValid(old(Current()), HangoutMove);
        return;
      }
      var result := PerformHangout(market, selectedCards);
      var newMarket, newBankroll, newSelected, newMessage := market, bankroll, selectedCards, Invalid(HangoutMove);
      if result.success {
        newMarket, newBankroll, newSelected, newMessage := result.newMarket, bankroll + selectedCards, [], Succeeded(HangoutMove);
      }
      market, bankroll, selectedCards, message := newMarket, newBankroll, newSelected, newMessage;
      assert Current() == HangoutStep(old(Current()));
      PressKeepsValid(old(Current()), HangoutMove);
    }

    method HandleEasyGo()
      requires Valid()
      modifies this
      ensures Current() == EasyGoStep(old(Current())) && Valid()
    {
      if |selectedCards| != 2 {
        message := WrongSelectionSize(EasyGoMove);
        PressKeepsValid(old(Current()), EasyGoMove);
        return;
      }
      var result := PerformEasyGo(market, selectedCards);
      var newMarket, newEasyGo, newScore, newSelected, newMessage := market, easyGo, score, selectedCards, Invalid(EasyGoMove);
      if result.success {
        newMarket, newEasyGo, newScore, newSelected, newMessage :=
          result.newMarket, easyGo + selectedCards, score - 1, [], Succeeded(EasyGoMove);
      }
      market, easyGo, score, selectedCards, message := newMarket, newEasyGo, newScore, newSelected, newMessage;
      assert Current() == EasyGoStep(old(Current()));
      PressKeepsValid(old(Current()), EasyGoMove);
    }
  }
}
