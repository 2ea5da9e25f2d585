# Flea Devil Solitaire — a verified model of the move engine and the game screen

Flea Devil Solitaire is a one-player card game played against the *Market*, an ordered
row of cards dealt from a 56-card deck: 52 standard cards plus two Zonkers and two Parking
Lots. The player selects cards in an order and presses one of eight move buttons. Haul
removes a run of same-rank cards lying side by side in the Market and scores a point per
card. Bargain swaps two neighbouring cards for a point. Flea Hop moves a card onto the
position of the next card of its suit, wrapping round to the first. Devil Hop, Walky
Talky, Zonk Out, Hangout and Easy Go are present in the interface but always rejected.

The model has four modules:

- `Cards` (`cards.dfy`): the card record and the layout of a fresh deck.
- `Market` (`market.dfy`): the list primitives the moves rely on. These are `indexOf`
  with its `-1` for a missing card, `filter` and `splice`, and the two-element swap.
- `GameLogic` (`game_logic.dfy`): the move engine of `src/utils/gameLogic.ts`.
  - The deck builder and the Fisher–Yates shuffle are methods with loops, each proved
    equal to a specification function.
  - Each move evaluator is a pure function, with lemmas stating when it succeeds and what
    it does to the Market.
  - `performBargain` and `performFleaHop` are also methods that work on a copy of the
    Market, proved equal to those functions.
- `GameScreen` (`game.dfy`): the React component of `src/components/Game.tsx`.
  - `Session` is the component's state as a value, with one `*Step` function per handler.
  - The class `Game` holds the same state hooks as mutable fields. Each handler is a
    method proved to take the state to its `*Step` and to keep the session invariant
    `ValidSession`: no card twice in the Market or in the selection, an empty Bankroll
    and Easy Go, and every selected card in the Market.

Cards are compared by object identity in the game, and the two Zonkers (and the two
Parking Lots) are equal field by field. Each modelled card therefore carries an `id`, its
position in the freshly built deck, so value equality in the model is identity in the game.

## Model

| member | source | states |
|---|---|---|
| Cards.CanonicalDeckLayout | src/utils/gameLogic.ts:3-21 | the fresh deck holds the 52 standard cards suit-major (♠ ♥ ♦ ♣), ranks A to K within a suit, then two Zonkers and two Parking Lots; every card is well formed and face up |
| GameLogic.InitializeDeck | src/utils/gameLogic.ts:3-21 | the nested push loops build exactly the canonical 56-card deck |
| GameLogic.CanonicalDeckDistinct | src/utils/gameLogic.ts:3-21 | the fresh deck holds no card twice |
| GameLogic.FisherYates | src/utils/gameLogic.ts:23-30 | the swap steps from the last index down to 1 keep the length and the multiset of cards |
| GameLogic.ShuffleDeck | src/utils/gameLogic.ts:23-30 | shuffling a copy in an array, with the random draws given as `choices[i] <= i`, yields the Fisher–Yates result, a permutation of the deck |
| Market.IndexOf | src/utils/gameLogic.ts:40 | `indexOf` answers -1 exactly when the card is absent, and otherwise the first position holding it |
| Market.Without | src/utils/gameLogic.ts:47 | the haul filter never lengthens the Market; which cards survive is `WithoutMembers`, and their order is `WithoutAppend` |
| Market.WithoutAppend | src/utils/gameLogic.ts:47 | filtering a concatenation filters each part, so the survivors keep their relative order |
| Market.WithoutDropsOne | src/components/Game.tsx:38 | filtering one card out of a selection without repeats removes exactly its position and keeps the others in order |
| Market.RemoveAt | src/utils/gameLogic.ts:80 | `splice(i, 1)` shortens by one, keeps the cards before `i` and shifts the cards after it down by one |
| Market.InsertAt | src/utils/gameLogic.ts:81 | `splice(i, 0, x)` lengthens by one, puts `x` at `i`, keeps the cards before it and shifts the rest up by one |
| Market.Swapped | src/utils/gameLogic.ts:62 | the destructuring swap exchanges positions `i` and `j`, leaves every other position alone and keeps the multiset |
| Market.WithoutMembers | src/utils/gameLogic.ts:47 | the haul filter keeps exactly the cards that are not selected |
| Market.SameSuit | src/utils/gameLogic.ts:68 | the suit filter keeps exactly the cards of the suit, in Market order |
| GameLogic.Haul | src/utils/gameLogic.ts:32-51 | `haul` as written: a success involves two or more cards, scores one point per selected card and never lengthens the Market; a rejection returns the Market unchanged with score 0 |
| GameLogic.HaulSucceedsIff | src/utils/gameLogic.ts:32-51 | `haul` as written succeeds iff two or more same-rank cards lie in selection order on consecutive positions, or the first card is absent and the rest lie from position 0 on; a rejection returns the Market unchanged and scores 0 |
| GameLogic.HaulScoresAbsentFirstCard | src/utils/gameLogic.ts:37-50 | as written, market [A♠] and selection [A♥, A♠] succeed, scoring 2 while only one card leaves the Market; the corrected haul rejects it |
| GameLogic.HaulInMarket | src/utils/gameLogic.ts:32-51 | the corrected haul: as `haul`, and a success also needs the first selected card in the Market |
| GameLogic.HaulInMarketSucceedsIff | src/utils/gameLogic.ts:32-45 | the corrected haul succeeds iff two or more same-rank cards lie in selection order on consecutive Market positions from the first card's position; a rejection changes nothing and scores 0 |
| GameLogic.HaulInMarketRemovesRun | src/utils/gameLogic.ts:47-50 | a successful haul cuts out exactly the selected block, keeps the other cards in order and without repeats, and scores one point per removed card |
| GameLogic.HaulInMarketKeepsCards | src/utils/gameLogic.ts:47 | what a successful haul removes from the Market is exactly the selection, as a multiset |
| GameLogic.HaulAgreesWhenFirstInMarket | src/utils/gameLogic.ts:32-51 | the corrected and the as-written haul agree whenever the first selected card is in the Market |
| GameLogic.Bargain | src/utils/gameLogic.ts:53-65 | the bargain succeeds iff the two cards are one position apart; it then swaps them, leaves every other position alone and keeps the multiset; a rejection returns the Market unchanged |
| GameLogic.BargainUndo | src/utils/gameLogic.ts:53-65 | bargaining the same two cards again restores the original Market |
| GameLogic.PerformBargain | src/utils/gameLogic.ts:53-65 | the array copy-and-swap computes the bargain |
| GameLogic.FleaHop | src/utils/gameLogic.ts:67-84 | a flea hop succeeds iff the card is in the Market and another Market card shares its suit; a rejection returns the Market unchanged |
| GameLogic.FleaHopMovesCard | src/utils/gameLogic.ts:75-83 | a successful hop keeps the length and multiset; the card stands where its suit successor stood; taking it out again gives the Market with the card taken out |
| GameLogic.FleaHopTarget | src/utils/gameLogic.ts:68-76 | the target is a different position of the same suit: the first suit card after the card, with none in between, or with wrap-around the first suit card, with none before it and none after the card |
| GameLogic.FleaHopForward | src/utils/gameLogic.ts:68-76 | when a suit card follows the card, the hop lands on the first such card and passes no card of the suit |
| GameLogic.FleaHopWrap | src/utils/gameLogic.ts:68-76 | when the card is the last of its suit, the hop wraps to the first suit card, with no suit card before it or after the card |
| GameLogic.NextInCycleIsModulo | src/utils/gameLogic.ts:75 | the successor index equals `(currentIndex + 1) % suitCards.length` |
| GameLogic.PerformFleaHop | src/utils/gameLogic.ts:67-84 | the two `splice` calls on a copy compute the flea hop |
| GameLogic.PerformDevilHop | src/utils/gameLogic.ts:86-89 | always rejects and returns the Market unchanged |
| GameLogic.PerformWalkyTalky | src/utils/gameLogic.ts:91-94 | always rejects and returns the Market unchanged |
| GameLogic.PerformZonkOut | src/utils/gameLogic.ts:96-99 | always rejects and returns the Market unchanged |
| GameLogic.PerformHangout | src/utils/gameLogic.ts:101-104 | always rejects and returns the Market unchanged |
| GameLogic.PerformEasyGo | src/utils/gameLogic.ts:106-109 | always rejects and returns the Market unchanged |
| GameScreen.NewGame | src/components/Game.tsx:23-34 | a new game's Market holds the 56 cards of a fresh deck, as a multiset |
| GameScreen.NewGameDeals | src/components/Game.tsx:23-34 | a new game deals all 56 fresh cards into the Market once each, with nothing selected, score and strikes 0, and a valid session |
| GameScreen.Toggle | src/components/Game.tsx:36-40 | a click selects the card iff it was not selected, and leaves every other card's selection as it was; an unselected card is appended at the end, and a selected one is taken out of its position with the others kept in order |
| GameScreen.ToggleTwice | src/components/Game.tsx:36-40 | clicking an unselected card twice restores the selection exactly |
| GameScreen.ToggleKeepsDistinct | src/components/Game.tsx:36-40 | clicking keeps the selection free of repeats |
| GameScreen.ClickCard | src/components/Game.tsx:36-40 | a click changes only the selection, and the clicked card's membership flips |
| GameScreen.ClickKeepsValid | src/components/Game.tsx:36-40 | clicking a card on the table keeps the session valid and changes only the selection |
| GameScreen.HaulStep | src/components/Game.tsx:42-52 | a successful haul clears the selection and adds one point per selected card; otherwise only the message changes |
| GameScreen.BargainStep | src/components/Game.tsx:54-68 | a successful bargain clears the selection and costs one point; otherwise only the message changes |
| GameScreen.FleaHopStep | src/components/Game.tsx:70-83 | a successful flea hop clears the selection at no cost; otherwise only the message changes |
| GameScreen.DevilHopStep | src/components/Game.tsx:85-99 | a successful devil hop would clear the selection and cost three points; otherwise only the message changes |
| GameScreen.WalkyTalkyStep | src/components/Game.tsx:101-115 | a successful walky talky would clear the selection and cost three points; otherwise only the message changes |
| GameScreen.ZonkOutStep | src/components/Game.tsx:117-131 | a successful zonk out would clear the selection at no cost; otherwise only the message changes |
| GameScreen.HangoutStep | src/components/Game.tsx:133-147 | a successful hangout would clear the selection at no cost; otherwise only the message changes |
| GameScreen.EasyGoStep | src/components/Game.tsx:149-164 | a successful easy go would clear the selection and cost one point; otherwise only the message changes |
| GameScreen.Press | src/components/Game.tsx:175-182 | each button reports only about its own move and never changes the strikes or the deck |
| GameScreen.PressChecksSize | src/components/Game.tsx:54-164 | a button answers "wrong selection size" exactly when the selection size is not the one it demands (Bargain 2, Flea Hop 1, Devil Hop 4, Walky Talky 3, Zonk Out 2, Hangout at least 2, Easy Go 2, Haul none) and then changes nothing else; otherwise the move succeeds or is invalid |
| GameScreen.ScreenHaulAgrees | src/components/Game.tsx:43 | on every valid session the screen's call to `haul` as written gives the same result as the corrected haul |
| GameScreen.HaulStepSucceedsIff | src/components/Game.tsx:42-52 | the haul button succeeds iff the selection is a same-rank run of two or more in Market order; otherwise only the message changes |
| GameScreen.HaulStepScores | src/components/Game.tsx:42-52 | a successful haul adds the selection size to the score, removes exactly the selected cards and clears the selection; strikes, Bankroll and Easy Go stay |
| GameScreen.BargainStepSwaps | src/components/Game.tsx:54-68 | the bargain button succeeds iff two selected cards are neighbours; it then swaps them, costs one point and clears the selection; otherwise only the message changes |
| GameScreen.FleaHopStepMoves | src/components/Game.tsx:70-83 | the flea hop button succeeds iff one card is selected and shares its suit with another Market card; the card lands on its successor's position, the Market is permuted and the score stays; otherwise only the message changes |
| GameScreen.UnimplementedMovesReject | src/components/Game.tsx:85-164 | the five remaining buttons only ever report a wrong selection size or an invalid move, the latter exactly when the selection has the size the button demands, and change nothing else |
| GameScreen.PressKeepsValid | src/components/Game.tsx:42-164 | every button keeps the session valid and never changes the strikes; a move that does not succeed changes only the message |
| GameScreen.Game.constructor | src/components/Game.tsx:9-16 | the state hooks start empty, at zero and with no message |
| GameScreen.Game.InitializeGame | src/components/Game.tsx:23-34 | the new-game handler builds, shuffles and deals the deck and resets everything else, keeping the session valid |
| GameScreen.Game.HandleCardClick | src/components/Game.tsx:36-40 | the click handler toggles the card in the selection, keeping the session valid |
| GameScreen.Game.HandleHaul | src/components/Game.tsx:42-52 | the haul handler performs the haul step and keeps the session valid |
| GameScreen.Game.HandleBargain | src/components/Game.tsx:54-68 | the bargain handler performs the bargain step and keeps the session valid |
| GameScreen.Game.HandleFleaHop | src/components/Game.tsx:70-83 | the flea hop handler performs the flea hop step and keeps the session valid |
| GameScreen.Game.HandleDevilHop | src/components/Game.tsx:85-99 | the devil hop handler checks for four cards, then applies the stub's answer; it keeps the session valid |
| GameScreen.Game.HandleWalkyTalky | src/components/Game.tsx:101-115 | the walky talky handler checks for three cards, then applies the stub's answer; it keeps the session valid |
| GameScreen.Game.HandleZonkOut | src/components/Game.tsx:117-131 | the zonk out handler checks for two cards, then applies the stub's answer; it keeps the session valid |
| GameScreen.Game.HandleHangout | src/components/Game.tsx:133-147 | the hangout handler checks for at least two cards, then applies the stub's answer; it keeps the session valid |
| GameScreen.Game.HandleEasyGo | src/components/Game.tsx:149-164 | the easy go handler checks for two cards, then applies the stub's answer; it keeps the session valid |

## Left out

- `Math.random` in the shuffle is a parameter: `choices[i]` is the index drawn at step `i`, and any value in `[0, i]` is allowed.
- GameLogic.Bargain and GameLogic.PerformBargain require both cards to be in the Market.
  - With one card missing (`indexOf` gives -1) and the other at position 0, the JavaScript code writes to index -1 and leaves position 0 `undefined`.
  - The game screen never reaches that case, because every selected card is in the Market (`ValidSession`).
- The game screen runs the corrected haul `HaulInMarket` (see Findings) where the code calls `haul` as written. `ScreenHaulAgrees` proves the two give the same result on every valid session, so the Finding cannot be triggered from the game screen.
- Messages are modelled by meaning (`WrongSelectionSize`, `Succeeded`, `Invalid`), not by their wording. A rejected move carries no finer reason, since the code gives none.
- The five moves beyond Haul, Bargain and Flea Hop follow the code: their engines always reject. No rules for them exist in the code, so none are modelled.
- Rendering, JSX, the `Card`, `RulesModal` and `RulesReference` components, and the `isRulesOpen` flag of the rules dialog are not part of this model.
- `src/utils/types.ts` is not part of this model. The card record is rebuilt from its uses, with an added `id` standing for object identity.
- React's scheduling is not modelled. Each handler is one atomic step on the current state, and batched `setState` calls and functional updates are not separated.
- The mount effect (`useEffect`) is the constructor followed by a call to `InitializeGame`.
- The score is a JavaScript number, modelled as an unbounded integer. It has no bound within a game: a bargain can be repeated on the same two cards forever (`BargainUndo`), a point each. JavaScript numbers hold integers exactly up to 2^53, far beyond any score a game reaches, so no rounding is modelled.
- No code ever changes `strikes`, and `PressKeepsValid` states that it stays as dealt.

## Findings

| source | as written | input that shows it | evidently intended | confidence | as-written member | corrected member |
|---|---|---|---|---|---|---|
| src/utils/gameLogic.ts:37-45 | the run test compares `indexOf` positions, and a first card missing from the Market has position -1, so a run starting at position 0 passes | market [A♠], selection [A♥, A♠]: the haul succeeds, scores 2 and removes only A♠ | a haul needs every selected card in the Market and scores exactly the cards it removes | not executed | GameLogic.HaulScoresAbsentFirstCard | GameLogic.HaulInMarketRemovesRun |
