# flip-card: a verified model of the memory game's controller

The flip-card game deals twelve cards face-down: two of each of six fruits.
The player turns up two cards at a time. A pair with the same fruit stays
face-up and scores ten points. Any other pair turns back over once the
check timer fires. The game is won when every pair is found.

This project models the controller in `flip-card/script.js` with the DOM and
audio stripped away. It proves properties of the model in three modules:

- `Shuffle` (`shuffle.dfy`) is `shuffleArray`, the in-place Fisher–Yates loop,
  over an `array`. `Math.random` is replaced by a supplied sequence of draws,
  where `draws[i]` is the partner index picked at loop index `i` and lies in
  `[0, i]`. The pure function `Shuffled` specifies the loop. Lemmas prove three
  things about it:
  - the result is a permutation of the input;
  - every permutation is reachable;
  - on a deck without repeats, different draws give different arrangements,
    so the draws and the arrangements are in one-to-one correspondence.
- `Deck` (`deck.dfy`) covers three pieces:
  - the `cardData` table, keeping only each entry's text and sound id;
  - the doubled deck `initGame` builds, in which each card has its index as
    `id` and its text as `pairId`;
  - the `cards.find` lookup of `flipCard`.

  Its lemmas say the shuffled deck has distinct ids `0 .. 2n-1`. When the
  texts are distinct, every text is the pair key of exactly two cards.
- `Game` (`game.dfy`) is the class `MemoryGame`. It holds the state variables
  of the source (`cards`, `flippedCards`, `matchedPairs`, `moves`, `score`,
  `lockBoard`) and two flags per card element:
  - `faceUp[k]` is the `flipped` class;
  - `disabled[k]` is `pointerEvents = "none"`.

  Card element k is the card at position k of the shuffled deck. The methods
  are `InitGame`, `FlipCard`, `CheckMatch`, `DisableCards`, `UnflipCards` and
  `ResetBoard`.
  - The new state of each of `InitGame`, `FlipCard` and `CheckMatch` is tied
    to a pure transition on a `Round` value: `Start`, `Flip` and `Resolve`.
  - `DisableCards` and `UnflipCards` state their new flags through `Marked`
    and every other field by an equation with its old value.
  - `ResetBoard` states every field by an equation.

  The invariant `RoundInv` is proved for the transitions. `Run` applies them
  to any sequence of clicks and timer firings.

Delayed actions are not run. They are returned to the caller:

- `FlipCard` returns which sound it schedules and whether it schedules
  `checkMatch`.
- `CheckMatch` returns whether it found a pair and whether it schedules the
  win message.

## Model

| member | source | states |
|---|---|---|
| Shuffle.Shuffled | flip-card/script.js:65-71 | What the loop leaves in the array: the first iteration swaps the last cell with the cell its draw names, and later iterations never touch that cell again. Its contract gives the length; the lemmas below give the rest. |
| Shuffle.Swap | flip-card/script.js:68 | `[array[i], array[j]] = [array[j], array[i]]` on a sequence: the two cells are exchanged and every other cell keeps its value. |
| Shuffle.ShuffleArray | flip-card/script.js:65-71 | The array afterwards holds `Shuffled(old contents, draws)`. Every swap is between cells `i` and `j` with `0 <= j <= i < length`, so every access is in bounds. |
| Shuffle.SwapCells | flip-card/script.js:68 | The destructuring swap exchanges the two cells and leaves every other cell unchanged. |
| Shuffle.ShuffledPermutes | flip-card/script.js:65-71 | The shuffled array holds the same elements as the input, each as often as before. |
| Shuffle.ShuffledShortIsIdentity | flip-card/script.js:66 | Arrays of length 0 or 1 come back unchanged, because the loop body never runs. |
| Shuffle.ShuffledMap | flip-card/script.js:65-71 | Shuffling moves positions, not values: mapping a function over the elements commutes with the shuffle. |
| Shuffle.ShuffledDistinct | flip-card/script.js:65-71 | A sequence without repeated elements still has none after shuffling. |
| Shuffle.DrawsFor | flip-card/script.js:66-68 | For any rearrangement `t` of `s`, it constructs valid draws whose shuffle of `s` is exactly `t`. |
| Shuffle.ShuffleReachesEveryPermutation | flip-card/script.js:66-68 | Every permutation of the input is the outcome of some valid draws. |
| Shuffle.ShuffleDrawsAreUnique | flip-card/script.js:66-68 | On input without repeats, equal outcomes come from equal draws. With the previous row, each of the n! arrangements comes from exactly one of the n! draw sequences. |
| Deck.FruitCards | flip-card/script.js:3-40 | The six-entry table, keeping only each entry's text and sound id. It is a constant; `Deck.FruitTextsDistinct` states its property. |
| Deck.BuildDeck | flip-card/script.js:92-96 | The deck has twice as many cards as the table. Cards `i` and `i + n` both copy entry `i`, each card's id is its index, and its pair key is the entry's text. |
| Deck.DeckIds | flip-card/script.js:92-96 | The ids of a fresh deck are `0 .. 2n-1`, in order. |
| Deck.DeckPairKeys | flip-card/script.js:92-96 | The pair keys of a fresh deck are the table's texts, twice over. |
| Deck.ShuffledDeckIds | flip-card/script.js:92-99 | After shuffling, the ids are distinct and are exactly `0 .. 2n-1`. |
| Deck.ShuffledDeckPairs | flip-card/script.js:92-99 | If the table's texts are distinct, every text is the pair key of exactly two shuffled cards, and nothing else is a pair key. |
| Deck.NewShuffledDeck | flip-card/script.js:92-99 | Copies the doubled table into an array and shuffles it in place. The resulting deck is `Shuffled(BuildDeck(table), draws)`. |
| Deck.FindById | flip-card/script.js:151 | A found card is the first card of the deck with the requested id. Nothing is found exactly when no card has that id. |
| Deck.FindOwnId | flip-card/script.js:150-152 | In a deck with distinct ids, looking up the id of the card at position k returns that card. |
| Deck.ShuffledLookup | flip-card/script.js:150-152 | In the dealt deck, the lookup always finds the clicked card, so its sound is the one scheduled. |
| Deck.FruitTextsDistinct | flip-card/script.js:3-40 | The table has six entries with distinct texts, so every fruit is on exactly two cards. |
| Game.Marked | flip-card/script.js:191-203 | The card flags after the `forEach` loops of `disableCards` and `unflipCards`: the cells of the pending cards get the new value and every other cell keeps its own. Its contract gives the length; `Game.MarkedPair` gives the two-card case. |
| Game.Start | flip-card/script.js:100-105 | The reset state: no card up or disabled, nothing pending, all counters 0, board unlocked. Its contract says it satisfies the round invariant on every board. |
| Game.FlipIgnored | flip-card/script.js:142-144 | The three guards of `flipCard`: the board is locked, the card is the first pending one, or the card is face-up. It is a predicate; `Game.FirstPendingGuardSubsumed` states its property. |
| Game.Flip | flip-card/script.js:140-163 | The click transition. Its contract says a click never touches the disabled flags, the score or the found pairs, and never lowers the move counter. `Game.FlipChangesOneCard` and `Game.FlipKeepsInv` state the rest. |
| Game.PairMatches | flip-card/script.js:168 | The test of `checkMatch`: the two pending cards have the same pair key. It is a predicate, used in the contract of `Game.MemoryGame.CheckMatch`. |
| Game.Resolve | flip-card/script.js:166-210 | The `checkMatch` transition for a given test outcome. Its contract says that on both branches the attempt ends, the board unlocks, the move counter stays, and the board keeps its size. `Game.ResolveEffect` states each branch in full. |
| Game.FirstPendingGuardSubsumed | flip-card/script.js:142-144 | In a valid round, a click is ignored exactly when the board is locked or the card is face-up. The `flippedCards[0]` guard adds nothing. |
| Game.FlipChangesOneCard | flip-card/script.js:146-160 | A click on card k that passes the guards turns k, which was face-down, face-up and appends k to the pending cards, so the face-up count rises by one. The board locks exactly when k is the second pending card, and the move counter rises by one exactly then. The disabled flags, score and found pairs stay the same. |
| Game.FlipKeepsInv | flip-card/script.js:140-163 | `flipCard` keeps the round invariant. In particular, at most two cards are pending, and the board is locked exactly when two are pending. |
| Game.ResolveEffect | flip-card/script.js:166-210 | On a match, both pending cards stay face-up and become disabled, score rises by 10 and pairs by 1. On a mismatch, both turn face-down and score and pairs stay. Either way the pending list empties, the board unlocks, moves stay, and no other card changes. |
| Game.MatchKeepsInv | flip-card/script.js:170-176 | The match branch keeps the round invariant. |
| Game.MismatchKeepsInv | flip-card/script.js:184-186 | The mismatch branch keeps the round invariant. |
| Game.ResolveKeepsInv | flip-card/script.js:166-187 | `checkMatch` keeps the round invariant. |
| Game.WinIffAllMatched | flip-card/script.js:178 | In a valid round, `matchedPairs` never exceeds the table size. It equals the table size exactly when every card is disabled. |
| Game.WonIsFinal | flip-card/script.js:178-183 | Once every pair is found, nothing is pending, the board is unlocked, and every later click is ignored and changes nothing. |
| Game.Step | flip-card/script.js:140-187 | A click on the board or a firing of the check timer maps a valid round to a valid round. |
| Game.Run | flip-card/script.js:140-187 | Any sequence of clicks and timer firings keeps the round valid. |
| Game.RunFromStart | flip-card/script.js:100-187 | After a reset and any sequence of events: `score == 10 * matchedPairs`, `matchedPairs <= moves`, `matchedPairs <= table size`, at most two cards are pending, and the face-up count is `2 * matchedPairs + pending`. The win test holds exactly when every card is matched. |
| Game.MemoryGame.constructor | flip-card/script.js:43-48 | The state variables start at their initial values, and the first `initGame` deals the deck and resets the round. |
| Game.MemoryGame.InitGame | flip-card/script.js:90-106 | From any prior state, the deck becomes the doubled table shuffled with the given draws. The round becomes the reset state: nothing pending, counters 0, unlocked, no card up or disabled. The invariant holds. |
| Game.MemoryGame.FlipCard | flip-card/script.js:140-163 | The new state is `Flip(old state, k)`, and the invariant is kept. The result is `Ignored` exactly when a guard fires. Otherwise it names the clicked card's sound and says whether `checkMatch` was scheduled. |
| Game.MemoryGame.CheckMatch | flip-card/script.js:166-187 | The new state is `Resolve(old state, pair keys equal)`, and the invariant is kept. The result says whether a pair was found and, if so, whether the win message is scheduled, which happens when `matchedPairs` reaches the table size. |
| Game.MemoryGame.DisableCards | flip-card/script.js:190-197 | Every pending card is disabled and nothing else changes; then the board resets. |
| Game.MemoryGame.UnflipCards | flip-card/script.js:200-205 | Every pending card is turned face-down and nothing else changes; then the board resets. |
| Game.MemoryGame.ResetBoard | flip-card/script.js:208-210 | The pending list empties and the board unlocks; nothing else changes. |

## Left out

- The DOM is not modelled. That covers building the card elements, the image, the text and `--card-color`, the score and moves displays, and the win overlay (`showWinMessage`). Only each card element's `flipped` class and `pointerEvents` are kept, as the `faceUp` and `disabled` flags.
- Card elements are identified by their board position. A click on a disabled card never reaches `flipCard` in the browser. In the model it reaches `FlipCard`, which ignores it because a disabled card is face-up.
- Audio is not modelled: `playFruitSound`, `matchSound.play()` and `winSound.play()`, with their promise handling. `FlipCard` returns the sound id it would schedule. The match sound goes with every `Matched` outcome.
- `setTimeout` is not modelled. The 300, 800 and 500 ms delays become results returned to the caller, and `CheckMatch` is a separate method.
- Game.MemoryGame.CheckMatch: requires `lockBoard`, that is, exactly two pending cards. The source has no guard against a stale timer. A reset inside the 800 ms window would let `checkMatch` run on an empty `flippedCards` and throw a `TypeError` before changing any state. The class method does not model that firing. `Game.Step` does: a timer firing with nothing pending leaves the state as it was. Only the exception itself is not modelled.
- `Math.random` and its floating-point arithmetic are replaced by the supplied draws, each in `[0, i]`. The model says nothing about the draws' distribution beyond the one-to-one correspondence between draws and arrangements.
- The image paths and colours of the `cardData` table are presentation, so `CardDef` keeps only the text and the sound id.
- `dataset.id` is a string compared with `==` against the numeric id. The model compares natural numbers, which is what that loose comparison amounts to for the ids the deck uses.
- The counters are JavaScript numbers and are modelled as unbounded naturals. No game comes near 2^53.
