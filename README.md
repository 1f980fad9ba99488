# Two-player memory game: a verified model of the rules engine

This project models the game logic of `memory-game-multiplayer/js/project03.js`. That is a
browser memory game for two players on one board. The start button checks the requested grid.
The game then deals a deck of animal pictures, one picture per pair, and shuffles it with
Fisher-Yates. Players click cards to turn them up. The second card of a turn counts a move and
is compared with the first. On a match both cards stay matched, the player scores a point and
keeps the turn. On a mismatch both cards turn back after a delay and the other player moves.
When every card is matched, the player with more pairs wins, and equal scores are a tie.

The model has three modules:

- `Rules` (`rules.dfy`): the players and `switchPlayer`, the winner rule of `announceWinner`,
  and the start button's grid check. These are pure functions with lemmas about them.
- `Deck` (`deck.dfy`): the picture pool, the push loop that picks one picture per pair, the
  doubled card list, and `shuffleArray` as an in-place loop over an `array`. Its specification
  function `FisherYates` comes with lemmas: the result is a permutation of the input, and each
  step leaves the positions above it alone.
- `Game` (`game.dfy`): the session as a class `Session`. Its fields are the source's globals:
  `cards`, a card state per card, `flippedCards`, `moves`, `currentPlayer` and `playerScores`.
  Its methods are `handleCardClick`, `checkForMatch`, the body of the mismatch timeout,
  `switchPlayer` and `resetGameInfo`. Each method states the whole new state. The invariant
  `Valid()` says at most two cards are pending, a card is flipped exactly when it is pending,
  and two pending cards always differ (a pair with equal symbols is resolved at once).
  `ScoresAgree()` says twice the sum of the scores equals the number of matched cards. Every
  transition except `ResetGameInfo` preserves it; after a reset it holds exactly when no card
  is matched. A closing client, `TwoPlayerGame`, plays a whole 2 x 2 game
  from these contracts.

How the model represents the source:

- A card's CSS classes become `CardState`. `FaceDown` has neither class. `Flipped` has
  `flipped` only. `Matched` has `flipped` and `matched`, because a matched card keeps its
  `flipped` class.
- The mismatch timeout becomes the separate transition `Session.ResolveMismatch`. Until it
  runs, two cards stay pending and every click is refused.
- `Math.random` becomes a parameter `js`. For each shuffle step `i > 0` it holds the index
  `js[i]`, with `0 <= js[i] <= i`.
- Grid sizes are integers. The model passes them in directly and does not parse any text.

Points where the code's behaviour is easy to misread, and what the model does:

- The source keeps no game status. The game ends when the number of `.card.matched` elements
  equals the number of cards, checked right after a match. The model computes that count.
  `FinishedRejectsClicks` shows that after the end no click is accepted.
- Restarting does not cancel the pending mismatch timeout and does not clear `flippedCards`.
  The model's reset leaves them alone too.
- With more than ten pairs the ten pictures are reused, so a picture can be on four or more
  cards (`AnimalDeckRepeats`). With ten pairs or fewer each picture is on exactly two cards
  (`AnimalDeckExactPairs`).
- A click always comes from an existing card element, so `HandleCardClick` requires an index
  inside the deck. The source has no rejection path for a card that does not exist.

## Model

| member | source | states |
|---|---|---|
| Rules.Other | memory-game-multiplayer/js/project03.js:156-158 | the turn always goes to the other of the two players |
| Rules.OtherInvolution | memory-game-multiplayer/js/project03.js:156-158 | switching the player twice gives the turn back |
| Rules.Winner | memory-game-multiplayer/js/project03.js:167-175 | player 1 wins exactly when score1 > score2, player 2 exactly when score2 > score1, and a tie exactly when the scores are equal |
| Rules.WinnerSymmetric | memory-game-multiplayer/js/project03.js:169-175 | exchanging the two scores exchanges the winner; a tie stays a tie |
| Rules.ValidGrid | memory-game-multiplayer/js/project03.js:44-48 | a grid is accepted exactly when both sides are in 2..10 and the card count is even |
| Rules.ValidGridSides | memory-game-multiplayer/js/project03.js:44-48 | a grid is accepted exactly when both sides are in 2..10 and at least one side is even |
| Rules.ValidGridCards | memory-game-multiplayer/js/project03.js:42-48 | an accepted grid has 4 to 100 cards, an even number, so 2 to 50 pairs |
| Deck.AnimalImagesDistinct | memory-game-multiplayer/js/project03.js:33-36 | the pool holds ten pairwise different pictures |
| Deck.SelectImages | memory-game-multiplayer/js/project03.js:63-66 | the loop picks one picture per pair, entry i being `animalImages[i % 10]` |
| Deck.PairedDeck | memory-game-multiplayer/js/project03.js:68 | the doubled list has twice as many cards, and each picture in it occurs twice as often: an even number of times, at least 2 |
| Deck.PairedDeckSymbols | memory-game-multiplayer/js/project03.js:63-68 | the deck shows exactly the first min(uniquePairs, 10) pictures of the pool |
| Deck.AnimalDeckExactPairs | memory-game-multiplayer/js/project03.js:63-68 | with at most ten pairs every picture in the deck occurs exactly twice |
| Deck.AnimalDeckRepeats | memory-game-multiplayer/js/project03.js:63-68 | with more than ten pairs "cat.png" occurs on at least four cards |
| Deck.FisherYates | memory-game-multiplayer/js/project03.js:77-83 | the shuffle steps keep the length of the card list |
| Deck.Swap | memory-game-multiplayer/js/project03.js:80 | positions i and j are exchanged, every other position and the length are kept (so nothing changes when i == j) |
| Deck.SwapPermutes | memory-game-multiplayer/js/project03.js:80 | one swap keeps the multiset of cards |
| Deck.FisherYatesPermutes | memory-game-multiplayer/js/project03.js:77-83 | the shuffle is a permutation of its input |
| Deck.FisherYatesSettled | memory-game-multiplayer/js/project03.js:78-81 | the steps from index i downwards never change a position above i, so after the step for i positions i to n-1 are final |
| Deck.FisherYatesFixed | memory-game-multiplayer/js/project03.js:79-80 | choosing j = i at every step leaves the deck as dealt |
| Deck.ShuffleArray | memory-game-multiplayer/js/project03.js:77-83 | the in-place loop leaves the array equal to the Fisher-Yates steps applied to its old contents, a permutation of them |
| Deck.ShuffleCopy | memory-game-multiplayer/js/project03.js:68-69 | shuffling the freshly built `cardPairs` array gives the Fisher-Yates order of its contents, a permutation of them |
| Deck.ShuffledPairs | memory-game-multiplayer/js/project03.js:63-69 | any rearrangement of the doubled selection has every picture an even, non-zero number of times, and exactly twice for at most ten pairs |
| Deck.DealCards | memory-game-multiplayer/js/project03.js:58-69 | the dealt deck has rows*cols cards, is the shuffle of the cyclic selection doubled and has the same multiset as two copies of it, every picture in it occurs an even, non-zero number of times, and exactly twice when there are at most 20 cards |
| Game.Count | memory-game-multiplayer/js/project03.js:139 | the number of cards in a given state is at most the number of cards |
| Game.CountUpdate | memory-game-multiplayer/js/project03.js:133-134 | changing one card's state moves that card from one tally to the other and leaves the other cards' tallies alone |
| Game.CountAll | memory-game-multiplayer/js/project03.js:139 | the matched count equals the number of cards exactly when every card is matched |
| Game.Clickable | memory-game-multiplayer/js/project03.js:109-113 | a click goes through unless the card is flipped or matched or two cards are pending |
| Game.FinishedRejectsClicks | memory-game-multiplayer/js/project03.js:109-115 | once every card is matched, no click is accepted |
| Game.ClickableFaceDown | memory-game-multiplayer/js/project03.js:109-115 | with at most two pending cards, a click is accepted exactly on a face-down card while fewer than two are pending |
| Game.Session.constructor | memory-game-multiplayer/js/project03.js:58-74 | a new game has the dealt deck, every card face down, nothing pending, no moves, both scores 0 and player 1 to play; it satisfies both invariants |
| Game.Session.HandleCardClick | memory-game-multiplayer/js/project03.js:106-125 | a click on a flipped or matched card, or while two are pending, changes nothing; otherwise the card turns up and is pending; `moves` rises by one exactly on the second card; the second card then resolves as in CheckForMatch; the player never changes; both invariants are kept |
| Game.Session.CheckForMatch | memory-game-multiplayer/js/project03.js:128-153 | equal symbols: both cards matched, the current player's score up by one, nothing pending, turn kept, and the winner reported exactly when every card is matched; different symbols: nothing changes until the timeout |
| Game.Session.ResolveMismatch | memory-game-multiplayer/js/project03.js:145-150 | exactly the two pending cards turn face down, nothing is pending, the other player moves, and scores and matched cards still agree |
| Game.Session.SwitchPlayer | memory-game-multiplayer/js/project03.js:156-158 | the current player becomes the other player |
| Game.Session.ResetGameInfo | memory-game-multiplayer/js/project03.js:197-200 | moves 0, both scores 0, player 1; cards, card states and the pending selection are unchanged; scores and matched cards agree exactly when no card is matched |
| Game.StartGame | memory-game-multiplayer/js/project03.js:39-55 | a grid is refused exactly when it fails the check; otherwise a fresh game starts whose rows*cols cards are the shuffle of two copies of the cyclic selection (same multiset), every picture on an even, non-zero number of cards and on exactly two when there are at most 20 cards, every card face down, nothing pending, no moves, both scores 0 and player 1 to play, with both invariants |

## Left out

- Rendering: creating the card elements, `innerHTML`, image paths, the grid layout, the turn and
  score text (`updatePlayerTurn`) and the move counter text. Card classes are `CardState`.
- The winner alert and its 500 ms delay. `announceWinner` is modelled only by the verdict it
  computes.
- Timers: the elapsed-time interval (`startTimer`, `timeElapsed`), `formatTime`, and the
  scheduling of the 1000 ms mismatch timeout. Only the timeout's effect is modelled, as
  `ResolveMismatch`.
- `Math.random`: the shuffle takes its index choices as a parameter. Uniform distribution is not
  modelled.
- `parseInt` of the grid inputs: rows and columns are integers. A `NaN` input fails every
  comparison in the source and is refused. The model has no `NaN`.
- A game started again on the same page: a `Session` is one game from page load.
  `initializeGame` neither empties `flippedCards` nor cancels a pending mismatch timeout. A card
  left pending from the previous board, or a late timeout, can therefore reach the new game.
  Pending positions are indices into the current deck, so the model cannot represent a card
  from a discarded board.
