# War card game engine, modelled in Dafny

This project models the engine of a two-player game of War:

- The engine shuffles an initial deck and deals it one card at a time, card `i` going to player `i % 2`.
- It then plays hands until one player holds every card.
- In a hand, each player draws the front card of their deck and the higher rank takes the hand.
- On a tie ("war") each player draws one hidden card. Then a new face-up pair is drawn and compared, and this repeats while the pairs tie.
- All cards drawn in a hand go, in draw order, to the back of the winner's deck.
- When a deck runs out in the middle of a hand, the hand goes to the player who did not run out. The engine computes that player from the parity of the number of cards played, as `|played % 2 - 1|`.
- The game ends when player 0 holds no card or every card. Player 0 wins if they still hold a card; otherwise player 1 wins.

The model has six modules:

- `Values` (`value.dfy`): the thirteen ranks, their order and display strings.
- `Cards` (`card.dfy`): cards, how they compare by rank, and their display form.
- `Decks` (`deck.dfy`): the mutable deck as a class. An empty deck makes `Pick`/`Peek` return `None` instead of throwing.
- `WarRules` (`war_rules.dfy`): the rules as pure functions on values.
  - `Dealt` is the deal.
  - `PlayCards` is one pair of picks on a `Table` (two decks and the played list).
  - `Fight` is the recursive comparison.
  - `ResolveHand` adds the parity fallback.
  - `PlayHand` is one iteration of the game loop.
  - `Game` is the loop run under a hand budget.
- `Games` (`war_engine.dfy`): the engine as a class holding the initial deck, the lazily created player decks and the card count.
  - `HasAnyoneWon`, `PlayCards`, `GetWinner`, `GetHandWinner`, `PlayOneHand` and `Play` are each proved equal to the matching `WarRules` function.
  - `Distribute` and its loop body `DealNext` are proved against `WarRules.Dealt`, the latter through `DealtSoFar`, the cards dealt after `i` steps.
  - The constructor and `AddCartToDeck` have no `WarRules` counterpart; their contracts state the new fields directly.
  - `NewGame` runs a whole game as the unit tests do: build the engine, deal, play.
- `Scenarios` (`scenarios.dfy`): the engine's unit-test games worked out on the rules, plus a four-card game that never ends.

Two points where the model follows the code rather than a plain reading of the game's description:

- **Every war round draws two pairs.** The tied pair is followed by a hidden pair (`WarEngine.java:86`), then by the recursive call's new face-up pair. A war round is not a single new comparison pair. As a result, for the deck 3♥ 3♠ K♠ 2♥ 2♠ 4♥, player 1 takes all six cards in the first hand: K♠ and 2♥ are hidden, and 4♥ beats 2♠. See `Scenarios.WarDecidesHand`.
- **`play` need not terminate.** With the deal A♥ 2♥ / 2♠ A♠, every hand is won by an ace, and the decks return to their starting order after four hands (`Scenarios.EndlessGame`). The model's `Play` and `Game` therefore take a hand budget and report `Unfinished` when it runs out.

## Model

| member | source | states |
|---|---|---|
| Values.Ordinal | src/main/java/fr/ippon/codingdojo/model/enums/Value.java:7-20 | every rank's ordinal is below 13 |
| Values.DisplayValue | src/main/java/fr/ippon/codingdojo/model/enums/Value.java:8-23 | display strings are one or two characters long, and two exactly for Ten |
| Values.ExactlyThirteenRanks | src/main/java/fr/ippon/codingdojo/model/enums/Value.java:7-20 | the declared ranks are thirteen distinct values, and every rank is among them |
| Values.OrdinalIsPosition | src/main/java/fr/ippon/codingdojo/model/enums/Value.java:7-20 | the ordinal is the position in declaration order, both ways |
| Values.TwoLowestAceHighest | src/main/java/fr/ippon/codingdojo/model/enums/Value.java:8-20 | Two has the lowest ordinal (0) and Ace the highest (12) |
| Values.DisplayValueInjective | src/main/java/fr/ippon/codingdojo/model/enums/Value.java:8-23 | different ranks have different display strings |
| Cards.Symbol | src/main/java/fr/ippon/codingdojo/model/Card.java:27-41 | a suit's symbol is one of the four suit characters, clubs being the default branch |
| Cards.ToString | src/main/java/fr/ippon/codingdojo/model/Card.java:26-43 | the display is `[`, then the rank's display string, then the suit symbol, then `]` |
| Cards.IsGreaterThan | src/main/java/fr/ippon/codingdojo/model/Card.java:18-20 | a card beats another iff its rank's ordinal is higher; its properties are stated by `Cards.ComparisonIgnoresSuit`, `Cards.GreaterIsStrictOrder` and `Cards.Trichotomy` |
| Cards.IsEqualTo | src/main/java/fr/ippon/codingdojo/model/Card.java:22-24 | two cards tie iff their ranks' ordinals are equal; its properties are stated by `Cards.ComparisonIgnoresSuit`, `Cards.EqualToIsEquivalence` and `Cards.Trichotomy` |
| Cards.ComparisonIgnoresSuit | src/main/java/fr/ippon/codingdojo/model/Card.java:18-24 | changing suits changes neither "greater than" nor "equal to" |
| Cards.GreaterIsStrictOrder | src/main/java/fr/ippon/codingdojo/model/Card.java:18-20 | isGreaterThan is irreflexive, asymmetric and transitive |
| Cards.EqualToIsEquivalence | src/main/java/fr/ippon/codingdojo/model/Card.java:22-24 | isEqualTo is reflexive, symmetric and transitive, and holds iff the ordinals are equal |
| Cards.Trichotomy | src/main/java/fr/ippon/codingdojo/model/Card.java:18-24 | exactly one of "a beats b", "b beats a" and "same rank" holds, so the three branches of getWinner cover every pair |
| Cards.StructuralEquality | src/main/java/fr/ippon/codingdojo/model/Card.java:9-16 | cards are equal iff suit and rank are equal; 2♥ and 2♠ have the same rank but are different cards |
| Cards.SymbolInjective | src/main/java/fr/ippon/codingdojo/model/Card.java:28-41 | different suits have different symbols |
| Cards.ToStringInjective | src/main/java/fr/ippon/codingdojo/model/Card.java:26-43 | different cards are displayed differently |
| Decks.Deck.constructor | src/main/java/fr/ippon/codingdojo/model/Deck.java:10-14 | a new deck holds exactly the given cards |
| Decks.Deck.GetSize | src/main/java/fr/ippon/codingdojo/model/Deck.java:16-18 | the size is the number of cards held |
| Decks.Deck.Pick | src/main/java/fr/ippon/codingdojo/model/Deck.java:20-31 | an empty deck fails and is unchanged; otherwise the front card is returned and removed |
| Decks.Deck.Peek | src/main/java/fr/ippon/codingdojo/model/Deck.java:33-39 | fails iff the deck is empty; otherwise returns the front card, changing nothing |
| Decks.PeekTwice | src/test/java/fr/ippon/codingdojo/model/DeckTest.java:74-83 | two peeks in a row return the same card, and succeed iff the deck is non-empty |
| Decks.Deck.Shuffle | src/main/java/fr/ippon/codingdojo/model/Deck.java:41-43 | the new order is a permutation of the old one |
| Decks.Deck.Add | src/main/java/fr/ippon/codingdojo/model/Deck.java:45-47 | the card is appended at the back, and the other cards are untouched |
| WarRules.Dealt | src/main/java/fr/ippon/codingdojo/games/WarEngine.java:26-28 | the cards player p receives from the shuffled deck, in deal order; stated by `WarRules.DealtLength`, `WarRules.DealtAt`, `WarRules.DealtStep` and `WarRules.DealtConserves` |
| WarRules.DealtLength | src/main/java/fr/ippon/codingdojo/games/WarEngine.java:26-28 | player 0 is dealt ⌈n/2⌉ cards and player 1 ⌊n/2⌋ |
| WarRules.DealtAt | src/main/java/fr/ippon/codingdojo/games/WarEngine.java:26-28 | player p's k-th card is card 2k + p of the shuffled deck |
| WarRules.DealtStep | src/main/java/fr/ippon/codingdojo/games/WarEngine.java:26-28 | dealing card i appends it to player i % 2's cards only |
| WarRules.DealtConserves | src/main/java/fr/ippon/codingdojo/games/WarEngine.java:23-28 | the two hands together hold exactly the cards of the deck |
| WarRules.Interleave | src/main/java/fr/ippon/codingdojo/games/WarEngine.java:97-100 | alternating picks from both decks yield as many cards as both stretches hold |
| WarRules.InterleaveConserves | src/main/java/fr/ippon/codingdojo/games/WarEngine.java:97-100 | alternating picks lose and invent no card |
| WarRules.InterleaveAt | src/main/java/fr/ippon/codingdojo/games/WarEngine.java:97-100 | player 0's cards land at even positions of the played list and player 1's at odd ones |
| WarRules.InterleaveAppend | src/main/java/fr/ippon/codingdojo/games/WarEngine.java:97-100 | alternating picks over consecutive stretches of whole pairs concatenate |
| WarRules.PlayCards | src/main/java/fr/ippon/codingdojo/games/WarEngine.java:97-100 | both picks succeed iff both decks are non-empty, adding two played cards; otherwise player 0's empty deck adds none, and player 1's empty deck leaves player 0's card played |
| WarRules.PlayCardsDrawsAlternately | src/main/java/fr/ippon/codingdojo/games/WarEngine.java:97-100 | a pair of picks takes the decks' front cards and appends them, player 0's first |
| WarRules.DrawnAlternatelyTrans | src/main/java/fr/ippon/codingdojo/games/WarEngine.java:86-88 | alternating draws compose across the calls of a hand |
| WarRules.DrawnAlternatelyConserves | src/main/java/fr/ippon/codingdojo/games/WarEngine.java:97-100 | alternating draws keep the multiset and the number of cards on the table |
| WarRules.Fight | src/main/java/fr/ippon/codingdojo/games/WarEngine.java:69-91 | a comparison only adds played cards, and a won comparison names player 0 or 1 and adds at least a pair |
| WarRules.FightDrawsAlternately | src/main/java/fr/ippon/codingdojo/games/WarEngine.java:69-91 | a hand's cards are drawn alternately from the fronts of the decks, player 0 first; a failed pick is on the deck whose turn it was |
| WarRules.WonHandShape | src/main/java/fr/ippon/codingdojo/games/WarEngine.java:69-91 | a won hand is a run of war rounds (each a tied pair plus a hidden pair) and then a deciding pair in which the winner's card ranks higher |
| WarRules.WonWithoutWar | src/main/java/fr/ippon/codingdojo/games/WarEngine.java:79-82 | a first pair of different ranks decides the hand, and the higher card's owner wins |
| WarRules.WarRound | src/main/java/fr/ippon/codingdojo/games/WarEngine.java:83-89 | a tied pair and a hidden pair in front of a won hand still form a won hand for the same player |
| WarRules.FightWar | src/main/java/fr/ippon/codingdojo/games/WarEngine.java:83-89 | on a tie, the hand is decided by the comparison after the hidden pair, four cards later, with strictly fewer cards left in the decks |
| WarRules.DrawnSplit | src/main/java/fr/ippon/codingdojo/games/WarEngine.java:86-88 | the cards of a hand are those drawn before a war's recursive call followed by those drawn in it |
| WarRules.TiedRoundsLength | src/main/java/fr/ippon/codingdojo/games/WarEngine.java:83-89 | war rounds come in blocks of four cards |
| WarRules.WonHandDrawsTwoPairsPerWar | src/main/java/fr/ippon/codingdojo/games/WarEngine.java:69-91 | a won hand with k wars draws exactly 4k + 2 cards |
| WarRules.ParityWinner | src/main/java/fr/ippon/codingdojo/games/WarEngine.java:60 | `abs(count % 2 - 1)` is 0 or 1, and is 1 iff the count is even |
| WarRules.ParityOfPairs | src/main/java/fr/ippon/codingdojo/games/WarEngine.java:60 | after k whole pairs the fallback names player 1, and after one more card player 0 |
| WarRules.ResolveHand | src/main/java/fr/ippon/codingdojo/games/WarEngine.java:56-67 | the hand's winner is player 0 or 1 |
| WarRules.ResolveHandConserves | src/main/java/fr/ippon/codingdojo/games/WarEngine.java:56-67 | resolving a hand keeps every card on the table and counts it once |
| WarRules.FailedPickGoesToOtherPlayer | src/main/java/fr/ippon/codingdojo/games/WarEngine.java:59-65 | when a pick fails, the parity formula gives the hand to player 1 exactly when player 0's pick failed after whole pairs, and to player 0 exactly when player 1's pick failed after player 0's card; the loser's deck is then empty (both may be empty, as for 3♥ 3♠) |
| WarRules.PlayHand | src/main/java/fr/ippon/codingdojo/games/WarEngine.java:45-48 | one iteration of the loop body: resolve a hand and append its played cards to the winner's deck; stated by `WarRules.PlayHandConserves`, `WarRules.FailedPickEndsGame` and `Scenarios.HandWithoutWar` |
| WarRules.PlayHandConserves | src/main/java/fr/ippon/codingdojo/games/WarEngine.java:44-48 | one iteration of the game loop leaves the two decks holding the same cards between them |
| WarRules.HasAnyoneWon | src/main/java/fr/ippon/codingdojo/games/WarEngine.java:93-95 | the loop guard: player 0 holds some cards but not all; stated by `WarRules.GuardMeansBothHoldCards` |
| WarRules.GuardMeansBothHoldCards | src/main/java/fr/ippon/codingdojo/games/WarEngine.java:93-95 | when the decks hold all cards, the loop guard holds iff both players hold a card |
| WarRules.FirstPairNeverFails | src/main/java/fr/ippon/codingdojo/games/WarEngine.java:44-46 | while the game goes on, the first pair of a hand is always drawn |
| WarRules.Game | src/main/java/fr/ippon/codingdojo/games/WarEngine.java:43-54 | the game loop under a hand budget, with the winner chosen as in `play`; stated by `WarRules.GameConserves`, `WarRules.GameStops`, `WarRules.WinnerHoldsAllCards` and `Scenarios.EndlessGame` |
| WarRules.GameConserves | src/main/java/fr/ippon/codingdojo/games/WarEngine.java:43-54 | whatever the hand budget, the game keeps exactly the cards it started with |
| WarRules.GameStops | src/main/java/fr/ippon/codingdojo/games/WarEngine.java:43-54 | the game stops early only while the guard holds; otherwise the guard fails and player 0 wins iff they hold a card |
| WarRules.WinnerHoldsAllCards | src/main/java/fr/ippon/codingdojo/games/WarEngine.java:43-53 | the winner ends holding all cardsCount cards, and the loser none |
| WarRules.GameStep | src/main/java/fr/ippon/codingdojo/games/WarEngine.java:44-49 | proof step, one unfolding of `Game`: while the guard holds, the game is one hand followed by the rest of the game |
| WarRules.FailedPickEndsGame | src/main/java/fr/ippon/codingdojo/games/WarEngine.java:56-66 | a hand lost to a failed pick leaves the guard false, so it is the last hand |
| Games.DeckCountAfter | src/main/java/fr/ippon/codingdojo/games/WarEngine.java:32-41 | how many player decks exist after i cards were dealt; stated by `Games.DeckCountStep` |
| Games.DeckCountStep | src/main/java/fr/ippon/codingdojo/games/WarEngine.java:32-41 | dealing card i finds player i % 2's deck or creates it right after the existing ones |
| Games.WarEngine.constructor | src/main/java/fr/ippon/codingdojo/games/WarEngine.java:17-21 | the engine keeps the deck, records its size, and starts with no player decks |
| Games.WarEngine.Distribute | src/main/java/fr/ippon/codingdojo/games/WarEngine.java:23-30 | the deck is emptied and each player's deck gains `Dealt(shuffled, p)`; the shuffled order is a permutation of the deck; decks are created as needed and distinct |
| Games.WarEngine.DealNext | src/main/java/fr/ippon/codingdojo/games/WarEngine.java:26-28 | one loop step moves card i from the initial deck to player i % 2 |
| Games.WarEngine.AddCartToDeck | src/main/java/fr/ippon/codingdojo/games/WarEngine.java:32-41 | the card is appended to that player's deck, which is created when missing; other players' cards are unchanged |
| Games.WarEngine.HasAnyoneWon | src/main/java/fr/ippon/codingdojo/games/WarEngine.java:93-95 | the result is the loop guard on player 0's cards |
| Games.WarEngine.PlayCards | src/main/java/fr/ippon/codingdojo/games/WarEngine.java:97-100 | the picks and the played list match `WarRules.PlayCards`, including the failure after player 0's pick |
| Games.WarEngine.GetWinner | src/main/java/fr/ippon/codingdojo/games/WarEngine.java:69-91 | the outcome, decks and played list match `WarRules.Fight` |
| Games.WarEngine.GetHandWinner | src/main/java/fr/ippon/codingdojo/games/WarEngine.java:56-67 | the winner, decks and played cards match `WarRules.ResolveHand` |
| Games.WarEngine.PlayOneHand | src/main/java/fr/ippon/codingdojo/games/WarEngine.java:45-48 | the decks after the hand match `WarRules.PlayHand` |
| Games.NewGame | src/test/java/fr/ippon/codingdojo/games/WarEngineTest.java:93-105 | building an engine on a non-empty deck, dealing and playing gives the outcome of `WarRules.Game` on the dealt hands of a permutation of the deck; the cards are kept, and a winner holds them all |
| Games.WarEngine.Play | src/main/java/fr/ippon/codingdojo/games/WarEngine.java:43-54 | outcome and final decks match `WarRules.Game` for the same hand budget |
| Scenarios.DealingIsFair | src/test/java/fr/ippon/codingdojo/games/WarEngineTest.java:41-68 | the two hands split the deck, and differ by at most one card, player 0's; six cards give 3/3 and seven give 4/3 |
| Scenarios.DealtByPosition | src/main/java/fr/ippon/codingdojo/games/WarEngine.java:26-28 | the hands dealt are the deck's even and odd positions |
| Scenarios.PairDrawn | src/main/java/fr/ippon/codingdojo/games/WarEngine.java:97-100 | proof step, one unfolding of `PlayCards`: with both decks non-empty, a pair of picks takes both front cards |
| Scenarios.PairDecides | src/main/java/fr/ippon/codingdojo/games/WarEngine.java:79-82 | a face-up pair of different ranks ends the comparison in the higher card's favour |
| Scenarios.TieGoesToWar | src/main/java/fr/ippon/codingdojo/games/WarEngine.java:83-89 | a tied pair and a hidden pair hand the comparison over to the next pair |
| Scenarios.HandTaken | src/main/java/fr/ippon/codingdojo/games/WarEngine.java:45-48 | proof step, one unfolding of `PlayHand`: the played cards go to the back of the winner's deck |
| Scenarios.HandWithoutWar | src/main/java/fr/ippon/codingdojo/games/WarEngine.java:69-82 | a first pair of different ranks goes, in draw order, to the back of the higher card's owner's deck |
| Scenarios.LastCardDrawn | src/main/java/fr/ippon/codingdojo/games/WarEngine.java:97-100 | proof step, one unfolding of `PlayCards` and `Fight`: player 0's pick succeeds, player 1's fails, and the comparison ends in a failed pick |
| Scenarios.HigherCardWins | src/test/java/fr/ippon/codingdojo/games/WarEngineTest.java:93-120 | the deck 2♠ 3♠ ends with player 1 winning and holding both cards |
| Scenarios.SeveralHands | src/test/java/fr/ippon/codingdojo/games/WarEngineTest.java:122-137 | the deck 2♠ 3♠ 4♠ ends after three hands with player 0 winning and holding all three cards |
| Scenarios.SeveralHandsFirst | src/test/java/fr/ippon/codingdojo/games/WarEngineTest.java:122-137 | from the first position of that game, player 0 wins with all three cards |
| Scenarios.SeveralHandsSecond | src/test/java/fr/ippon/codingdojo/games/WarEngineTest.java:122-137 | from the second position, player 0 wins with all three cards |
| Scenarios.SeveralHandsThird | src/test/java/fr/ippon/codingdojo/games/WarEngineTest.java:122-137 | from the third position, player 0 wins with all three cards |
| Scenarios.WarDecidesHand | src/test/java/fr/ippon/codingdojo/games/WarEngineTest.java:139-155 | the deck 3♥ 3♠ K♠ 2♥ 2♠ 4♥ ends with player 1 winning and holding all six cards |
| Scenarios.WarHand | src/test/java/fr/ippon/codingdojo/games/WarEngineTest.java:139-155 | its one hand is a war that player 1's 4♥ wins |
| Scenarios.ShortDeckLosesWar | src/test/java/fr/ippon/codingdojo/games/WarEngineTest.java:157-172 | the deck 3♥ 3♠ 2♥ K♠ 2♠ ends with player 0 winning and holding all five cards |
| Scenarios.ShortDeckHand | src/test/java/fr/ippon/codingdojo/games/WarEngineTest.java:157-172 | its one hand is a war in which player 1 runs out, and the odd played count gives it to player 0 |
| Scenarios.TieOnLastCards | src/main/java/fr/ippon/codingdojo/games/WarEngine.java:56-65 | the deck 3♥ 3♠ ends with player 1 winning both cards: the threes tie, player 0's pick fails after an even count, and both decks are empty |
| Scenarios.TieHand | src/main/java/fr/ippon/codingdojo/games/WarEngine.java:56-65 | its one hand is a tie followed by a failed pick, given to player 1 |
| Scenarios.CycleStep | src/main/java/fr/ippon/codingdojo/games/WarEngine.java:43-49 | from any of four positions the guard holds, and the next hand leads to another of those positions |
| Scenarios.EndlessGame | src/main/java/fr/ippon/codingdojo/games/WarEngine.java:43-49 | from those positions the game is unfinished whatever the hand budget |
| Scenarios.EndlessDeal | src/main/java/fr/ippon/codingdojo/games/WarEngine.java:23-28 | the unshuffled deck A♥ 2♠ 2♥ A♠ deals the first of those positions |

## Left out

- Logging (`log.info` in `WarEngine.java`) is a side channel and is not modelled.
- `Collections.shuffle` randomness: `Decks.Deck.Shuffle` picks an arbitrary permutation, so the model says nothing about how often the order changes. That is the statistical property that the shuffle tests in `DeckTest.java` and `WarEngineTest.java` check.
- Games.WarEngine.Play: the Java loop has no bound, and the model plays at most `hands` hands, returning `Unfinished` when the budget runs out. With an unbounded loop a non-terminating game (see `Scenarios.EndlessGame`) could not be modelled.
- Games.WarEngine.Play: requires two player decks, or one deck on which the guard already fails. In Java, `playerDecks.get(0)` or `get(1)` throws `IndexOutOfBoundsException` when the deck was too small to create them; that exception is not modelled.
- Decks.Deck.Pick: the `null` check before `iterator.remove()` is not modelled, because Dafny cards are never null.
- Decks.Deck.constructor: Java's `@AllArgsConstructor` keeps the caller's list, so the caller and the deck share it. The model copies the sequence, so no aliasing is modelled.
- `hashCode`, the getters generated by Lombok, and the reflective test helpers in `TestUtils.java` are not modelled.
- Games.NewGame: requires a non-empty deck. With no card, `distribute` creates no player deck and Java's `play` throws `IndexOutOfBoundsException`, which is not modelled.
- Games.WarEngine.Distribute: the `shuffled` order it reports is ghost and only exists in the proof.
- Games.WarEngine.DealNext and Games.WarEngine.PlayOneHand are the bodies of the loops in `distribute` and `play`, written as methods of their own.
- The exception type itself (`EmptyDeckException`) is not modelled. A failed pick is the `None` result of `Decks.Deck.Pick`, or the `PickFailed` outcome of a comparison.
