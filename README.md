# Five-card draw poker with betting, in Dafny

This project models the game logic of `poker_bet.py`, a single-player five-card draw poker
game. The player starts with a bankroll, plays a fixed number of rounds and then sees a
summary screen with a retry button. In each round:

- a freshly shuffled 52-card deck is created and five cards are dealt from its end;
- the player may place bets, each clamped to the bankroll and debited at once;
- the player may select cards and exchange them once, which needs a positive bet;
- the final hand is classified into one of nine categories and the bet times that
  category's multiplier is credited.

`poker_bet.dfy` has four modules:

- `Sequences` holds generic sequence facts: counting, distinctness, projections, extrema and the descending sort of `sorted(..., reverse=True)`. It also has `RemoveFirst`, which models Python's `list.remove` on a value that is present.
- `Cards` holds suits and ranks, `Card`, the `Deck` and `Hand` classes, and the shuffled deck.
  - The shuffle is a parameter: any permutation of the ordered deck (`IsShuffled`).
  - A rank is its position in the `ranks` list, so ace is 12 and two is 0.
- `HandEvaluator` holds `evaluate_hand` as the function `EvaluateHand`, which keeps the first-match rule chain with every guard as written. It also holds the characterisation lemmas for flush, straight and the count-based categories.
- `PokerGame` holds the state of `play_poker` as the class `Game`, with one method per transition: start of round, card click, bet placement, exchange, settlement and retry.
  - Each method is proved against a pure specification and keeps the invariant `Valid()`: the bankroll and bet are never negative, the round counter stays within the session, a round's hand has five cards, and no card is ever both in the hand and in the deck, or twice in either.
  - `OneRoundSession`, `BetSequence` and `LockedRound` walk the state machine through concrete sessions.

Money, bets and multipliers are exact `real`s. In the source the bet comes from `int()` and the multipliers 10, 5, 4, 3, 2 and 1 are integers, so those payouts stay integers. The multipliers 1.5, 1.2 and 0.5 are binary floats. The bankroll becomes a float only after a payout at one of those three, and a clamped bet then takes over that float value.

Five behaviours of the code that a reader may not expect are kept as written:

- **Ace-high only.** Ace-2-3-4-5 is not a straight (`AceLowIsNotStraight`, `WheelIsNoStraight`). Ace-high straights count (`RoyalIsStraightFlush`).
- **Repeated bets are debited again.** A second bet within a round is debited again and replaces `bet`; the first amount is not refunded. `PlaceBet` states this: `currentMoney == old(currentMoney) - bet`. `BetSequence` shows five placements in a row.
- **The bet is not reset at round start.** The code never resets `bet` when a round starts. It is zero there anyway, because it starts at zero and settlement zeroes it. This is the invariant `!playing ==> bet == 0.0`.
- **Input during the settling frame still takes effect.** Settlement happens at the end of the frame in which the exchange was made. Any clicks later in that frame's event batch still act on the round: toggles, and bets that are debited and then paid out. So `ToggleSelection` and `PlaceBet` do not require that no exchange has happened, and `Settle` pays whatever `bet` is at that moment.
- **A round can lock.** Bet the whole bankroll, then bet text that `int()` rejects (or 0). The second bet replaces the first without a refund, so money and bet are both 0. After that every bet clamps to 0, the exchange needs a positive bet (line 207) and settlement needs the exchange (line 287). The round never ends and only quitting leaves it. `LockedRound` walks through this.

## Model

| member | source | states |
|---|---|---|
| Sequences.FirstIndex | poker_bet.py:235 | the position found holds `x` and no earlier position does |
| Sequences.RemoveFirst | poker_bet.py:235 | the first occurrence of `x` is dropped and the other elements keep their order, so exactly one copy leaves the multiset; a list without `x` is returned unchanged |
| Sequences.Count | poker_bet.py:45-47 | a counter filled by the loop never exceeds the number of cards |
| Sequences.CountIsMultiplicity | poker_bet.py:45-47 | the counter for a value ends at that value's multiplicity |
| Sequences.SeqMax | poker_bet.py:50 | `max` returns an element that no element exceeds |
| Sequences.SeqMin | poker_bet.py:55 | `min` returns an element that no element undercuts |
| Sequences.SortDescending | poker_bet.py:49 | `sorted(..., reverse=True)` returns a descending permutation of its input |
| Cards.OrderedDeck | poker_bet.py:20 | the unshuffled deck has 52 cards; the card at position i has suit index × 13 + rank = i (suit by suit, ranks in order) |
| Cards.OrderedDeckComplete | poker_bet.py:20 | the suit-by-rank comprehension yields 52 cards, pairwise different, and every (suit, rank) pair |
| Cards.ShuffledDeck | poker_bet.py:19-21 | any shuffle of the ordered deck still has 52 cards, no duplicate and every card |
| Cards.Deck.constructor | poker_bet.py:19-21 | a new deck holds the cards in the shuffled order |
| Cards.Deck.Deal | poker_bet.py:23-24 | `pop` removes and returns the last card; an empty deck yields `None` and stays empty |
| Cards.Hand.constructor | poker_bet.py:28-29 | a new hand is empty |
| Cards.Hand.AddCard | poker_bet.py:31-32 | the card is appended at the end |
| Cards.Hand.ReplaceCard | poker_bet.py:34-35 | position `index` is overwritten when it exists; otherwise nothing changes and failure is reported |
| Cards.DealTen | poker_bet.py:23-24 | ten deals from a fresh deck all succeed and give ten pairwise different cards, the last ten of the shuffled order |
| HandEvaluator.RanksAndSuitsAreProjections | poker_bet.py:45-47 | the rank and suit sequences counted by the loop are the per-card projections of the hand |
| HandEvaluator.Category.Multiplier | poker_bet.py:58-75 | every multiplier lies between 0.5 and 10, and only High Card pays less than the bet back |
| HandEvaluator.RankCounts | poker_bet.py:42-47 | thirteen counters, one per rank in `ranks` order, each between 0 and the hand size |
| HandEvaluator.SuitCounts | poker_bet.py:43-47 | four counters, one per suit in `suits` order, each between 0 and the hand size |
| HandEvaluator.CountsAreMultiplicities | poker_bet.py:42-47 | each rank and suit counter ends at the number of cards with that rank or suit |
| HandEvaluator.RankProfile | poker_bet.py:49 | `rank_counts` is a descending permutation of the thirteen rank counters |
| HandEvaluator.IsFlush | poker_bet.py:50 | a flush needs at least five cards |
| HandEvaluator.IsStraight | poker_bet.py:51-56 | a straight needs at least five cards, and its lowest rank index is at most 8 (ten-high at the top) |
| HandEvaluator.EvaluateHandRules | poker_bet.py:41-75 | `evaluate_hand` gives Straight Flush exactly for a straight that is a flush; Flush only for a flush that is no straight, Straight only for a straight that is no flush; a flush or a straight is beaten only by Straight Flush, Four of a Kind or Full House |
| HandEvaluator.StraightWithoutFlush | poker_bet.py:52-67 | five cards forming a straight that is not a flush evaluate to Straight |
| HandEvaluator.FlushIffOneSuit | poker_bet.py:50 | for five cards, "the largest suit count is 5" holds iff all cards share one suit |
| HandEvaluator.StraightIffDistinctSpan | poker_bet.py:52-56 | for five cards, a straight iff the ranks are pairwise different and max - min == 4 |
| HandEvaluator.StraightIffRun | poker_bet.py:52-56 | for five cards, a straight iff the rank set is {lo..lo+4} for some lo in 0..8 (both directions) |
| HandEvaluator.StraightIsRun | poker_bet.py:52-56 | a five-card straight has as rank set a run of five consecutive ranks starting at most at 8 |
| HandEvaluator.RunIsStraight | poker_bet.py:52-56 | five cards whose rank set is a run of five consecutive ranks are a straight |
| HandEvaluator.AceLowIsNotStraight | poker_bet.py:52-67 | any hand holding an ace and a two is neither a straight nor a straight flush |
| HandEvaluator.FourOfAKindAnyKicker | poker_bet.py:58-61 | five cards with exactly four of one rank evaluate to Four of a Kind whatever the fifth card |
| HandEvaluator.FullHouseFromCounts | poker_bet.py:58-63 | three cards of one rank and two of another evaluate to Full House |
| HandEvaluator.ExtremaPermutation | poker_bet.py:52-55 | reordering rank indices (the `sort`) changes neither their maximum nor their minimum |
| HandEvaluator.EvaluatePermutation | poker_bet.py:41-75 | the category depends only on the multiset of cards, not on their order |
| HandEvaluator.StraightPermutation | poker_bet.py:52-56 | the straight test depends only on the multiset of rank indices |
| HandEvaluator.CountsPermutation | poker_bet.py:45-47 | the per-rank and per-suit counts depend only on the multiset of values |
| HandEvaluator.ConsecutiveOneSuitIsStraightFlush | poker_bet.py:50-59 | five cards of one suit on five consecutive ranks evaluate to Straight Flush |
| HandEvaluator.RoyalIsStraightFlush | poker_bet.py:52-59 | ten to ace of one suit (indices 8..12) is a Straight Flush: ace-high runs count |
| HandEvaluator.DistinctRanksProfile | poker_bet.py:42-49 | with no repeated rank the largest entry of `rank_counts` is 1 |
| HandEvaluator.HighCardWhenNothingMatches | poker_bet.py:58-75 | five different ranks with no flush and no straight fall through to High Card |
| HandEvaluator.WheelIsNoStraight | poker_bet.py:52-75 | ace-2-3-4-5 evaluates to Flush when suited and to High Card otherwise, never to a straight |
| PokerGame.ClampBet | poker_bet.py:217-225 | unparsable text gives 0; a bet within [0, money] is kept, a negative one becomes 0, one above the money becomes the money |
| PokerGame.Toggled | poker_bet.py:234-237 | a selected position loses one occurrence; an unselected one is appended at the end |
| PokerGame.ToggledMembership | poker_bet.py:232-237 | a click flips whether position `i` is selected and no other position, and the selection stays free of repeats |
| PokerGame.ToggleTwice | poker_bet.py:234-237 | clicking a card twice restores the set of selected positions, and restores the list itself when the card was not selected |
| PokerGame.SelectionAtMostFive | poker_bet.py:232-237 | a selection without repeats holds at most five positions |
| PokerGame.Exchanged | poker_bet.py:209-211 | the hand after replacing the selected positions still has five cards |
| PokerGame.ExchangedPositions | poker_bet.py:209-211 | the k-th selected position receives the k-th card from the end of the deck; unselected positions keep their cards |
| PokerGame.ExchangedMultiset | poker_bet.py:209-211 | the new hand plus the remaining deck is a sub-multiset of the old hand plus the old deck |
| PokerGame.ExchangedUnique | poker_bet.py:209-211 | an exchange never makes a card appear twice among the hand and the deck |
| PokerGame.DealRound | poker_bet.py:160-167 | the fresh deck keeps the first 47 shuffled cards; hand card i is shuffled card 51 - i; no card is repeated |
| PokerGame.Game.constructor | poker_bet.py:152-156 | a session starts with the initial money, round 0, bet 0 and outside a round |
| PokerGame.Game.StartRound | poker_bet.py:158-167 | a round starts iff none is running and rounds remain; it brings a fresh deck and hand, an empty selection and no exchange; money, bet and counter unchanged |
| PokerGame.Game.ToggleSelection | poker_bet.py:232-237 | the selection becomes the toggled selection; nothing else changes |
| PokerGame.Game.PlaceBet | poker_bet.py:217-225 | the bet becomes the clamped input and is debited from the current money again on every placement (also the Enter key, lines 243-251) |
| PokerGame.Game.Exchange | poker_bet.py:208-213 | happens iff no exchange yet and bet > 0; then the hand is the exchanged hand, the deck loses one card per selected position, the selection is cleared and the exchange is marked; otherwise nothing changes |
| PokerGame.Winnings | poker_bet.py:288 | a settled bet pays back between half and ten times itself; a positive bet pays back less than itself exactly when the hand is High Card |
| PokerGame.Game.Settle | poker_bet.py:287-293 | happens iff the exchange is done; then money grows by bet times the final hand's multiplier, the round counter advances, the bet is cleared and the round ends; selection and exchange flag stay as they were; otherwise nothing changes |
| PokerGame.Game.Restart | poker_bet.py:320-323 | on the summary screen (all rounds played) money returns to its initial value and the counter to 0; otherwise nothing changes |
| PokerGame.OpenRound | poker_bet.py:159-237 | a one-round session after dealing, betting 100 out of 1000 and clicking cards 0 and 1 holds 900, bet 100, selection [0, 1] |
| PokerGame.HandAfterExchange | poker_bet.py:209-211 | exchanging positions 0 and 1 right after the deal gives the hand shuffled[46], shuffled[45], shuffled[49], shuffled[48], shuffled[47] |
| PokerGame.OneRoundSession | poker_bet.py:159-323 | bet 100 leaves 900; a second exchange is refused; settlement yields 900 + 100 × multiplier (1000 for One Pair); the session ends and retry restores 1000 |
| PokerGame.BetSequence | poker_bet.py:217-225 | from 1000, bets of -5, 100, 50, 5000 and unparsable text give bets 0, 100, 50, 850, 0 and money 1000, 900, 850, 0, 0 |
| PokerGame.LockedRound | poker_bet.py:207-287 | betting all 1000, then unparsable text, then anything leaves money 0 and bet 0; the exchange and settlement are refused, the round stays open and no new round starts |

## Left out

- Drawing, fonts, images, hover colours, the input box and event polling (poker_bet.py lines 78-149 and the rendering parts of 188-285 and 295-318) are presentation. Their effect on the game is the sequence of transition calls.
- `random.shuffle` (line 21) is not modelled as randomness. Every method that creates a deck takes the shuffled order as a parameter, constrained to be a permutation of the ordered deck.
- Editing the bet text with keystrokes (lines 254-257) is left out, and so is `int()` parsing. A bet arrives as `Option<int>`, with `None` for text that `int()` rejects.
- Quitting (lines 193-195 and 315-317) ends the program and is not a state transition here.
- The 3-second pause after settlement (line 290) is a presentation delay.
- `Card.__repr__`, `Hand.__repr__` and the category names are display strings. `Category.Name` gives the names, but nothing is proved about them.
- PokerGame.Game.Settle: the payout uses exact rational arithmetic, not the source's binary floating point (lines 288-289). After a 1.5, 1.2 or 0.5 payout the model's bankroll can differ from Python's float in the last bits.
- Sequences.RemoveFirst: Python's `list.remove` raises `ValueError` when the value is absent; the model returns the list unchanged. The only caller removes `i` after checking `i in selected_indices` (line 234), so that case is not reachable.
- Cards.Hand.ReplaceCard: Python also accepts negative indices (counting from the end). The model's index is a `nat`. Callers only ever pass selected positions 0-4. An index past the end raises `IndexError` in Python; the model returns `false` and leaves the hand unchanged.
- Cards.Deck.Deal: on an empty deck the source raises `IndexError`, and the model returns `None` instead. No caller can reach this: a round deals at most ten cards, as `DealTen` and `Valid()` show.
- HandEvaluator.FourOfAKindAnyKicker: it needs exactly four cards of one rank. Five cards of one rank (impossible with one deck) would give a top count of 5, which misses every count rule of the source's chain (Flush or High Card).
- Multi-threading, persistence and I/O do not exist in the source.
