# UNO game engine — a verified model

This project models the rules engine of a C++ UNO implementation in Dafny and
proves properties of the model. It covers:

- **Cards.** Colour and value codes, validity, the wild and action classes,
  and scores (`game/card.h`, `game/card.cpp`).
- **The message queue.** Players' chat messages wait here (`MessageQueue` in
  `game/game_components.*`):
  - it holds `(player, text)` entries in FIFO order and has a capacity, where a
    negative capacity means unbounded;
  - its overflow flag stays set until `clear()`.
- **The event broadcaster.** Every Observer call goes to every listener in list
  order, between `beforeEach` and `afterEach` (`Broadcaster` in `game/events.h`).
  After every event except PlayerSaid and MessageOverflow, the engine's
  `EventBroadcaster` drains the queue:
  - it replays each queued message as PlayerSaid, including messages said
    during the drain;
  - it reports an overflow once;
  - it clears the queue.
- **The `UnoGame` engine** (`game/uno_game.h`, `game/uno_game.cpp`):
  - registering and reseating players;
  - building the 108-card deck;
  - dealing, with the clamp on impossible requests and the `chooseCards` override
    checks;
  - flushing the discard pile back into the deck;
  - placing the first card, which is never a WildDraw4;
  - the turn loop of a set: action cards, drawing, the disqualification test,
    playing a card, colour and direction changes, and the rotation of players
    still in the set;
  - set scoring, the turn and set limits, and the winner of the game.

Cards are identities (`CardId`, 0..107) into the immutable standard deck in the
order `prepareDeck` creates them. `Decks.Face` gives the colour and value of an
identity. The engine's central invariant is `UnoGame.Valid`:

- one record per seat, and at most ten seats;
- each seat knows its own number;
- deck ++ discard pile ++ all hands is exactly the multiset of the 108 identities,
  so no identity is repeated (`GameState.Conserved`).

Every state-changing engine method keeps `Valid`.

The C++ classes with mutable state become Dafny classes with the same fields:
`MessageQueues.MessageQueue`, `Broadcasting.EventBroadcaster` and
`Engine.UnoGame`. Each of them is specified by a function on values:
`MessageQueues.Add`, `Broadcasting.Broadcast`, `Engine.Opened`, `Engine.Played`
and others.

Inputs the engine cannot see are parameters:

- The players' answers (`playCard`, `drawAdditionalCard`, `changeColor`) are the
  `Engine.Decisions` of a set, keyed by set and turn number.
- `std::minstd_rand` and `std::shuffle` are modelled as follows:
  - the draws of the random engine are a function of the seed, the number of
    shuffles since seeding and the draw number;
  - `Shuffling.Shuffled` is the shuffle those draws make;
  - `Shuffling.EveryOrderReachable` shows that any permutation can come out.
- The engine writes an ordered log of the Observer calls it makes
  (`UnoGame.events`). `Broadcasting` models how one such call reaches the
  listeners.

With two players in the rotation, `nextPlayerIndex` (`game/uno_game.cpp:574-585`)
hands the turn to the other player in either direction, so a Reverse does not
change who plays next (`Rules.NextIsAnotherPlayer`).

Two places of the source do not do what it evidently intends (see Findings).
The engine model follows the corrected behaviour in both, and each such member
is listed under Left out:

- After reseating, every player is told its new seat number.
- A set that ends at the turn limit starts another set instead of throwing
  out_of_range.

## Model

| member | source | states |
|---|---|---|
| Cards.ColorCode | game/card.h:3-9 | the colour codes are 0..3 |
| Cards.ColorCodeInjective | game/card.h:3-9 | two colours have the same code exactly when they are the same colour |
| Cards.WildIsValid | game/card.h:39-42 | every wild card is valid |
| Cards.KindsPartitionValidCards | game/card.cpp:3-8 | a card is valid exactly when it is a digit, an action card or a wild card, and no card is of two of these kinds |
| Cards.Card.Score | game/card.cpp:10-13 | a valid card scores between 0 and 50, and a digit card scores its value |
| Cards.ScoreByKind | game/card.cpp:10-13 | wild cards score 50, action cards 20, digit cards their face value |
| MessageQueues.Fresh | game/game_components.cpp:3-8 | a new queue is empty, not overflowed, with the given capacity, and within its limit |
| MessageQueues.Add | game/game_components.cpp:10-19 | the message is accepted exactly when the queue is not full; if accepted, it is appended and nothing else changes; if refused, only the overflow flag is set |
| MessageQueues.WithLimit | game/game_components.cpp:21-26 | setting the limit keeps every entry; overflow is set exactly when it already was or the new non-negative limit is below the size |
| MessageQueues.Cleared | game/game_components.h:44 | clearing empties the queue and resets overflow, keeping the capacity |
| MessageQueues.AddKeepsWithinLimit | game/game_components.cpp:12-18 | a queue within its limit stays within it after addMessage |
| MessageQueues.OverflowIsSticky | game/game_components.cpp:10-26 | neither addMessage nor setLimit ever resets a set overflow flag |
| MessageQueues.AddIsFifo | game/game_components.cpp:17-18 | an accepted message becomes the last entry behind all earlier ones; a refused one leaves the entries unchanged |
| MessageQueues.MessageQueue.constructor | game/game_components.cpp:3-8 | the new queue object is in the Fresh state |
| MessageQueues.MessageQueue.AddMessage | game/game_components.cpp:10-19 | the queue's new state and the returned flag are those of Add |
| MessageQueues.MessageQueue.SetLimit | game/game_components.cpp:21-26 | the queue's new state is that of WithLimit |
| MessageQueues.MessageQueue.Clear | game/game_components.h:44 | the queue's new state is that of Cleared |
| Events.CodesAreOneToSeventeen | game/events.h:114-133 | the GameEvent codes run 1..17 and no two events share a code |
| Broadcasting.SayAll | game/uno_game.cpp:13-17 | messages said through the queue only extend its entries, never widen its room, and keep its capacity |
| Broadcasting.Deliveries | game/events.h:193-194 | an event reaches as many listeners as the list holds |
| Broadcasting.DeliveriesInOrder | game/events.h:193-194 | the k-th delivery of an event goes to the k-th listener |
| Broadcasting.DeliverFrom | game/events.h:193-194 | delivering to listeners only extends the queue, keeps its capacity, and leaves it untouched for a PlayerSaid when listeners do not answer chat |
| Broadcasting.DeliverFromTrace | game/events.h:193-194 | the listeners from position k on each receive the event exactly once, in list order |
| Broadcasting.Dispatch | game/events.h:188-196 | one Broadcaster handler only extends the queue and keeps its capacity |
| Broadcasting.DispatchOrder | game/events.h:188-196 | a handler calls beforeEach, then every listener in list order, then afterEach |
| Broadcasting.SpectatorsAreSilent | game/events.h:34-110 | a plain Observer only receives the call and changes nothing else |
| Broadcasting.Replay | game/uno_game.cpp:637-641 | replaying the queue keeps its capacity and only extends its entries |
| Broadcasting.ReplayTrace | game/uno_game.cpp:637-641 | the replay broadcasts every queued message as PlayerSaid in FIFO order, including messages added during the replay |
| Broadcasting.ReplayStep | game/uno_game.cpp:637-641 | one replay step broadcasts the next queued message and leaves less room in the queue |
| Broadcasting.Drain | game/uno_game.cpp:632-644 | after flushMessages the queue is empty and its overflow flag is reset |
| Broadcasting.SilentDrain | game/uno_game.cpp:632-644 | with listeners that do not talk, the drain broadcasts each queued message in order, then one MessageOverflow if the flag was set |
| Broadcasting.SilentReplayKeepsQueue | game/uno_game.cpp:637-641 | with listeners that do not talk, the replay leaves the queue as it was |
| Broadcasting.BroadcastEmptiesQueue | game/uno_game.cpp:646-651 | after any event other than PlayerSaid and MessageOverflow, the queue is empty with its capacity kept |
| Broadcasting.ChatEventsDoNotDrain | game/uno_game.cpp:646-651 | PlayerSaid and MessageOverflow are delivered without draining the queue |
| Broadcasting.CapacityTwoExample | game/uno_game.cpp:632-644 | a capacity-2 queue refuses a third message and sets overflow; the drain then broadcasts the two messages, one overflow, and leaves the queue fresh |
| Broadcasting.EventBroadcaster.constructor | game/uno_game.cpp:653-656 | a new broadcaster has no listeners and the given queue |
| Broadcasting.EventBroadcaster.AddListener | game/uno_game.cpp:658-662 | the listener is appended at the end of the list |
| Broadcasting.EventBroadcaster.HandleBy | game/events.h:193-194 | one listener's handler has the effect of Handle |
| Broadcasting.EventBroadcaster.Notify | game/events.h:188-196 | a Broadcaster handler has the effect of Broadcast, keeping the listener list |
| Broadcasting.EventBroadcaster.AfterEachHook | game/uno_game.cpp:646-651 | afterEach drains the queue exactly for events other than PlayerSaid and MessageOverflow |
| Broadcasting.EventBroadcaster.FlushMessages | game/uno_game.cpp:632-644 | flushMessages has the effect of Drain |
| Broadcasting.EventBroadcaster.ReplayQueue | game/uno_game.cpp:637-641 | the replay loop has the effect of Replay from the first entry |
| Decks.Pairs | game/uno_game.cpp:203-207 | two cards of the colour for each listed value |
| Decks.ColorBlocks | game/uno_game.cpp:201-209 | 25 cards per colour |
| Decks.Wilds | game/uno_game.cpp:210-215 | two wild cards per round |
| Decks.PrepareDeck | game/uno_game.cpp:195-216 | the loop builds exactly the standard deck |
| Decks.DeckSize | game/uno_game.cpp:195-216 | the standard deck holds 108 cards |
| Decks.DeckComposition | game/uno_game.cpp:195-216 | each colour and value occurs as often as the rules say: one 0 and two each of 1..9, Draw2, Skip and Reverse per colour, four Wild and four WildDraw4 |
| Decks.PairsCount | game/uno_game.cpp:203-207 | a pair block holds two of each listed value in its colour and nothing else |
| Decks.DoublesCount | game/uno_game.cpp:199-200 | the doubled values are 1..12, each once |
| Decks.ColorBlockCount | game/uno_game.cpp:201-209 | the cards of one colour block, counted by face |
| Decks.WildsCount | game/uno_game.cpp:210-215 | the wild rounds hold k Wild and k WildDraw4, all coloured Blue |
| Decks.FourBlocks | game/uno_game.cpp:197-209 | the colour blocks come in the order Blue, Green, Red, Yellow |
| Decks.PairsAt | game/uno_game.cpp:203-207 | the j-th card of a pair block has the (j/2)-th value |
| Decks.ColorBlockAt | game/uno_game.cpp:201-209 | the j-th card of a colour block |
| Decks.ColorBlocksAt | game/uno_game.cpp:201-209 | the k-th card of the colour part lies in block k/25 |
| Decks.WildsAt | game/uno_game.cpp:210-215 | Wild and WildDraw4 alternate in the wild part |
| Decks.FaceIsStandard | game/uno_game.cpp:195-216 | the face computed for an identity is the card prepareDeck created at that position |
| Decks.DeckIsValid | game/uno_game.cpp:195-216 | every card of the deck is valid |
| Decks.ColorBlocksHaveNoWild | game/uno_game.cpp:201-209 | no card of the colour part is wild |
| Decks.WildDraw4Ids | game/uno_game.cpp:210-215 | the WildDraw4 cards are exactly identities 101, 103, 105 and 107 |
| Decks.SomeNotWildDraw4 | game/uno_game.cpp:298-318 | more than four distinct cards always include one that is not a WildDraw4 |
| Piles.Ids | game/uno_game.cpp:195-216 | the identities 0..n-1 in creation order |
| Piles.Reversed | game/uno_game.cpp:266-267 | cards taken from the back of the deck come in reverse order |
| Piles.ReversedKeepsMultiset | game/uno_game.cpp:266-268 | reversing keeps the same cards |
| Piles.RemoveAt | game/uno_game.cpp:505-506 | erasing one element keeps the others in order |
| Piles.RemoveAtMultiset | game/uno_game.cpp:505-506 | erasing removes exactly that one card |
| Piles.IndexOf | game/uno_game.cpp:311-313 | std::find gives -1 or a position that holds the card |
| Piles.IndexOfFirst | game/uno_game.cpp:311-313 | the position std::find gives is the first one holding the card, and it is -1 exactly when the card is absent |
| Piles.NoRepeatsIsDistinct | game/uno_game.cpp:626-630 | a pile where no card occurs twice has distinct identities |
| Piles.ConcatKeepsPool | game/uno_game.cpp:236-243 | concatenating the hands gives exactly the cards held |
| ChosenCards.Without | game/uno_game.cpp:275-280 | filtering the deck never lengthens it |
| ChosenCards.Split | game/uno_game.cpp:275-280 | the deck splits into the kept cards and the chosen cards it holds |
| ChosenCards.ChosenAccepted | game/uno_game.cpp:273-283 | the size check passes exactly when the chosen cards are distinct cards of the deck, and the deck then loses exactly those cards |
| Rules.HaveMatchingColor | game/uno_game.cpp:598-606 | true exactly when the hand holds a non-wild card of the colour |
| Rules.HaveWildOrValue | game/uno_game.cpp:591-595 | true exactly when the hand holds a wild card or a card of the value |
| Rules.CanPlaceIffLegalCardInHand | game/uno_game.cpp:587-596 | canPlaceCard holds exactly when some card of the hand would pass the disqualification test |
| Rules.FindInHand | game/uno_game.cpp:466-472 | the first hand position with the claimed colour and value, or -1 exactly when there is none |
| Rules.AcceptedPlay | game/uno_game.cpp:473-480 | an accepted card is valid, is in the hand by colour and value, matches the top value or colour or is wild, and is a WildDraw4 only when the player has no card of the colour |
| Rules.HandScoreAppend | game/uno_game.cpp:608-614 | the score of two hands joined is the sum of their scores |
| Rules.HandScoreBounds | game/uno_game.cpp:608-614 | a hand of valid cards scores between 0 and 50 per card |
| Rules.HandScoreRemove | game/uno_game.cpp:608-614 | playing a card lowers the hand score by exactly that card's score |
| Rules.Position | game/uno_game.cpp:564-572 | the first position of the player in the rotation |
| Rules.NextPlayerIndex | game/uno_game.cpp:574-585 | the next player is always in the rotation |
| Rules.NextPosition | game/uno_game.cpp:574-585 | Direct moves one place forward and Inverse one place back in the rotation, wrapping at both ends |
| Rules.NextThenBack | game/uno_game.cpp:574-585 | stepping forward and then back, or back and then forward, returns to the active player |
| Rules.NextIsAnotherPlayer | game/uno_game.cpp:574-585 | with two or more players the turn passes to someone else; with two, both directions give the same player |
| Rules.RemovePlayer | game/uno_game.cpp:492 | erasing the active player removes exactly that player and keeps everyone else, in rotation order |
| Rules.OccursOnce | game/uno_game.cpp:621 | a value is counted at least once exactly when it occurs |
| Rules.OccursTwice | game/uno_game.cpp:621-622 | a value is counted twice exactly when it occurs at two positions |
| Rules.MaxIndex | game/uno_game.cpp:619-620 | std::max_element gives the first position of the maximum |
| Rules.FindWinnerSpec | game/uno_game.cpp:616-624 | findWinner returns the maximum score; the index is -1 exactly when two players share it, otherwise it is the unique player holding it |
| Seating.Swap | game/uno_game.cpp:188 | iter_swap exchanges two positions and keeps the rest |
| Seating.SwapMultiset | game/uno_game.cpp:188 | a swap keeps the same elements |
| Seating.ApplySwaps | game/uno_game.cpp:183-193 | the swaps keep the length |
| Seating.ApplySwapsMultiset | game/uno_game.cpp:183-193 | applying the swaps (i, perm[i]) in order permutes the sequence |
| Seating.ApplySwapsPairs | game/uno_game.cpp:183-193 | the same swaps on players and records keep each player with its record |
| Seating.Renumber | game/uno_game.cpp:3-11 | telling every player its seat number makes the seating consistent |
| Seating.ShuffleCorrectedSpec | game/uno_game.cpp:183-193 | reseating with renumbering keeps every seat consistent and permutes the players |
| Seating.ShuffleAsWrittenBreaksNumbering | game/uno_game.cpp:183-193 | with two players and permutation [1], the players swap seats but keep their old numbers |
| Shuffling.Shuffled | game/uno_game.cpp:225-228 | a shuffle keeps the length |
| Shuffling.ShuffledIsPermutation | game/uno_game.cpp:225-228 | a shuffle keeps the same elements |
| Shuffling.EveryOrderReachable | game/uno_game.cpp:225-228 | every permutation of the deck is the result of some draws |
| Shuffling.ShuffledIgnoresEarlierDraws | game/uno_game.cpp:225-228 | a shuffle depends only on the draws it uses |
| Shuffling.Pick | game/uno_game.cpp:227 | a draw always picks a position inside the range |
| GameState.Faces | game/uno_game.cpp:589 | the faces of a pile of identities, position by position |
| GameState.HandsOf | game/uno_game.h:170-178 | the hands of the player records, in order |
| GameState.ScoresOf | game/uno_game.cpp:64-73 | currentScores lists each player's cumulative score in order |
| GameState.ConservedFacts | game/uno_game.cpp:626-630 | under the card invariant the deck and the discard pile hold distinct standard identities and the piles and hands add up to 108 |
| GameState.HandUpdate | game/uno_game.cpp:285-286 | replacing one hand changes the cards held by exactly the difference |
| GameState.GiveCards | game/uno_game.cpp:262-287 | moving cards from the deck to a hand keeps every card in exactly one place |
| GameState.LayFromHand | game/uno_game.cpp:501-506 | laying a hand card on the discard pile keeps every card in exactly one place |
| GameState.TurnOver | game/uno_game.cpp:305-306 | turning a deck card onto the discard pile keeps every card in exactly one place |
| GameState.CollectHand | game/uno_game.cpp:240-241 | returning a hand to the deck keeps every card in exactly one place |
| GameState.Flushing | game/uno_game.cpp:548-557 | flushing all but the top discard into the deck keeps every card in exactly one place |
| GameState.CollectHands | game/uno_game.cpp:236-243 | clearHands appends every hand to the deck in player order, empties every hand and keeps every card in exactly one place |
| GameState.SeatNewPlayer | game/uno_game.cpp:93 | a new player with an empty hand adds no cards |
| GameState.ScoreChange | game/uno_game.cpp:542 | changing one player's score changes only that entry of the scores |
| GameState.SwapsKeepPool | game/uno_game.cpp:189-190 | reseating the records keeps the cards held |
| GameState.Everyone | game/uno_game.cpp:352 | the rotation of a new set holds every player once, in seat order |
| GameState.RemoveKeepsRotation | game/uno_game.cpp:492 | the rotation stays a list of distinct players after a disqualification |
| GameState.OutsideRemove | game/uno_game.cpp:487-492 | a disqualified player's hand score moves into the score of players outside the rotation |
| GameState.OutsidePlusInside | game/uno_game.cpp:536-541 | the set score of the disqualified players plus that of the other players still in the rotation is the hand score of everyone but the winner |
| GameState.RotationScoreIsInside | game/uno_game.cpp:537-541 | the final loop's sum over the rotation is the hand score of the players in it other than the winner |
| GameLoop.AfterSet | game/uno_game.cpp:161-164 | with the drawn set corrected, the game ends exactly when the set had a winner whose score reached 500, and returns that winner and score |
| GameLoop.DrawnSetThrowsAsWritten | game/uno_game.cpp:162-164 | as written, a drawn set throws out_of_range; corrected, another set starts |
| GameLoop.AfterSetAgreesOnWonSets | game/uno_game.cpp:162-164 | after a set with a winner the corrected and the written loop agree |
| Engine.Opened | game/uno_game.cpp:361-379 | the first card sets the colour unless it is wild; a Wild lets the first player choose it; a Reverse turns the direction; each change is announced after FirstCardPlaced, exactly when it happens |
| Engine.Reverse | game/uno_game.cpp:526-528 | a Reverse always changes the direction |
| Engine.Played | game/uno_game.cpp:508-530 | a played card sets the colour unless it is wild, in which case the colour is chosen unless the hand emptied; the direction changes exactly for a Reverse that did not end the set; CardPlayed comes first and is the only call when the hand emptied |
| Engine.Penalty | game/uno_game.cpp:401-414 | only Draw2, Skip and WildDraw4 act on the next player, and only Skip makes them draw no card |
| Engine.LastPlayable | game/uno_game.cpp:300-318 | the last deck position that is not a WildDraw4; every card behind it is one |
| Engine.TurnOverStep | game/uno_game.cpp:305-318 | turning a WildDraw4 still leaves a non-WildDraw4 card in the deck |
| Engine.PlayableSurvives | game/uno_game.cpp:318 | removing a WildDraw4 keeps a card that can open the set |
| Engine.FirstCardAttempt | game/uno_game.cpp:301-313 | an attempt takes the top card of the deck by default, the named card otherwise, and -1 when std::find does not find it |
| Engine.TurnedOver | game/uno_game.cpp:300-318 | the loop either completes or raises domain_error |
| Engine.TurnedOverExtends | game/uno_game.cpp:305-315 | the loop only puts cards on top of the discard pile |
| Engine.TurnedOverKeepsCards | game/uno_game.cpp:305-315 | the loop moves cards from the deck to the discard pile and loses none |
| Engine.TurnedOverNamed | game/uno_game.cpp:309-315 | every attempt whose chooseFirstCard names a card turns over exactly that card |
| Engine.TurnedOverWildDraw4s | game/uno_game.cpp:300-318 | every card turned over before the last is a WildDraw4, and the loop completes exactly when the last card turned over is not one |
| Engine.TurnedOverThrows | game/uno_game.cpp:311-313 | when the loop raises domain_error, the card named at the failing attempt is not in the deck |
| Engine.TurnedOverByDefault | game/uno_game.cpp:303-307 | with the default choice the cards from the top of the deck down to the topmost non-WildDraw4 are turned over, the top one first, and the rest of the deck stays |
| Engine.TurnedOverFirstPlayable | game/uno_game.cpp:300-322 | with the default choice the topmost non-WildDraw4 of the deck ends on top of the discard pile, above the old pile and the WildDraw4s turned over, and these are what the flush returns to the deck |
| Engine.TurnOverFirstCard | game/uno_game.cpp:300-318 | the loop leaves exactly the deck, discard pile and outcome of TurnedOver, and keeps every card in one place |
| Engine.ShuffledSeatsFit | game/uno_game.cpp:105-111 | a shuffled list of seat numbers is a valid permutation for shufflePlayers_ |
| Engine.GivenFacts | game/uno_game.cpp:262-287 | the cards given number exactly the request, and by default they are the back of the deck, which loses them |
| Engine.ReceivedFacts | game/uno_game.cpp:285-286 | only the receiving player's hand changes, by appending the cards given; on an exception nothing changes |
| Engine.DrawnFacts | game/uno_game.cpp:262-287 | with the default chooseCards the player gets exactly the m cards asked for, from the top of the deck, and only its hand grows |
| Engine.FlushedFacts | game/uno_game.cpp:255-261 | the top of the discard pile survives a flush, and DeckShuffled is announced exactly when the deck was shuffled |
| Engine.DrewFromGiven | game/uno_game.cpp:245-268 | the default chooseCards after the flush of the discard pile is a draw of the last cards of the refilled deck |
| Engine.DrewNothing | game/uno_game.cpp:247-248 | drawing no card leaves the deck and the discard pile as they were |
| Engine.DrewFromDeck | game/uno_game.cpp:262-268 | a draw the deck covers takes the deck's last cards, the last one first, keeps the rest of the deck and leaves the discard pile alone |
| Engine.DrewKeepsCards | game/uno_game.cpp:255-268 | a draw loses no card and makes none: the cards drawn, the deck and the discard pile together are the cards of the deck and the discard pile before |
| Engine.CutKeepsCards | game/uno_game.cpp:264-268 | taking the back of the deck, turned over, keeps the deck's cards |
| Engine.FlushKeepsCards | game/uno_game.cpp:548-557 | moving all of the discard pile but its top card into the deck and shuffling keeps the cards of both |
| Engine.UnoGame.DrawOne | game/uno_game.cpp:437-454 | the player draws one card when the piles hold one besides the top card, none otherwise, leaving the deck and discard pile a draw leaves; PlayerDrewAnotherCard is announced after any DeckShuffled |
| Engine.Requested | game/uno_game.cpp:247-254 | a request of 0 gives nothing, a possible request is served in full, and any other is clamped to deck + discard - 1 |
| Engine.EnteredCalls | game/uno_game.cpp:136-137 | one PlayerEntered call per player |
| Engine.DealtCalls | game/uno_game.cpp:355-359 | one PlayerDealt call per player |
| Engine.UndealtIs | game/uno_game.cpp:355-358 | after q hands the full deck has 108 - 7q cards left |
| Engine.UndealtLeaves | game/uno_game.cpp:355-358 | with fewer than ten hands dealt more than seven cards are left |
| Engine.DealLeavesEnough | game/uno_game.cpp:355-362 | the deal of at most ten hands leaves more than four cards for placeFirstCard |
| Engine.InitialHand | game/uno_game.cpp:355-358 | the hand of seat q in the initial deal has seven cards |
| Engine.InitialHandCards | game/uno_game.cpp:264-268 | card i of seat q's initial hand is the (7q + i)-th card from the top of the deck, so each seat gets a distinct group of seven, topmost first |
| Engine.InitialHandsSize | game/uno_game.cpp:355-358 | after the deal every player holds seven cards and keeps its score |
| Engine.Dealt | game/uno_game.cpp:355-358 | the deal so far keeps one record per player |
| Engine.DealtStep | game/uno_game.cpp:355-358 | dealing seat q appends its initial hand to its empty hand and changes no other record |
| Engine.DealtNext | game/uno_game.cpp:355-358 | the top seven cards of what the deal has left are seat q's initial hand, and the rest stays a prefix of the full deck |
| Engine.DealtNone | game/uno_game.cpp:355 | before the deal every hand is empty |
| Engine.UnoGame.constructor | game/uno_game.cpp:19-40 | a new game has the full deck in creation order, no players, queue limit 50, the default limits and seed, and makes no call |
| Engine.UnoGame.TopCard | game/uno_game.cpp:47-51 | null exactly when the discard pile is empty, otherwise its last card |
| Engine.UnoGame.NumberOfCards | game/uno_game.cpp:53-62 | each player's hand size, in order |
| Engine.UnoGame.AddPlayer | game/uno_game.cpp:80-97 | overflow_error with ten players and nothing changes; otherwise the player gets the next seat number and an empty record |
| Engine.UnoGame.ShufflePlayers | game/uno_game.cpp:113-121 | out_of_range for a permutation that is too long or holds a value outside [0, n), changing nothing; otherwise players and records are reseated by the same swaps and the players renumbered (the corrected reseating) |
| Engine.UnoGame.ShufflePlayersRandomly | game/uno_game.cpp:105-111 | players and records are reseated by a shuffled permutation, which always fits, the players are renumbered (the corrected reseating), and the random engine advances |
| Engine.SwapSeats | game/uno_game.cpp:185-192 | the loop exchanges seat i with seat perm[i] for each i in order, the player records with them, as ApplySwaps says |
| Engine.UnoGame.Reseat | game/uno_game.cpp:183-193 | the swaps (i, perm[i]) reseat players and their records together and keep every card held; as corrected (see Findings), each player is then told its new seat number |
| Engine.UnoGame.SetMessageQueueSizeLimit | game/uno_game.cpp:123-126 | the queue takes the new limit |
| Engine.UnoGame.SetRandomGeneratorSeed | game/uno_game.cpp:128-131 | reseeding restarts the random sequence from the seed |
| Engine.UnoGame.SetLimits | game/uno_game.h:244-249 | the turn and set limits take the given values |
| Engine.UnoGame.ClearHands | game/uno_game.cpp:236-243 | every hand is appended to the deck in player order and emptied; scores are kept |
| Engine.UnoGame.MoveToDeck | game/uno_game.cpp:218-223 | hands and then the discard pile go back to the deck, which then holds all 108 cards |
| Engine.UnoGame.ShuffleDeck | game/uno_game.cpp:225-228 | the deck is shuffled with the next draws of the random engine |
| Engine.UnoGame.FlushDiscardPile | game/uno_game.cpp:548-557 | nothing changes with fewer than two discards; otherwise only the top card stays and the others are shuffled into the deck |
| Engine.UnoGame.CountHandScore | game/uno_game.cpp:608-614 | the loop sums the scores of the player's hand |
| Engine.UnoGame.TakeFromTop | game/uno_game.cpp:264-269 | the default draw gives the player the last m deck cards |
| Engine.UnoGame.TakeChosen | game/uno_game.cpp:271-287 | an override of the wrong size throws length_error, foreign or repeated cards throw domain_error, otherwise exactly the chosen cards move to the hand |
| Engine.UnoGame.GetCardsFromDeck | game/uno_game.cpp:245-288 | the request is clamped; the discard pile is flushed and DeckShuffled announced exactly when the deck is too short; the hand grows by the cards given and every card stays in one place |
| Engine.UnoGame.Refill | game/uno_game.cpp:255-261 | the deck is refilled from the discard pile exactly when it is too short, and the refill is announced |
| Engine.UnoGame.HandOut | game/uno_game.cpp:255-287 | refill, then the default or chosen cards go to the player |
| Engine.UnoGame.DealCards | game/uno_game.cpp:290-296 | the result is true exactly when the full request could be served |
| Engine.UnoGame.PlaceFirstCard | game/uno_game.cpp:298-323 | the outcome is that of TurnedOver: on domain_error the deck and pile are as the loop left them; on completion with one card turned over that card is the pile; with more, only the top card stays and the rest is shuffled into the deck |
| Engine.UnoGame.DealInitialCards | game/uno_game.cpp:357 | the player receives the last seven deck cards |
| Engine.UnoGame.DealHands | game/uno_game.cpp:354-359 | seat q receives its InitialHand of the deck, scores are kept, the deck keeps all but the top 7n cards, and one PlayerDealt is announced per player |
| Engine.UnoGame.DealNextHand | game/uno_game.cpp:355-359 | one step of the deal: seat q gets the next seven cards and its PlayerDealt is announced |
| Engine.UnoGame.PrepareSet | game/uno_game.cpp:331-346 | the set counters are reset, the set number advances, all cards return to the deck, and SetStarted then DeckShuffled are announced |
| Engine.UnoGame.GatherAndShuffle | game/uno_game.cpp:340-345 | every card returns to the deck and every hand is emptied |
| Engine.UnoGame.PlaceFirstCardByDefault | game/uno_game.cpp:298-323 | the set opens with the topmost non-WildDraw4 of the deck; the deck keeps the cards below it and, when WildDraw4s were turned over or the pile held cards, gets them back shuffled |
| Engine.UnoGame.OpenSet | game/uno_game.cpp:361-379 | colour, direction and calls after the first card are those of Opened |
| Engine.UnoGame.AnnounceFirstCard | game/uno_game.cpp:363-379 | the first card's colour, direction and calls are those of Opened |
| Engine.UnoGame.DealAndOpen | game/uno_game.cpp:354-379 | seven cards each, then the first card with its effect |
| Engine.UnoGame.StartSet | game/uno_game.cpp:327-384 | a set starts with every player in seat order, seven cards each, a first card that is not a WildDraw4, and the calls SetStarted, DeckShuffled, PlayerDealt per player, then those of the first card |
| Engine.UnoGame.DrawCards | game/uno_game.cpp:245-296 | the player gets the clamped number of cards, the last cards of the deck (refilled from the discard pile when too short) with the last one first, the deck keeps the rest, the discard pile is cut to its top card exactly when the deck was refilled, and only that player's hand grows |
| Engine.UnoGame.DealDefault | game/uno_game.cpp:245-296 | dealCards with the default chooseCards gives the clamped number of cards as getCardsFromDeck does (by default the back of the refilled deck), cuts the discard pile to its top card exactly when the deck was refilled, and grows only that player's hand |
| Engine.UnoGame.DrawInSet | game/uno_game.cpp:419-420 | a draw by the active player keeps the set state and the top card, takes the cards DrawCards takes (the last cards of the refilled deck, last one first) leaving the deck and discard pile DrawCards leaves, and its hand grows by exactly those cards |
| Engine.UnoGame.DrawAndSkip | game/uno_game.cpp:417-427 | the player draws the clamped penalty from the back of the refilled deck, last card first, and the deck and discard pile are left as a draw leaves them; a penalty of 0 draws nothing and leaves both piles; DrewAndSkip is announced and the turn passes on |
| Engine.UnoGame.Ask | game/uno_game.cpp:429-454 | a player who can play is asked for a card and nothing is drawn; otherwise they draw one card if any is left, the last card of the refilled deck, leaving the deck and discard pile a draw leaves, may play it, and PlayerDrewAnotherCard is announced |
| Engine.UnoGame.DrawAnother | game/uno_game.cpp:437-454 | with a card left the player draws exactly one, the last card of the refilled deck, and decides whether to play it; otherwise nothing is drawn, both piles stay and they skip; the deck and discard pile are left as a draw leaves them |
| Engine.UnoGame.Disqualify | game/uno_game.cpp:482-499 | the player's hand score joins the set score, they leave the rotation, the next player is computed before removal, and PlayerDisqualified is announced |
| Engine.UnoGame.Discard | game/uno_game.cpp:501-506 | the hand's own card moves to the top of the discard pile |
| Engine.UnoGame.LayCard | game/uno_game.cpp:501-513 | the card is laid and the set is over exactly when the hand is now empty |
| Engine.UnoGame.FollowCard | game/uno_game.cpp:508-533 | colour, direction and calls are those of Played; the turn passes on unless the hand emptied |
| Engine.UnoGame.PassTurn | game/uno_game.cpp:455-459 | the turn passes to the next player in the current direction |
| Engine.UnoGame.Judge | game/uno_game.cpp:462-534 | a claim failing shouldDisqualify removes the player, adds its hand score and passes the turn to the player next to it; any other claim lays the first matching card with the effect of Played; scores are kept |
| Engine.UnoGame.PlayClaimed | game/uno_game.cpp:500-534 | an accepted claim lays the first hand card with the claimed face, which takes effect as Played says |
| Engine.UnoGame.LayClaimed | game/uno_game.cpp:500-506 | an accepted claim names a card of the hand; the first card with that face leaves the hand for the top of the discard pile, and the set is over exactly when the hand is now empty |
| Engine.UnoGame.SkipOrJudge | game/uno_game.cpp:455-534 | a player who skips only passes the turn: hands, discard pile, colour, direction, set score and calls stay, and the next turn applies no action; otherwise the claim is judged as Judge says |
| Engine.UnoGame.Move | game/uno_game.cpp:428-534 | asking and judging keep the invariant and the scores; the player keeps its place or is removed from the rotation, after a removal the next turn applies no action, and the set ends only with one player left or an empty hand |
| Engine.UnoGame.PlayTurn | game/uno_game.cpp:396-534 | when the action applies and the top card is a Draw2, Skip or WildDraw4, the active player draws 2, 0 or 4 cards (clamped as dealCards does) from the back of the refilled deck, leaving the deck and discard pile a draw leaves, DrewAndSkip is announced, the turn passes, colour, direction, set score and rotation stay and the next turn applies no action; otherwise the player moves as Move says; one turn keeps the invariant and the scores, and the set ends only with one player left or an empty hand |
| Engine.UnoGame.PlayTurns | game/uno_game.cpp:386-535 | the turn loop ends with TurnsLimitReached at the limit, or with one player left or an empty hand; scores are unchanged |
| Engine.UnoGame.SumOthers | game/uno_game.cpp:537-541 | the final loop sums the hand scores of the rotation minus the winner |
| Engine.UnoGame.SetScore | game/uno_game.cpp:536-541 | the set score is the hand score of every player but the winner, disqualified players included |
| Engine.UnoGame.AddScore | game/uno_game.cpp:542 | only the player's cumulative score grows, by the amount given |
| Engine.UnoGame.AwardSet | game/uno_game.cpp:542-545 | the winner's score grows by the set score, no other player's score changes, and PlayerWonSet is announced |
| Engine.UnoGame.EndSet | game/uno_game.cpp:536-545 | the active player wins the hand score of every other player, only their score changes, and their hand stays as it was |
| Engine.UnoGame.PlayTurnsOfSet | game/uno_game.cpp:325-535 | the set number advances and no score changes before the set ends; a set that is over has one player left or an active player with an empty hand |
| Engine.UnoGame.PlaySet | game/uno_game.cpp:325-546 | a set returns (-1, 0) with scores unchanged after TurnsLimitReached, or the winner and the hand score of all others, added to the winner's total only; the winner emptied its hand or is the last player left in the set |
| Engine.UnoGame.RunSet | game/uno_game.cpp:325-546 | underflow_error exactly with fewer than two players, changing nothing; otherwise the set ends as PlaySet says |
| Engine.UnoGame.ResetScores | game/uno_game.cpp:135 | every cumulative score becomes 0 and the hands are kept |
| Engine.UnoGame.AnnouncePlayers | game/uno_game.cpp:136-137 | one PlayerEntered per player, in seat order |
| Engine.UnoGame.InitPlayerInfo | game/uno_game.cpp:133-140 | all scores 0, all cards in the deck, set number 0, and each player announced |
| Engine.UnoGame.EndAtSetsLimit | game/uno_game.cpp:155-160 | at the set limit the game returns findWinner and announces SetsLimitReached |
| Engine.UnoGame.EndWithWinner | game/uno_game.cpp:166-170 | a player with at least 500 points wins the game, which announces PlayerWonGame |
| Engine.UnoGame.ConcludeSet | game/uno_game.cpp:162-170 | after a set, another set follows exactly when AfterSet says so, and otherwise the set's winner, with a total of at least 500 points, wins the game, announced last |
| Engine.UnoGame.PlayOneSet | game/uno_game.cpp:161-170 | one set either throws underflow_error, or is won by `won` (-1 at the turn limit), who alone gains the other hands' score; another set follows exactly when AfterSet says so, and otherwise the set's winner, with a total of at least 500 points, wins the game, announced last |
| Engine.UnoGame.PlaySets | game/uno_game.cpp:151-164 | the sets loop throws underflow_error exactly with fewer than two players, and otherwise ends at the set limit with findWinner or with a winner of at least 500 points |
| Engine.UnoGame.RunGame | game/uno_game.cpp:147-171 | runGame resets scores and piles, then plays sets until one ends the game as PlaySets says |

## Left out

- Player strategies, the logger, statistics and the program's entry point are not part of this model. The players' answers are the `Decisions` oracle of a set.
- The state of `std::minstd_rand` is modelled as an arbitrary function of the seed, the number of shuffles since seeding and the draw number; the generator's arithmetic is not modelled.
- Engine.UnoGame.RunSet: requires a positive turn limit. A limit of 0 means "unlimited" in the source, and a set without a limit cannot be proved to end.
- Engine.UnoGame.PlaySets: requires positive turn and set limits, for the same reason; RunGame likewise.
- Engine.UnoGame.RunGame: requires positive turn and set limits; it also does not state that the PlayerEntered calls stay a prefix of the log, because the turn methods do not state their calls as an extension of the log.
- Engine.UnoGame.RunSet: uses the default `chooseCards` and `chooseFirstCard` (empty / null); the override checks are modelled by GetCardsFromDeck, TakeChosen and PlaceFirstCard, which take the override's answer as a parameter.
- Engine.UnoGame.PlaceFirstCard: requires more than four cards in the deck, and that one of them is not a WildDraw4 (HasPlayable), so that the loop ends; both always hold in a set, where at most 70 of the 108 cards are dealt.
- Engine.UnoGame.GetCardsFromDeck: requires at least one card in the deck and discard pile, since the source computes deck + discard - 1 in unsigned arithmetic. The clamping recursion is written as a single clamp (Requested).
- Engine.UnoGame.DrawCards: requires a positive number of cards; a penalty of 0 is handled by DrawAndSkip, which does not draw.
- Engine.UnoGame.Reseat: follows the corrected behaviour of Findings: the players are renumbered after the swaps, which `shufflePlayers_` does not do; Seating.ShuffleAsWrittenBreaksNumbering models the code as written.
- Engine.UnoGame.ShufflePlayers: reseats through Reseat, so it renumbers the players as corrected in Findings rather than as written.
- Engine.UnoGame.ShufflePlayersRandomly: reseats through Reseat, so it renumbers the players as corrected in Findings rather than as written.
- Engine.UnoGame.PlayOneSet: follows the corrected behaviour of Findings: a drawn set (winner -1) starts another set instead of throwing out_of_range from `playerInfo.at(-1)`; GameLoop.DrawnSetThrowsAsWritten models the code as written.
- Engine.UnoGame.PlaySets: plays sets through PlayOneSet, so a drawn set starts another set as corrected in Findings, and only fewer than two players raise an exception.
- Engine.UnoGame.RunGame: plays sets through PlaySets, so a drawn set starts another set as corrected in Findings instead of throwing out_of_range.
- Engine.UnoGame.Move: states the invariant, the scores, the rotation and the end of the set; the decision and the branch it takes are stated by Ask (what the player claims, draws or skips) and SkipOrJudge (a skip passes the turn, a claim is judged as Judge says).
- Engine.UnoGame.PlayTurn: states the action-card case in full (cards drawn, deck, discard pile, hands, colour, direction, set score, next player and calls) and, for the player's move, only what Move states (invariant, scores, rotation, end of the set); the deck, discard pile, colour, direction and calls after a move are stated by Ask, SkipOrJudge, Disqualify and FollowCard rather than by PlayTurn.
- Engine.UnoGame.AddPlayer: a null player (ignored by the source) cannot be passed; `receiveCards`, `addToGame` and the player callbacks are not modelled beyond the seat number each player is told.
- `addObserver` and the listener list of the engine are modelled by Broadcasting.EventBroadcaster.AddListener; the engine itself keeps only the log of its calls, not a broadcaster object.
- Broadcasting.EventBroadcaster.FlushMessages: requires that the listeners eventually stop talking (Drainable); with an unbounded queue and talking listeners the source may never return. The null-queue check is not modelled.
- Broadcasting.Replay: the listeners' messages are an oracle indexed by trace position rather than the listeners' own code.
- The getters `cardsLeft`, `currentColor`, `currentDirection`, `numberOfPlayers`, `activePlayerIndex` and `hasOverflow` read fields of the model classes directly.
- `deckIsConsistent` is subsumed by the card invariant (GameState.ConservedFacts states that the deck has no repeated identity).
- Raw pointer lifetime (`new` in `prepareDeck`, `delete` in `clearDeck`) is replaced by card identities.
- Integer widths: scores, counters and limits are unbounded integers; the unsigned turn and set limits are naturals.

## Findings

| source | as written | input that shows it | evidently intended | confidence | as-written member | corrected member |
|---|---|---|---|---|---|---|
| game/uno_game.cpp:183-193 | `shufflePlayers_` swaps the players but never updates each player's stored index | two players, permutation [1]: the player in seat 0 still believes it is player 1 | each player's index is its new seat number | not executed | Seating.ShuffleAsWrittenBreaksNumbering | Seating.ShuffleCorrectedSpec |
| game/uno_game.cpp:162-164 | `continue` in the do-while jumps to the loop condition, which reads `playerInfo.at(-1)` after a drawn set | a set that ends at the turn limit returns winner -1, and `at(-1)` throws out_of_range | a drawn set starts another set | not executed | GameLoop.DrawnSetThrowsAsWritten | GameLoop.AfterSet |
