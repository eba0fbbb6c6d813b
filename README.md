# CheckGame rules engine in Dafny

CheckGame is a multiplayer card game in the Crazy Eights family, played with
a 54-card deck: 52 ordinary cards and two jokers. Its rules engine has four
parts, and this project models all of them:

- **Card**: an immutable value with a suit, an optional rank and a colour.
  Sevens and jokers are wild and carry a draw penalty. Twos are
  transparent, Aces skip a player and Jacks change the suit.
- **Deck**: an ordered pile whose front is the top, with draw, draw-N,
  add, Fisher–Yates shuffle and clone.
- **Player**: a hand of cards, plus the legality rule `CanPlayCardOn`.
- **GameState**: the game itself. It holds the rotation of active
  players, the draw and discard piles, and attack chains, in which wild
  cards pile up a penalty that the next player must answer with a wild card
  or draw. It also holds the turn lock after a Jack, the recycling of the
  discard pile, and the moves `PlayCard`, `DrawCard` and `ChangeSuit`.

The project also models the lobby, `GameSession`. A lobby is a named session
with a capacity and a roster of player names. Its status only moves forward:
waiting for players, then in progress, then completed.

Cards are a datatype (`Cards`). The deck, player, game state and session are
classes whose list fields are `seq` fields that the methods reassign
(`Decks`, `Players`, `Games`, `Sessions`). `Lists` holds the parts of
.NET's `List<T>` the engine relies on: `IndexOf`, and `Remove` of the first
occurrence.

Randomness is a parameter. A shuffle takes an oracle `rng` that picks any
`j` with `0 <= j <= i` at step `i`, as `Random.Next(i + 1)` does, so every
property of a shuffle holds for every outcome of the generator.

The main results are these:

- The standard deck holds each well-formed card exactly once, in suit-major
  order. A shuffle is a permutation.
- The rule of play is an if-and-only-if in each mode.
- The first error of every move is the one the source checks first. A
  rejected play or suit change changes nothing; a `DrawCard` whose reshuffle
  fails keeps the cards already drawn.
- Every move conserves the multiset of all cards in the game: draw pile,
  discard pile and every hand.
- `New` deals exactly the cards it takes off the shuffled deck, and leaves
  the 54 cards of the standard deck in play.
- The turn moves to the next or previous seat of the rotation, and a
  clockwise step and a counter-clockwise step undo each other.
- The lobby roster keeps no name twice and stays within its seats.
  Adding a name and removing it again gives back the roster, and the
  status never moves back.

## Model

| member | source | states |
|---|---|---|
| Lists.IndexOf | project/server/CheckGame.Engine/Models/GameState.cs:276 | `List.IndexOf` is -1 exactly when the element is absent; otherwise it is the position of the first occurrence. |
| Lists.RemoveFirst | project/server/CheckGame.Engine/Models/GameState.cs:354-357 | `List.Remove` takes away exactly one copy of the element when there is one (the multiset loses it and the length drops by one) and otherwise leaves the list as it is. |
| Lists.RemoveFirstShifts | project/server/CheckGame.Engine/Models/GameState.cs:354-357 | Elements before the removed one keep their places, and those after it move down by one. |
| Lists.RemoveFirstOfDistinct | project/server/CheckGame.Engine/Models/GameState.cs:354-357 | In a list without duplicates, removing the first occurrence removes every occurrence and keeps the list free of duplicates. |
| Cards.RankValue | project/server/CheckGame.Engine/Models/Card.cs:20-35 | The rank enum's values run from Ace = 1 to King = 13 in declaration order. |
| Cards.NewCard | project/server/CheckGame.Engine/Models/Card.cs:78-94 | A joker suit is an argument error. Any other suit gives a card with that suit and rank, red for Hearts and Diamonds and black for Spades and Clubs. |
| Cards.NewRedJoker | project/server/CheckGame.Engine/Models/Card.cs:100-108 | A red joker without rank. |
| Cards.NewBlackJoker | project/server/CheckGame.Engine/Models/Card.cs:114-122 | A black joker without rank. |
| Cards.FactoriesBuildWellFormed | project/server/CheckGame.Engine/Models/Card.cs:78-122 | The three factories build exactly the well-formed cards: a joker has no rank, and an ordinary card has a rank and the colour of its suit. |
| Cards.DrawPenalty | project/server/CheckGame.Engine/Models/Card.cs:158-166 | The penalty is 0, 2 or 4, and it is positive exactly for wild cards. |
| Cards.SpecialClassesDisjoint | project/server/CheckGame.Engine/Models/Card.cs:128-166 | On a well-formed card, wild never overlaps suit changer, transparent or skip. A joker's penalty is 4 and a Seven's is 2. |
| Cards.Equals | project/server/CheckGame.Engine/Models/Card.cs:186-192 | Field-by-field equality is value equality. |
| Cards.DisplayRoundTrip | project/server/CheckGame.Engine/Models/Card.cs:172-179 | `ToString` loses nothing on a well-formed card: parsing "{Color} Joker" or "{Rank} of {Suit}" back gives the card. |
| Cards.JokerDisplayRoundTrip | project/server/CheckGame.Engine/Models/Card.cs:174-177 | "{Color} Joker" reads back as the same joker. |
| Cards.OrdinaryDisplayRoundTrip | project/server/CheckGame.Engine/Models/Card.cs:178 | "{Rank} of {Suit}" reads back as the same ordinary card. |
| Decks.StandardCardAt | project/server/CheckGame.Engine/Models/Deck.cs:30-51 | Every position of the standard deck holds a well-formed card. |
| Decks.StandardDeck | project/server/CheckGame.Engine/Models/Deck.cs:30-51 | The standard deck has 54 cards. |
| Decks.StandardDeckContents | project/server/CheckGame.Engine/Models/Deck.cs:30-51 | Every well-formed card occurs exactly once in the standard deck, and nothing else occurs in it. |
| Decks.StandardDeckOrder | project/server/CheckGame.Engine/Models/Deck.cs:35-48 | The suits come in the order Spades, Hearts, Diamonds, Clubs, each in ascending rank, then the red joker and the black joker. |
| Decks.PositionOfStandardCard | project/server/CheckGame.Engine/Models/Deck.cs:38-48 | A card's position in the standard deck is determined by its suit and rank, so no card occurs twice. |
| Decks.SwapPermutes | project/server/CheckGame.Engine/Models/Deck.cs:65 | One swap of the shuffle keeps the multiset. |
| Decks.ShuffleFromPermutes | project/server/CheckGame.Engine/Models/Deck.cs:62-66 | The remaining passes of the shuffle keep the multiset, for any generator. |
| Decks.ShuffledPermutes | project/server/CheckGame.Engine/Models/Deck.cs:57-67 | A shuffle is a permutation for any generator, and it leaves a deck of zero or one card unchanged. |
| Decks.Shuffled | project/server/CheckGame.Engine/Models/Deck.cs:57-67 | A shuffle keeps the number of cards. |
| Decks.Deck.constructor | project/server/CheckGame.Engine/Models/Deck.cs:21-24 | A deck holds the given cards in the given order. |
| Decks.Deck.NewStandardDeck | project/server/CheckGame.Engine/Models/Deck.cs:30-51 | The nested loops build exactly the standard deck. |
| Decks.Deck.Shuffle | project/server/CheckGame.Engine/Models/Deck.cs:57-67 | The in-place loop leaves the order the Fisher–Yates specification gives, which is a permutation of the old cards. |
| Decks.Deck.Draw | project/server/CheckGame.Engine/Models/Deck.cs:73-83 | An empty deck gives nothing and stays unchanged. Otherwise the top card is returned and the rest stays in order. |
| Decks.Deck.DrawN | project/server/CheckGame.Engine/Models/Deck.cs:90-105 | A negative count is an argument error. A count beyond the size gives ([], false) and leaves the deck unchanged. Otherwise the top `count` cards are returned and the rest stays. In every case, the drawn cards followed by the remaining deck are the old deck. |
| Decks.Deck.AddToBottom | project/server/CheckGame.Engine/Models/Deck.cs:111-115 | Appends the card below the existing cards. |
| Decks.Deck.AddToTop | project/server/CheckGame.Engine/Models/Deck.cs:121-125 | Puts the card on top of the existing cards. |
| Decks.Deck.AddManyToBottom | project/server/CheckGame.Engine/Models/Deck.cs:131-135 | Appends the given cards in their order. |
| Decks.Deck.Count | project/server/CheckGame.Engine/Models/Deck.cs:141 | The number of cards. |
| Decks.Deck.IsEmpty | project/server/CheckGame.Engine/Models/Deck.cs:147 | Empty exactly when `Count` is 0. |
| Decks.Deck.Clone | project/server/CheckGame.Engine/Models/Deck.cs:153-156 | A new deck object with the same cards in the same order. |
| Decks.Deck.Clear | project/server/CheckGame.Engine/Models/Deck.cs:161-164 | Leaves the deck empty. |
| Decks.CloneIsIndependent | project/server/CheckGame.Engine/Models/Deck.cs:153-156 | Drawing from a deck does not change its clone, and the clone still yields the card the original gave. |
| Players.AttackChainRule | project/server/CheckGame.Engine/Models/Player.cs:163-170 | Inside an attack chain a card may be played exactly when both it and the top card are wild. |
| Players.OutsideChainRule | project/server/CheckGame.Engine/Models/Player.cs:172-196 | Outside a chain a play is legal if and only if the card is a Two or a Jack, or it is wild on wild, or the suits match, or the ranks match, or it is a joker of the top card's colour. Whatever is legal in a chain is legal outside one. |
| Players.Playable | project/server/CheckGame.Engine/Models/Player.cs:133-148 | The playable cards are never more than the hand. |
| Players.PlayableCounts | project/server/CheckGame.Engine/Models/Player.cs:133-148 | The playable cards are the legal cards of the hand, each as often as the hand holds it, and nothing else. |
| Players.MatchesAgreesWithRule | project/server/CheckGame.Engine/Models/Player.cs:93-125 | A card that `HasMatchingCard` accepts (wild cards included) is legal outside a chain. The two rules differ only on the Jack. |
| Players.MatchingImpliesPlayable | project/server/CheckGame.Engine/Models/Player.cs:93-148 | When `HasMatchingCard` answers yes outside a chain, `GetPlayableCards` offers at least one card. |
| Players.Player.constructor | project/server/CheckGame.Engine/Models/Player.cs:12-31 | A new player has the given id and an empty hand. |
| Players.Player.AddToHand | project/server/CheckGame.Engine/Models/Player.cs:37-41 | Appends one card to the hand. |
| Players.Player.AddCardsToHand | project/server/CheckGame.Engine/Models/Player.cs:47-51 | Appends the cards in their order. |
| Players.Player.HasCard | project/server/CheckGame.Engine/Models/Player.cs:80-84 | The search with `Equals` succeeds exactly when the card is in the hand. |
| Players.Player.RemoveFromHand | project/server/CheckGame.Engine/Models/Player.cs:58-73 | Succeeds exactly when `HasCard` held. It removes the first equal card and exactly one copy, and on failure the hand is unchanged. |
| Players.Player.HasMatchingCard | project/server/CheckGame.Engine/Models/Player.cs:93-125 | The early-exit loop answers yes exactly when some hand card matches. A hand with a Two always matches, and an empty hand never does. |
| Players.Player.GetPlayableCards | project/server/CheckGame.Engine/Models/Player.cs:133-148 | The loop's result is the hand filtered through `CanPlayCardOn`, in hand order. |
| Players.Player.HandSize | project/server/CheckGame.Engine/Models/Player.cs:203 | The number of cards in the hand. |
| Players.Player.HasEmptyHand | project/server/CheckGame.Engine/Models/Player.cs:209 | Empty exactly when `HandSize` is 0. |
| Players.Player.Clone | project/server/CheckGame.Engine/Models/Player.cs:215-220 | A new player object with the same id and an equal hand. |
| Players.Player.ClearHand | project/server/CheckGame.Engine/Models/Player.cs:225-228 | Leaves the hand empty. |
| Games.NextIndex | project/server/CheckGame.Engine/Models/GameState.cs:265-282 | The next index is within the rotation. It is 0 with at most one active player or when the current player is not in the rotation. |
| Games.Advance | project/server/CheckGame.Engine/Models/GameState.cs:304-312 | With at most one active player the turn stays. Otherwise it goes to a member of the rotation. |
| Games.Skip | project/server/CheckGame.Engine/Models/GameState.cs:317-328 | With at most two active players nothing moves. Otherwise the turn goes to a member of the rotation. |
| Games.AdvanceSteps | project/server/CheckGame.Engine/Models/GameState.cs:265-282 | In a rotation without repeated ids, clockwise goes to the next seat and counter-clockwise to the previous one, cyclically, and the two steps undo each other. |
| Games.AdvanceFromOutside | project/server/CheckGame.Engine/Models/GameState.cs:276-279 | A current player who has left the rotation passes the turn to its first player. |
| Games.PlayErrorSummary | project/server/CheckGame.Engine/Models/GameState.cs:365-402 | A play is accepted exactly when it is the player's unlocked turn, the player exists and holds the card, and the rule allows it. The "Must play a wild card" error can never be returned. |
| Games.CardEffectOfPlay | project/server/CheckGame.Engine/Models/GameState.cs:528-553 | After an accepted play, a wild card passes the turn exactly once. A Jack keeps the turn and locks it. An Ace skips, which with two players leaves the turn in place. Every other card passes the turn. |
| Games.DrawCount | project/server/CheckGame.Engine/Models/GameState.cs:479-511 | `DrawCard` hands over one card, or the whole penalty inside a chain. |
| Games.ChangeSuitErrorSummary | project/server/CheckGame.Engine/Models/GameState.cs:606-637 | The suit can be changed exactly by the current player, on a locked turn, to an ordinary suit, with a Jack on top. |
| Games.WinnersAreEmptyHanded | project/server/CheckGame.Engine/Models/GameState.cs:659-665 | An id is among the winners exactly when a player with that id has an empty hand. There are never more winners than players. |
| Games.HandsBagOneChange | project/server/CheckGame.Engine/Models/GameState.cs:405-412 | When only one hand changes, the cards of all hands change by exactly that hand's difference. |
| Games.TimesIsProduct | project/server/CheckGame.Engine/Models/GameState.cs:170-180 | The deal's count of cards by repeated addition equals players times rounds. |
| Games.DealTo | project/server/CheckGame.Engine/Models/GameState.cs:174-178 | One draw into one hand: the top card moves to the hand, or nothing happens on an empty pile. |
| Games.DealRound | project/server/CheckGame.Engine/Models/GameState.cs:172-179 | One round gives the next card of the pile to each player in seat order, until the pile runs out. |
| Games.HandsBagAfterRound | project/server/CheckGame.Engine/Models/GameState.cs:172-179 | A round adds exactly the dealt cards to the hands. |
| Games.DealRoundCounted | project/server/CheckGame.Engine/Models/GameState.cs:172-179 | A round takes one card per player off the top of the pile, or empties it. When the pile lasts the whole round, hand `q` gains the `q`-th card from the top. The cards only move. |
| Games.DealNextRound | project/server/CheckGame.Engine/Models/GameState.cs:172-179 | A round that follows `i` rounds dealt from the same pile leaves the state of `i + 1` rounds: the pile without the cards dealt, and every hand holding its `Dealt` cards. The cards only move. |
| Games.RoundConserves | project/server/CheckGame.Engine/Models/GameState.cs:172-179 | The pile and the hands together hold the same cards after a round. |
| Games.DealRounds | project/server/CheckGame.Engine/Models/GameState.cs:170-180 | `rounds` rounds take the top `players × rounds` cards off the pile when it has them, and then hand `q` holds, as its `r`-th card, the card the pile held at `Times(n, r) + q`. On a shorter pile the whole pile is dealt. The cards only move. |
| Games.Dealt | project/server/CheckGame.Engine/Models/GameState.cs:172-179 | The hand of player `q` of `n` after `rounds` full rounds has `rounds` cards. Its `r`-th card is the pile card at position `Times(n, r) + q`, one from each round, in round order. |
| Games.DealtRoundRobin | project/server/CheckGame.Engine/Models/GameState.cs:170-180 | The deal is round-robin: card `r` of hand `q` is pile card `n × r + q`. |
| Games.DealtHandsNext | project/server/CheckGame.Engine/Models/GameState.cs:172-179 | A full round on top of `i` full rounds appends the next `n` cards of the pile, one to each hand in seat order, and gives the hands of `i + 1` rounds. |
| Games.HandsDealtSizes | project/server/CheckGame.Engine/Models/GameState.cs:170-180 | After `rounds` full rounds every hand holds `rounds` cards. |
| Games.Rounds | project/server/CheckGame.Engine/Models/GameState.cs:170 | A non-negative `InitialCards` is the number of rounds. A negative one gives a natural number too, so the deal never runs backwards. |
| Games.Deal | project/server/CheckGame.Engine/Models/GameState.cs:170-180 | When the pile holds `players × rounds` cards, the deal leaves it without its top `players × rounds` cards, and every hand holds its round-robin share (`Dealt`). Otherwise the pile ends empty. The pile and hands hold exactly the cards the pile held. |
| Games.NewPlayers | project/server/CheckGame.Engine/Models/GameState.cs:163-167 | One new player per id, in order, each with an empty hand. |
| Games.StarterOrder | project/server/CheckGame.Engine/Models/GameState.cs:190-202 | A pile whose top is not wild is left as it is. |
| Games.StarterOrderPermutes | project/server/CheckGame.Engine/Models/GameState.cs:190-202 | Putting a wild top card under the pile and shuffling is a permutation. |
| Games.TurnUpStarter | project/server/CheckGame.Engine/Models/GameState.cs:183-202 | There is no first discard exactly when the pile is empty. Otherwise the first discard and the rest of the pile follow `StarterOrder`, and no card is lost. |
| Games.ShuffledDeck | project/server/CheckGame.Engine/Models/GameState.cs:158-160 | The draw pile starts as the shuffled standard deck. |
| Games.SetUpTable | project/server/CheckGame.Engine/Models/GameState.cs:158-202 | A first discard exists exactly when the deal leaves cards. Each hand then holds its round-robin share of the shuffled standard deck and `InitialCards` cards. The first discard and the pile follow `StarterOrder`, and together with the hands they hold the standard deck. |
| Games.DealAndTurnUp | project/server/CheckGame.Engine/Models/GameState.cs:170-202 | A first discard exists exactly when the deal leaves cards. The hands keep their round-robin share of the pile, and dealing and then turning up the first discard keeps every card of the pile. |
| Games.ClonePlayers | project/server/CheckGame.Engine/Models/GameState.cs:226 | New, distinct player objects with the same ids and hands, so with the same cards. |
| Games.HandsBagOfSameHands | project/server/CheckGame.Engine/Models/GameState.cs:226 | Rosters with equal hands hold the same cards. |
| Games.GameState.New | project/server/CheckGame.Engine/Models/GameState.cs:142-217 | Fewer than two players is an error, and so is a deal that leaves no first discard. Otherwise: the roster in the given order, and each hand holds `InitialCards` cards, exactly its round-robin share of the shuffled deck (so the same generator gives the same hands). The first player moves first, the game turns clockwise, and there is no chain and no lock. The first discard is on top and sets the suit. All 54 cards of the standard deck are in play, and the invariants hold. |
| Games.GameState.Clone | project/server/CheckGame.Engine/Models/GameState.cs:223-250 | A deep copy: new player and deck objects with the same ids and cards, and every other field equal. It holds the same cards and is consistent if the original is. |
| Games.GameState.PlayerIndex | project/server/CheckGame.Engine/Models/GameState.cs:335-338 | The first roster position holding the id, or -1 exactly when no player has it. |
| Games.GameState.FindPlayerById | project/server/CheckGame.Engine/Models/GameState.cs:335-338 | Nothing exactly when no player has the id. Otherwise a roster member with that id. |
| Games.GameState.CurrentPlayer | project/server/CheckGame.Engine/Models/GameState.cs:256-259 | The roster member whose turn it is, or nothing exactly when the roster does not hold the current id. |
| Games.GameState.NextPlayer | project/server/CheckGame.Engine/Models/GameState.cs:288-299 | Nothing with at most one active player. Otherwise the player `AdvanceTurn` would hand the turn to, whenever the roster holds them. |
| Games.GameState.constructor | project/server/CheckGame.Engine/Models/GameState.cs:109-133 | Takes the parts as given. A missing last suit defaults to the top card's suit. |
| Games.GameState.NextPlayerIndex | project/server/CheckGame.Engine/Models/GameState.cs:265-282 | Always a position of the rotation when it is not empty. |
| Games.GameState.AdvanceTurn | project/server/CheckGame.Engine/Models/GameState.cs:304-312 | Moves the turn as `Advance` says and changes nothing else. |
| Games.GameState.SkipNextPlayer | project/server/CheckGame.Engine/Models/GameState.cs:317-328 | Moves the turn as `Skip` says and changes nothing else. |
| Games.GameState.ProcessCardEffect | project/server/CheckGame.Engine/Models/GameState.cs:528-553 | Sets the turn and the lock as `CardEffect` says. |
| Games.GameState.LockTurn | project/server/CheckGame.Engine/Models/GameState.cs:558-561 | Locks the turn. |
| Games.GameState.UnlockTurn | project/server/CheckGame.Engine/Models/GameState.cs:566-569 | Unlocks the turn. |
| Games.GameState.RemovePlayerFromActive | project/server/CheckGame.Engine/Models/GameState.cs:354-357 | Removes the first occurrence of the id. In a rotation without repeated ids, the player is then inactive and everybody else is unaffected. |
| Games.GameState.CardsConserved | project/server/CheckGame.Engine/Models/GameState.cs:405-412 | A move that only shifts cards between the piles and one hand leaves all cards of the game unchanged. |
| Games.GameState.PlayCard | project/server/CheckGame.Engine/Models/GameState.cs:365-447 | The error is the first failing check, in the source's order, and a rejected play changes nothing. An accepted play does what `Played` describes: the card goes from the hand to the top of the discards, the suit and the chain update, and the turn moves. A player left without cards leaves the rotation but stays in the roster. No card is created or lost, and the invariants are kept. |
| Games.GameState.ApplyPlay | project/server/CheckGame.Engine/Models/GameState.cs:404-444 | The effect of a play that passed every check, keeping the cards and the invariants. |
| Games.GameState.MoveToDiscard | project/server/CheckGame.Engine/Models/GameState.cs:404-435 | The card moves from the hand to the discards and becomes the top card. The suit follows unless it is a joker. A wild card starts a chain with its penalty or adds its penalty to the chain. |
| Games.GameState.EndPlay | project/server/CheckGame.Engine/Models/GameState.cs:437-444 | The card's effect on the turn, then the player leaves the rotation if their hand is empty. |
| Games.GameState.ReshuffleDiscardPile | project/server/CheckGame.Engine/Models/GameState.cs:575-598 | With at most one discard it fails and changes nothing. Otherwise only the top discard stays, and the draw pile becomes a shuffle of itself plus the other discards. No card is lost. |
| Games.GameState.DrawOne | project/server/CheckGame.Engine/Models/GameState.cs:469-487 | One card goes into the hand, after a reshuffle if the pile is empty. A failed reshuffle changes nothing, and the top discard stays. |
| Games.GameState.DrawCard | project/server/CheckGame.Engine/Models/GameState.cs:454-522 | The turn is checked first, then the player. On success the hand grows by one card, or by the whole penalty in a chain (the top cards of the pile when it suffices). The chain ends and the turn advances once. A reshuffle failure keeps the cards already drawn and leaves the turn and chain as they were. The lock is never touched, no card is lost, and the invariants are kept. |
| Games.GameState.DrawTurn | project/server/CheckGame.Engine/Models/GameState.cs:479-519 | `DrawCard` once the player is known. |
| Games.GameState.DrawInto | project/server/CheckGame.Engine/Models/GameState.cs:479-511 | The drawing loop hands over `n` cards, or stops at the first failed reshuffle. The hand only grows and no card is lost. |
| Games.GameState.ChangeSuit | project/server/CheckGame.Engine/Models/GameState.cs:606-637 | The error is the first failing check, in the source's order, and a rejected change does nothing. On success the suit is set, the lock is cleared and the turn advances once. |
| Games.GameState.GetLoser | project/server/CheckGame.Engine/Models/GameState.cs:653-674 | The sole active player once the game is over with one player left, and "" otherwise. |
| Sessions.CreatorName | project/server/CheckGame.Api/Persistence/Models/GameSession.cs:57-59 | The creator joins as "Player_" followed by their user id. |
| Sessions.AddToRoster | project/server/CheckGame.Api/Persistence/Models/GameSession.cs:64-74 | A name is added exactly when it is new and a seat is free, and then at the end of the roster. A rejected name leaves the roster exactly as it was. |
| Sessions.RemoveFromRoster | project/server/CheckGame.Api/Persistence/Models/GameSession.cs:76-84 | Succeeds exactly when the name is present, and removes exactly one copy. A miss changes nothing. |
| Sessions.AddKeepsRosterOk | project/server/CheckGame.Api/Persistence/Models/GameSession.cs:64-74 | Adding keeps the roster without duplicates and within capacity. |
| Sessions.RemoveKeepsRosterOk | project/server/CheckGame.Api/Persistence/Models/GameSession.cs:76-84 | Removing keeps the roster without duplicates, and the name is then gone. |
| Sessions.AddThenRemove | project/server/CheckGame.Api/Persistence/Models/GameSession.cs:64-84 | Removing a name just added gives back the original roster. |
| Sessions.RemoveThenAdd | project/server/CheckGame.Api/Persistence/Models/GameSession.cs:64-84 | A name just removed can be added back, which restores the roster's contents. |
| Sessions.Started | project/server/CheckGame.Api/Persistence/Models/GameSession.cs:86-93 | The status changes exactly when the session is waiting with at least two players, and then to in progress. |
| Sessions.Ended | project/server/CheckGame.Api/Persistence/Models/GameSession.cs:95-102 | The status changes exactly when the game is in progress, and then to completed. |
| Sessions.StatusOnlyMovesForward | project/server/CheckGame.Api/Persistence/Models/GameSession.cs:86-102 | No transition moves the status back or skips a stage. Completed and cancelled sessions never change, and nothing leads to cancelled. |
| Sessions.TransitionsSettle | project/server/CheckGame.Api/Persistence/Models/GameSession.cs:86-102 | Starting and ending are idempotent, and an ended game cannot start again. |
| Sessions.JoinableAdmitsNewcomer | project/server/CheckGame.Api/Persistence/Models/GameSession.cs:64-108 | A joinable session accepts any new name. Starting the game closes it to newcomers exactly when it starts. |
| Sessions.GameSession.constructor | project/server/CheckGame.Api/Persistence/Models/GameSession.cs:46-55 | The initialiser sets the given fields and status WaitingForPlayers. |
| Sessions.GameSession.Create | project/server/CheckGame.Api/Persistence/Models/GameSession.cs:36-62 | At most one seat is an argument error. Otherwise: a waiting, joinable session with the given fields, created by the user, whose only player is the creator. |
| Sessions.GameSession.AddPlayer | project/server/CheckGame.Api/Persistence/Models/GameSession.cs:64-74 | Updates the roster as `AddToRoster` says and keeps the lobby invariant. |
| Sessions.GameSession.RemovePlayer | project/server/CheckGame.Api/Persistence/Models/GameSession.cs:76-84 | Updates the roster as `RemoveFromRoster` says and keeps the lobby invariant. |
| Sessions.GameSession.StartGame | project/server/CheckGame.Api/Persistence/Models/GameSession.cs:86-93 | Moves the status as `Started` says. |
| Sessions.GameSession.EndGame | project/server/CheckGame.Api/Persistence/Models/GameSession.cs:95-102 | Moves the status as `Ended` says. |
| Sessions.GameSession.CanJoin | project/server/CheckGame.Api/Persistence/Models/GameSession.cs:104-108 | Joinable exactly when waiting and not full. |

## Left out

- JSON serialisation (`ToJson`, `FromJson`) is left out. It is reflection in a foreign library.
- `System.Random` is left out: generators are parameters. `GameState.New` takes `rng` for the first shuffle and `retryRng` for the shuffle after a wild first discard. In the source these are one generator continuing.
- `ReshuffleDiscardPile` creates an unseeded `new Random()` on each call. The model takes `rng` as a parameter. One `DrawCard` can reshuffle successfully at most once, because a successful reshuffle leaves a single discard.
- Session id and code generation (`Guid.NewGuid`, `GenerateUniqueSessionCode`) are left out. `Create` takes both as parameters.
- The `CreatedAt`, `StartedAt` and `EndedAt` timestamps and the `CreatedByUser` navigation property are left out.
- Null-argument checks and `ArgumentOutOfRangeException` for suits outside the enum are left out. Dafny's types rule both inputs out.
- Games.GameState.PlayCard: "Failed to remove card from hand" is not modelled as an outcome. The card was just found in the hand, so this error cannot occur.
- Games.GameState.DrawOne: "Failed to draw card" and "Failed to draw attack penalty cards" cannot occur. A reshuffle that succeeds leaves at least one card to draw, and the contract proves that no draw fails.
- Games.TurnUpStarter: "Failed to draw initial card for discard pile after reshuffle" cannot occur. The wild card was just put back, so the pile is not empty.
- `GameState.New` is modelled through `GameOptions.InitialCards` and the player ids only. `CustomPlayers` is not read by `New`, and `RandomSeed` only selects the generator.
- Callers of `GameState.New` pass `initialCards`. The source defaults `InitialCards` to 7 when no options are given (GameState.cs:29, 151).
- `New` does not check that player ids are distinct, and neither does the model. The turn-order lemmas therefore assume a rotation without repeated ids.
- A wild card can still be the first discard after the single retry. The model states the resulting order (`StarterOrder`) rather than an invariant that the first discard is never wild.
- The current player is not always in the rotation. A player who goes out on a Jack keeps the turn to name a suit, and `AdvanceFromOutside` states where the turn goes next. `Consistent` therefore does not include that membership.
- Games.GameState.constructor requires the players to be distinct objects, which the source's public constructor does not check. Every caller passes distinct players: `New`, `Clone` and the engine's tests. The model needs it because players are updated in place through their references.
- `Consistent` is kept apart from `Valid` because the public `GameState` constructor accepts any parts. Its invariants are: the top card is the last discard, a chain is on exactly when a penalty is pending, and a locked turn has a Jack on top and no chain.
- The source's `DrawCard` keeps the cards already drawn when a reshuffle fails mid-penalty, and so does the model.
- `Deal`, `DealRounds`, `NewPlayers`, `SetUpTable`, `DealAndTurnUp`, `ShuffledDeck`, `ApplyPlay`, `MoveToDiscard`, `EndPlay`, `DrawTurn`, `DrawInto` and `DrawOne` are pieces of `New`, `PlayCard` and `DrawCard` cut along the source's own steps, so that each proof stays small. The number of cards dealt is counted with `Times` (repeated addition); `TimesIsProduct` shows it equals the product.
- `IsGameOver`, `GetWinners`, `IsCreator`, `IsFull` and `IsPlayerActive` are plain predicates and functions. Their meaning is stated by `GetLoser`, `WinnersAreEmptyHanded`, `Create`, `CanJoin` and `RemovePlayerFromActive`. `IsPlayerActive` (GameState.cs:345-348) is membership in the rotation, which `RemovePlayerFromActive` updates.
