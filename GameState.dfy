/** The authoritative game state: turn order, the piles, attack chains, the
    suit lock, and the moves `PlayCard`, `DrawCard` and `ChangeSuit`. */
module Games {
  import opened Wrappers
  import opened Lists
  import opened Cards
  import opened Decks
  import opened Players

  datatype Direction = Clockwise | CounterClockwise

  const NotYourTurn := "Not your turn"
  const TurnIsLocked := "Turn is locked"
  const PlayerNotFound := "Player not found"
  const CardNotInHand := "Card not in hand"
  const InvalidPlay := "Invalid play"
  const MustPlayWild := "Must play a wild card to defend against an attack"
  const NotEnoughToReshuffle := "Not enough cards to reshuffle"
  const TurnIsNotLocked := "Turn is not locked"
  const InvalidSuit := "Invalid suit"
  const NotAfterJack := "Suit can only be changed after playing a Jack"

  // ---------------------------------------------------------------------
  // Turn order, on values

  /** `NextPlayerIndex`: the position after (clockwise) or before
      (counter-clockwise) the current player in the rotation; 0 when at most
      one player is left or the current player is not in the rotation. The
      operands of `%` are never negative, so C#'s remainder and Dafny's agree. */
  function NextIndex(active: seq<string>, current: string, direction: Direction): (r: int)
    ensures |active| >= 1 ==> 0 <= r < |active|
    ensures |active| <= 1 || current !in active ==> r == 0
  {
    var n := |active|;
    if n <= 1 then 0
    else
      var i := IndexOf(active, current);
      if i == -1 then 0
      else if direction == Clockwise then (i + 1) % n
      else (i - 1 + n) % n
  }

  /** The player `AdvanceTurn` hands the turn to. */
  function Advance(active: seq<string>, current: string, direction: Direction): (r: string)
    ensures |active| <= 1 ==> r == current
    ensures |active| >= 2 ==> r in active
  {
    if |active| <= 1 then current else active[NextIndex(active, current, direction)]
  }

  /** The player `SkipNextPlayer` hands the turn to: two steps on, except
      that with two players or fewer nobody moves. */
  function Skip(active: seq<string>, current: string, direction: Direction): (r: string)
    ensures |active| <= 2 ==> r == current
    ensures |active| > 2 ==> r in active
  {
    if |active| <= 2 then current
    else Advance(active, Advance(active, current, direction), direction)
  }

  /** In a rotation without repeated ids, a step clockwise moves to the next
      seat, a step counter-clockwise to the previous one, and the two undo
      each other. */
  lemma {:induction false} AdvanceSteps(active: seq<string>, i: nat)
    requires Distinct(active) && 2 <= |active| && i < |active|
    ensures Advance(active, active[i], Clockwise) == active[Succ(i, |active|)]
    ensures Advance(active, active[i], CounterClockwise) == active[Pred(i, |active|)]
    ensures Advance(active, Advance(active, active[i], Clockwise), CounterClockwise) == active[i]
    ensures Advance(active, Advance(active, active[i], CounterClockwise), Clockwise) == active[i]
  {
    var n := |active|;
    StepIndex(active, i);
    StepIndex(active, Succ(i, n));
    StepIndex(active, Pred(i, n));
  }

  /** A current player who is no longer in the rotation (one who went out
      on a Jack keeps the turn to name a suit) hands the turn to the first
      player of the rotation, not to their neighbour. */
  lemma AdvanceFromOutside(active: seq<string>, current: string, direction: Direction)
    requires |active| >= 2 && current !in active
    ensures Advance(active, current, direction) == active[0]
  {
  }

  /** The seat after `i` in a ring of `n`. */
  function Succ(i: nat, n: nat): (r: nat)
    requires i < n
    ensures r < n && Pred(r, n) == i
  {
    if i + 1 < n then i + 1 else 0
  }

  /** The seat before `i` in a ring of `n`. */
  function Pred(i: nat, n: nat): (r: nat)
    requires i < n
    ensures r < n
  {
    if i >= 1 then i - 1 else n - 1
  }

  lemma SuccPred(i: nat, n: nat)
    requires i < n
    ensures Succ(Pred(i, n), n) == i
  {
  }

  /** One step from seat `i` in each direction, for a rotation without
      repeated ids. */
  lemma StepIndex(active: seq<string>, i: nat)
    requires Distinct(active) && 2 <= |active| && i < |active|
    ensures NextIndex(active, active[i], Clockwise) == Succ(i, |active|)
    ensures NextIndex(active, active[i], CounterClockwise) == Pred(i, |active|)
  {
    var n := |active|;
    DistinctIndexOf(active, i);
    RingMod(i + 1, n);
    RingMod(i - 1 + n, n);
  }

  lemma RingMod(a: int, n: int)
    requires 0 < n && 0 <= a < 2 * n
    ensures a % n == if a < n then a else a - n
  {
  }

  lemma DistinctIndexOf(s: seq<string>, i: nat)
    requires Distinct(s) && i < |s|
    ensures IndexOf(s, s[i]) == i
  {
  }

  // ---------------------------------------------------------------------
  // The rules of a move, on values

  /** The first check of `PlayCard` that fails, in the source's order; `hand`
      is the hand of the player found under `playerId`, if any. */
  function PlayError(current: string, locked: bool, hand: Option<seq<Card>>, top: Card,
                     inAttackChain: bool, playerId: string, card: Card): Option<string>
  {
    if playerId != current then Some(NotYourTurn)
    else if locked then Some(TurnIsLocked)
    else if hand.None? then Some(PlayerNotFound)
    else if card !in hand.value then Some(CardNotInHand)
    else if !CanPlayCardOn(card, top, inAttackChain) then Some(InvalidPlay)
    else if inAttackChain && !IsWildCard(card) then Some(MustPlayWild)
    else None
  }

  /** A play is accepted exactly when it is the player's unlocked turn, the
      player exists and holds the card, and the rule allows it. The sixth
      check, "Must play a wild card...", can never be the one that fails:
      inside a chain the rule already rejects every card that is not wild. */
  lemma PlayErrorSummary(current: string, locked: bool, hand: Option<seq<Card>>, top: Card,
                         inAttackChain: bool, playerId: string, card: Card)
    ensures PlayError(current, locked, hand, top, inAttackChain, playerId, card) == None <==>
      playerId == current && !locked && hand.Some? && card in hand.value &&
      CanPlayCardOn(card, top, inAttackChain)
    ensures PlayError(current, locked, hand, top, inAttackChain, playerId, card) != Some(MustPlayWild)
    ensures (PlayError(current, locked, hand, top, inAttackChain, playerId, card) == None &&
             inAttackChain) ==> IsWildCard(card)
  {
  }

  /** The turn and lock after `ProcessCardEffect(card)`, given whether the
      game is in an attack chain once the card's penalty has been booked. */
  function CardEffect(card: Card, inAttackChain: bool, active: seq<string>, current: string,
                      direction: Direction): (r: (string, bool))
  {
    if IsSkip(card) then (Skip(active, current, direction), false)
    else if IsWildCard(card) && inAttackChain then (Advance(active, current, direction), false)
    else if IsSuitChanger(card) then (current, true)
    else if !inAttackChain then (Advance(active, current, direction), false)
    else (current, false)
  }

  /** What a successful play does to the turn: a wild card always passes it
      on exactly once (its penalty is booked first, so the chain is active);
      a Jack keeps it and locks it; an Ace skips a player, which with two
      players leaves the turn where it is; any other card passes it on. */
  lemma CardEffectOfPlay(card: Card, active: seq<string>, current: string, direction: Direction,
                         wasInChain: bool)
    requires WellFormed(card)
    requires wasInChain ==> IsWildCard(card)
    ensures var inChain := wasInChain || IsWildCard(card);
      var (next, locks) := CardEffect(card, inChain, active, current, direction);
      && (IsWildCard(card) ==> next == Advance(active, current, direction) && !locks)
      && (IsSuitChanger(card) ==> next == current && locks)
      && (IsSkip(card) ==> next == Skip(active, current, direction) && !locks)
      && (IsSkip(card) && |active| == 2 ==> next == current)
      && (!IsWildCard(card) && !IsSuitChanger(card) && !IsSkip(card) ==>
            next == Advance(active, current, direction) && !locks)
  {
    SpecialClassesDisjoint(card);
  }

  /** How many cards `DrawCard` hands over: one, or the whole accumulated
      penalty inside a chain (the loop draws `attackAmount - 1` more). */
  function DrawCount(inAttackChain: bool, attackAmount: int): (n: nat)
    ensures n >= 1
    ensures inAttackChain && attackAmount >= 1 ==> n == attackAmount
    ensures !inAttackChain ==> n == 1
  {
    if inAttackChain && attackAmount > 1 then attackAmount else 1
  }

  /** The checks of `ChangeSuit`, in the source's order. */
  function ChangeSuitError(current: string, locked: bool, top: Card, playerId: string,
                           newSuit: Suit): Option<string>
  {
    if playerId != current then Some(NotYourTurn)
    else if !locked then Some(TurnIsNotLocked)
    else if !IsValidSuit(newSuit) then Some(InvalidSuit)
    else if !IsSuitChanger(top) then Some(NotAfterJack)
    else None
  }

  predicate IsValidSuit(suit: Suit) {
    suit in {Hearts, Diamonds, Spades, Clubs}
  }

  /** The suit can be changed exactly by the current player, on a locked
      turn, to an ordinary suit, with a Jack on top. */
  lemma ChangeSuitErrorSummary(current: string, locked: bool, top: Card, playerId: string,
                               newSuit: Suit)
    ensures ChangeSuitError(current, locked, top, playerId, newSuit) == None <==>
      playerId == current && locked && newSuit != Joker && IsSuitChanger(top)
  {
  }

  // ---------------------------------------------------------------------
  // Counting cards

  /** All the cards held by the players of `ps`. */
  ghost function HandsBag(ps: seq<Player>): multiset<Card>
    reads ps
  {
    if ps == [] then multiset{}
    else HandsBag(ps[..|ps| - 1]) + multiset(ps[|ps| - 1].hand)
  }

  /** Every hand of `ps` but the `k`-th is as it was (all of them when `k`
      is not a position of `ps`). */
  twostate predicate HandsKept(ps: seq<Player>, k: int)
    reads ps
  {
    forall i :: 0 <= i < |ps| && i != k ==> ps[i].hand == old(ps[i].hand)
  }

  /** Hands that did not change hold the same cards. */
  twostate lemma {:induction false} HandsBagUnchanged(new ps: seq<Player>)
    requires old(allocated(ps)) && HandsKept(ps, -1)
    ensures HandsBag(ps) == old(HandsBag(ps))
  {
    if ps != [] {
      HandsBagUnchanged(ps[..|ps| - 1]);
    }
  }

  /** When only the `k`-th hand changed, the total changed by exactly the
      difference between its new and its old cards. */
  twostate lemma {:induction false} HandsBagOneChange(new ps: seq<Player>, k: nat)
    requires old(allocated(ps)) && k < |ps| && HandsKept(ps, k)
    ensures HandsBag(ps) + old(multiset(ps[k].hand)) == old(HandsBag(ps)) + multiset(ps[k].hand)
  {
    var n := |ps| - 1;
    if k == n {
      HandsBagUnchanged(ps[..n]);
    } else {
      HandsBagOneChange(ps[..n], k);
      assert ps[..n][k] == ps[k];
      assert multiset(ps[n].hand) == old(multiset(ps[n].hand));
      AddToBoth(HandsBag(ps[..n]), old(HandsBag(ps[..n])), multiset(ps[k].hand),
                old(multiset(ps[k].hand)), multiset(ps[n].hand));
    }
  }

  lemma AddToBoth(a: multiset<Card>, a0: multiset<Card>, h: multiset<Card>, h0: multiset<Card>,
                  x: multiset<Card>)
    requires a + h0 == a0 + h
    ensures (a + x) + h0 == (a0 + x) + h
  {
    forall c ensures ((a + x) + h0)[c] == ((a0 + x) + h)[c] {
      assert (a + h0)[c] == (a0 + h)[c];
    }
  }

  function IdsOf(ps: seq<Player>): (ids: seq<string>)
    ensures |ids| == |ps|
    ensures forall i :: 0 <= i < |ps| ==> ids[i] == ps[i].id
  {
    seq(|ps|, i requires 0 <= i < |ps| => ps[i].id)
  }

  /** `GetWinners` on a roster: the ids of the players whose hand is empty,
      in roster order. */
  function Winners(ps: seq<Player>): seq<string>
    reads ps
  {
    if ps == [] then []
    else
      var n := |ps| - 1;
      Winners(ps[..n]) + (if ps[n].hand == [] then [ps[n].id] else [])
  }

  /** An id is among the winners exactly when some player of that id holds
      no card. */
  lemma {:induction false} WinnersAreEmptyHanded(ps: seq<Player>, x: string)
    ensures x in Winners(ps) <==> exists i :: 0 <= i < |ps| && ps[i].id == x && ps[i].hand == []
    ensures |Winners(ps)| <= |ps|
  {
    if ps != [] {
      var n := |ps| - 1;
      WinnersAreEmptyHanded(ps[..n], x);
      if x in Winners(ps[..n]) {
        var i :| 0 <= i < n && ps[..n][i].id == x && ps[..n][i].hand == [];
        assert ps[i].id == x && ps[i].hand == [];
      }
      if exists i :: 0 <= i < |ps| && ps[i].id == x && ps[i].hand == [] {
        var i :| 0 <= i < |ps| && ps[i].id == x && ps[i].hand == [];
        if i < n { assert ps[..n][i].id == x && ps[..n][i].hand == []; }
      }
    }
  }

  // ---------------------------------------------------------------------
  // Setting up a game

  const TooFewPlayers := "At least 2 players are required"
  const NoInitialCard := "Failed to draw initial card for discard pile"

  /** No player object occurs twice in `ps`: `Distinct`, stated one new
      position at a time so that a proof compares only the positions it
      names (see `UnaliasedApart`). */
  predicate Unaliased(ps: seq<Player>) {
    ps == [] || (Unaliased(ps[..|ps| - 1]) && ps[|ps| - 1] !in ps[..|ps| - 1])
  }

  lemma {:induction false} UnaliasedApart(ps: seq<Player>, i: nat, j: nat)
    requires Unaliased(ps) && i < |ps| && j < |ps| && i != j
    ensures ps[i] != ps[j]
  {
    var n := |ps| - 1;
    if i < n && j < n {
      UnaliasedApart(ps[..n], i, j);
    } else if i == n {
      assert ps[j] == ps[..n][j];
    } else {
      assert ps[i] == ps[..n][i];
    }
  }

  lemma UnaliasedIsDistinct(ps: seq<Player>)
    requires Unaliased(ps)
    ensures Distinct(ps)
  {
    forall i, j | 0 <= i < j < |ps| ensures ps[i] != ps[j] {
      UnaliasedApart(ps, i, j);
    }
  }

  /** A roster of empty hands holds no card. */
  lemma {:induction false} HandsBagOfEmpty(ps: seq<Player>)
    requires forall q :: 0 <= q < |ps| ==> ps[q].hand == []
    ensures HandsBag(ps) == multiset{}
  {
    if ps != [] {
      HandsBagOfEmpty(ps[..|ps| - 1]);
    }
  }

  /** `n * i`, by repeated addition, so that a loop can count in steps of
      `n` without non-linear arithmetic. */
  function Times(n: nat, i: nat): nat {
    if i == 0 then 0 else Times(n, i - 1) + n
  }

  lemma {:induction false} TimesIsProduct(n: nat, i: nat)
    ensures Times(n, i) == n * i
  {
    if i > 0 {
      TimesIsProduct(n, i - 1);
    }
  }

  /** The hand player `q` of `n` holds after `rounds` full rounds dealt
      from the top of `pile`: in round `r` it takes the card `q` places
      below the `Times(n, r)` cards the earlier rounds used. */
  function Dealt(pile: seq<Card>, n: nat, q: nat, rounds: nat): (h: seq<Card>)
    requires q < n && Times(n, rounds) <= |pile|
    ensures |h| == rounds
    ensures forall r :: 0 <= r < rounds ==> Times(n, r) + q < |pile| && h[r] == pile[Times(n, r) + q]
  {
    if rounds == 0 then [] else Dealt(pile, n, q, rounds - 1) + [pile[Times(n, rounds - 1) + q]]
  }

  /** The deal is round-robin: card `r` of hand `q` is card `n * r + q` of
      the pile. */
  lemma DealtRoundRobin(pile: seq<Card>, n: nat, q: nat, rounds: nat, r: nat)
    requires q < n && Times(n, rounds) <= |pile| && r < rounds
    ensures n * r + q < |pile| && Dealt(pile, n, q, rounds)[r] == pile[n * r + q]
  {
    var h := Dealt(pile, n, q, rounds);
    assert Times(n, r) + q < |pile| && h[r] == pile[Times(n, r) + q];
    TimesIsProduct(n, r);
  }

  /** The hands of `n` players after `rounds` full rounds from `pile`. */
  function DealtHands(pile: seq<Card>, n: nat, rounds: nat): (hs: seq<seq<Card>>)
    requires Times(n, rounds) <= |pile|
    ensures |hs| == n
  {
    FirstDealtHands(pile, n, n, rounds)
  }

  /** The first `k` of those hands. */
  function FirstDealtHands(pile: seq<Card>, n: nat, k: nat, rounds: nat): (hs: seq<seq<Card>>)
    requires k <= n && Times(n, rounds) <= |pile|
    ensures |hs| == k
  {
    if k == 0 then [] else FirstDealtHands(pile, n, k - 1, rounds) + [Dealt(pile, n, k - 1, rounds)]
  }

  lemma {:induction false} FirstDealtHandsAt(pile: seq<Card>, n: nat, k: nat, rounds: nat)
    requires k <= n && Times(n, rounds) <= |pile|
    ensures forall q :: 0 <= q < k ==> FirstDealtHands(pile, n, k, rounds)[q] == Dealt(pile, n, q, rounds)
  {
    if k > 0 {
      FirstDealtHandsAt(pile, n, k - 1, rounds);
    }
  }

  /** Every hand of `ps` holds what `rounds` full rounds from `pile` give it. */
  ghost predicate HandsDealt(ps: seq<Player>, pile: seq<Card>, rounds: nat)
    reads ps
  {
    Times(|ps|, rounds) <= |pile| && Hands(ps) == DealtHands(pile, |ps|, rounds)
  }

  /** One round of the deal of `GameState.New`: each player in roster order
      takes the top card of the pile, while the pile lasts. */
  method DealRound(players: seq<Player>, pile: Deck)
    requires Unaliased(players)
    modifies pile, players
    ensures var m := if |players| <= |old(pile.cards)| then |players| else |old(pile.cards)|;
      && pile.cards == old(pile.cards)[m..]
      && forall q :: 0 <= q < |players| ==>
           players[q].hand == old(players[q].hand) + (if q < m then [old(pile.cards)[q]] else [])
  {
    ghost var pile0 := pile.cards;
    ghost var m := 0;
    for j := 0 to |players|
      invariant m == if j <= |pile0| then j else |pile0|
      invariant pile.cards == pile0[m..]
      invariant forall q :: 0 <= q < |players| ==>
        players[q].hand == old(players[q].hand) + (if q < m then [pile0[q]] else [])
    {
      label L:
      DealTo(players[j], pile);
      forall q | 0 <= q < |players| && q != j
        ensures players[q].hand == old@L(players[q].hand)
      {
        UnaliasedApart(players, q, j);
      }
      if m < |pile0| {
        m := m + 1;
      }
    }
  }

  /** One card from the top of the pile, if any, to player `p`. */
  method DealTo(p: Player, pile: Deck)
    modifies pile, p
    ensures old(pile.cards) == [] ==> pile.cards == [] && p.hand == old(p.hand)
    ensures old(pile.cards) != [] ==>
      pile.cards == old(pile.cards)[1..] && p.hand == old(p.hand) + [old(pile.cards)[0]]
  {
    var card := pile.Draw();
    if card.Some? {
      p.AddToHand(card.value);
    }
  }

  /** After one round of the deal, the hands hold, together, their old
      cards and the dealt ones. */
  twostate lemma {:induction false} HandsBagAfterRound(new ps: seq<Player>, cs: seq<Card>)
    requires old(allocated(ps)) && |cs| <= |ps|
    requires forall q :: 0 <= q < |ps| ==>
      ps[q].hand == old(ps[q].hand) + (if q < |cs| then [cs[q]] else [])
    ensures HandsBag(ps) == old(HandsBag(ps)) + multiset(cs)
  {
    if ps != [] {
      var n := |ps| - 1;
      var rest := if |cs| == |ps| then cs[..n] else cs;
      var last := if |cs| == |ps| then [cs[n]] else [];
      assert cs == rest + last;
      HandsBagAfterRound(ps[..n], rest);
      assert ps[n].hand == old(ps[n].hand) + last;
      Regroup(old(HandsBag(ps[..n])), multiset(rest), old(multiset(ps[n].hand)), multiset(last));
    }
  }

  lemma Regroup(a: multiset<Card>, b: multiset<Card>, c: multiset<Card>, d: multiset<Card>)
    ensures (a + b) + (c + d) == (a + c) + (b + d)
  {
  }

  /** Every hand holds `k` cards. */
  ghost predicate HandSizesAre(ps: seq<Player>, k: nat)
    reads ps
  {
    forall q :: 0 <= q < |ps| ==> |ps[q].hand| == k
  }

  /** `a` is what is left of `b` after some cards were taken off the top. */
  predicate SuffixOf(a: seq<Card>, b: seq<Card>) {
    a == b || (b != [] && SuffixOf(a, b[1..]))
  }

  lemma {:induction false} SuffixOfDrop(b: seq<Card>, k: nat)
    requires k <= |b|
    ensures SuffixOf(b[k..], b)
    decreases k
  {
    if k > 0 {
      assert b[1..][k - 1..] == b[k..];
      SuffixOfDrop(b[1..], k - 1);
    }
  }

  lemma {:induction false} SuffixOfTrans(a: seq<Card>, b: seq<Card>, c: seq<Card>)
    requires SuffixOf(a, b) && SuffixOf(b, c)
    ensures SuffixOf(a, c)
    decreases |c|
  {
    if b != c {
      SuffixOfTrans(a, b, c[1..]);
    }
  }

  /** A suffix is determined by its length. */
  lemma {:induction false} SuffixOfIsDrop(a: seq<Card>, b: seq<Card>)
    requires SuffixOf(a, b)
    ensures |a| <= |b| && a == b[|b| - |a|..]
    decreases |b|
  {
    if a != b {
      SuffixOfIsDrop(a, b[1..]);
    }
  }

  /** One round of the deal, summarised: no card appears or disappears, the
      pile loses one card from the top per player while it lasts, and when
      it lasts the whole round hand `q` gains the `q`-th card from the top. */
  method DealRoundCounted(players: seq<Player>, pile: Deck)
    requires Unaliased(players)
    modifies pile, players
    ensures multiset(pile.cards) + HandsBag(players) == old(multiset(pile.cards) + HandsBag(players))
    ensures |players| <= |old(pile.cards)| ==>
      && pile.cards == old(pile.cards)[|players|..]
      && Hands(players) == Appended(old(Hands(players)), old(pile.cards)[..|players|])
    ensures |players| > |old(pile.cards)| ==> pile.cards == []
    ensures SuffixOf(pile.cards, old(pile.cards))
  {
    ghost var before := pile.cards;
    ghost var m := if |players| <= |before| then |players| else |before|;
    label round:
    DealRound(players, pile);
    SuffixOfDrop(before, m);
    RoundConserves@round(players, before, pile.cards, m);
    if m == |players| {
      HandsAppended@round(players, before[..m]);
    }
  }

  /** The exact effect of `DealRound`, taking `m` cards off the pile
      `before` and leaving `after`, moves cards from the pile to the hands
      without creating or losing any. */
  twostate lemma RoundConserves(new ps: seq<Player>, new before: seq<Card>, new after: seq<Card>, m: nat)
    requires old(allocated(ps)) && m <= |ps| && m <= |before| && after == before[m..]
    requires forall q :: 0 <= q < |ps| ==>
      ps[q].hand == old(ps[q].hand) + (if q < m then [before[q]] else [])
    ensures multiset(after) + HandsBag(ps) == multiset(before) + old(HandsBag(ps))
  {
    assert multiset(before) == multiset(before[..m]) + multiset(after) by {
      assert before == before[..m] + before[m..];
    }
    HandsBagAfterRound(ps, before[..m]);
    MoveInto(multiset(after), multiset(before[..m]), old(HandsBag(ps)), HandsBag(ps),
             multiset(before));
  }

  /** Cards taken from `all` and added to `h0` leave the total unchanged. */
  lemma MoveInto(after: multiset<Card>, taken: multiset<Card>, h0: multiset<Card>,
                 h: multiset<Card>, all: multiset<Card>)
    requires all == taken + after && h == h0 + taken
    ensures after + h == all + h0
  {
    forall c ensures (after + h)[c] == (all + h0)[c] {
    }
  }

  /** `rounds` rounds of the deal, counted by repeated addition. */
  method DealRounds(players: seq<Player>, pile: Deck, rounds: nat)
    requires Unaliased(players) && forall q :: 0 <= q < |players| ==> players[q].hand == []
    modifies pile, players
    ensures Times(|players|, rounds) <= |old(pile.cards)| ==>
      && pile.cards == old(pile.cards)[Times(|players|, rounds)..]
      && HandsDealt(players, old(pile.cards), rounds)
    ensures Times(|players|, rounds) > |old(pile.cards)| ==> pile.cards == []
    ensures SuffixOf(pile.cards, old(pile.cards))
    ensures multiset(pile.cards) + HandsBag(players) == old(multiset(pile.cards) + HandsBag(players))
  {
    var n := |players|;
    ghost var pile0 := pile.cards;
    ghost var total := multiset(pile.cards) + HandsBag(players);
    NothingDealt(players, pile0);
    assert pile0[Times(|players|, 0)..] == pile0;
    var i := 0;
    while i < rounds
      invariant 0 <= i <= rounds
      invariant multiset(pile.cards) + HandsBag(players) == total
      invariant DealtSoFar(players, pile, pile0, i)
    {
      DealNextRound(players, pile, pile0, i);
      i := i + 1;
    }
  }

  /** Where the deal from `pile0` stands after `i` rounds: the pile is what
      is left of `pile0`; while the rounds were full, that is `pile0` without
      the cards dealt and the hands hold those cards; otherwise the pile is
      empty. */
  ghost predicate DealtSoFar(players: seq<Player>, pile: Deck, pile0: seq<Card>, i: nat)
    reads players, pile
  {
    && SuffixOf(pile.cards, pile0)
    && (Times(|players|, i) <= |pile0| ==>
          pile.cards == pile0[Times(|players|, i)..] && HandsDealt(players, pile0, i))
    && (Times(|players|, i) > |pile0| ==> pile.cards == [])
  }

  /** Round `i + 1` of the deal from `pile0`, given that the `i` rounds
      before it were dealt from the same pile. */
  method DealNextRound(players: seq<Player>, pile: Deck, ghost pile0: seq<Card>, ghost i: nat)
    requires Unaliased(players) && DealtSoFar(players, pile, pile0, i)
    modifies pile, players
    ensures DealtSoFar(players, pile, pile0, i + 1)
    ensures multiset(pile.cards) + HandsBag(players) == old(multiset(pile.cards) + HandsBag(players))
  {
    var n := |players|;
    ghost var dealt := Times(n, i);
    ghost var before := pile.cards;
    if dealt + n <= |pile0| {
      DealtHandsNext(pile0, n, i, before);
    }
    DealRoundCounted(players, pile);
    SuffixOfTrans(pile.cards, before, pile0);
  }

  /** Empty hands are what zero rounds give. */
  lemma NothingDealt(ps: seq<Player>, pile: seq<Card>)
    requires forall q :: 0 <= q < |ps| ==> ps[q].hand == []
    ensures HandsDealt(ps, pile, 0)
  {
    var hs, none := Hands(ps), DealtHands(pile, |ps|, 0);
    FirstDealtHandsAt(pile, |ps|, |ps|, 0);
    forall q | 0 <= q < |ps| ensures hs[q] == none[q] {
    }
  }

  /** After `rounds` full rounds every hand holds `rounds` cards. */
  lemma HandsDealtSizes(ps: seq<Player>, pile: seq<Card>, rounds: nat)
    requires HandsDealt(ps, pile, rounds)
    ensures HandSizesAre(ps, rounds)
  {
    FirstDealtHandsAt(pile, |ps|, |ps|, rounds);
    forall q | 0 <= q < |ps| ensures |ps[q].hand| == rounds {
      assert Hands(ps)[q] == DealtHands(pile, |ps|, rounds)[q];
    }
  }

  /** Each hand with one more card: hand `q` takes `cs[q]`. */
  function Appended(hs: seq<seq<Card>>, cs: seq<Card>): (r: seq<seq<Card>>)
    requires |cs| == |hs|
    ensures |r| == |hs| && forall q :: 0 <= q < |hs| ==> r[q] == hs[q] + [cs[q]]
  {
    seq(|hs|, q requires 0 <= q < |hs| => hs[q] + [cs[q]])
  }

  twostate lemma HandsAppended(new ps: seq<Player>, new cs: seq<Card>)
    requires old(allocated(ps)) && |cs| == |ps|
    requires forall q :: 0 <= q < |ps| ==> ps[q].hand == old(ps[q].hand) + [cs[q]]
    ensures Hands(ps) == Appended(old(Hands(ps)), cs)
  {
    var hs, next := Hands(ps), Appended(old(Hands(ps)), cs);
    forall q | 0 <= q < |ps| ensures hs[q] == next[q] {
      assert old(Hands(ps))[q] == old(ps[q].hand);
    }
  }

  /** A full round on top of `i` full rounds from `pile` gives `i + 1`: the
      round takes the top `n` cards of what the earlier rounds left, `rest`. */
  lemma DealtHandsNext(pile: seq<Card>, n: nat, i: nat, rest: seq<Card>)
    requires Times(n, i) <= |pile| && rest == pile[Times(n, i)..] && n <= |rest|
    ensures Times(n, i + 1) <= |pile| && rest[n..] == pile[Times(n, i + 1)..]
    ensures DealtHands(pile, n, i + 1) == Appended(DealtHands(pile, n, i), rest[..n])
  {
    FirstDealtHandsAt(pile, n, n, i);
    FirstDealtHandsAt(pile, n, n, i + 1);
    var next, step := DealtHands(pile, n, i + 1), Appended(DealtHands(pile, n, i), rest[..n]);
    forall q | 0 <= q < n ensures next[q] == step[q] {
      assert rest[q] == pile[Times(n, i) + q];
    }
  }

  /** The number of rounds `GameState.New` deals for a requested hand
      size: none when the request is negative. */
  function Rounds(initialCards: int): (r: nat)
    ensures initialCards >= 0 ==> r == initialCards
  {
    if initialCards < 0 then 0 else initialCards
  }

  /** The deal of `GameState.New`: `Rounds(initialCards)` rounds of
      `DealRound`. A draw from an empty pile deals nothing and the deal goes
      on, so a short pile ends up empty with some hands short. */
  method Deal(players: seq<Player>, pile: Deck, initialCards: int)
    requires Unaliased(players)
    requires forall q :: 0 <= q < |players| ==> players[q].hand == []
    modifies pile, players
    ensures var dealt := Times(|players|, Rounds(initialCards));
      dealt <= |old(pile.cards)| ==>
        pile.cards == old(pile.cards)[dealt..] && HandsDealt(players, old(pile.cards), Rounds(initialCards))
    ensures Times(|players|, Rounds(initialCards)) > |old(pile.cards)| ==> pile.cards == []
    ensures multiset(pile.cards) + HandsBag(players) == old(multiset(pile.cards))
  {
    var r := Rounds(initialCards);
    HandsBagOfEmpty(players);
    DealRounds(players, pile, r);
  }

  /** `Player.New` for each id, in order: fresh players with empty hands. */
  method NewPlayers(ids: seq<string>) returns (ps: seq<Player>)
    ensures Unaliased(ps) && IdsOf(ps) == ids
    ensures forall q :: 0 <= q < |ps| ==> fresh(ps[q]) && ps[q].hand == []
  {
    ps := [];
    for i := 0 to |ids|
      invariant Unaliased(ps) && |ps| == i
      invariant forall q :: 0 <= q < i ==> fresh(ps[q]) && ps[q].id == ids[q] && ps[q].hand == []
    {
      var p := new Player(ids[i]);
      assert (ps + [p])[..i] == ps;
      ps := ps + [p];
    }
  }

  /** The hands of `ps`, in roster order. */
  ghost function Hands(ps: seq<Player>): (hs: seq<seq<Card>>)
    reads ps
    ensures |hs| == |ps| && forall i :: 0 <= i < |ps| ==> hs[i] == ps[i].hand
  {
    seq(|ps|, i requires 0 <= i < |ps| reads ps => ps[i].hand)
  }

  /** The players of `Clone`: new objects with the same ids and hands. */
  method ClonePlayers(ps: seq<Player>) returns (qs: seq<Player>)
    ensures Distinct(qs) && forall q :: 0 <= q < |qs| ==> fresh(qs[q])
    ensures IdsOf(qs) == IdsOf(ps) && Hands(qs) == Hands(ps)
    ensures HandsBag(qs) == HandsBag(ps)
  {
    qs := [];
    for i := 0 to |ps|
      invariant Unaliased(qs) && |qs| == i
      invariant forall q :: 0 <= q < i ==> fresh(qs[q]) && qs[q].id == ps[q].id && qs[q].hand == ps[q].hand
    {
      var p := ps[i].Clone();
      assert (qs + [p])[..i] == qs;
      qs := qs + [p];
    }
    assert IdsOf(qs) == IdsOf(ps);
    UnaliasedIsDistinct(qs);
    HandsBagOfSameHands(qs, ps);
  }

  /** Two rosters whose hands agree position by position hold the same cards. */
  lemma {:induction false} HandsBagOfSameHands(ps: seq<Player>, qs: seq<Player>)
    requires Hands(ps) == Hands(qs)
    ensures HandsBag(ps) == HandsBag(qs)
  {
    if ps != [] {
      var n := |ps| - 1;
      assert Hands(ps[..n]) == Hands(ps)[..n] && Hands(qs[..n]) == Hands(qs)[..n];
      HandsBagOfSameHands(ps[..n], qs[..n]);
      assert ps[n].hand == Hands(ps)[n] && qs[n].hand == Hands(qs)[n];
    }
  }

  /** The order in which `GameState.New` finds the pile when it turns up the
      first discard: as it is, unless its top card is wild, in which case
      that card goes under the pile and the pile is shuffled once more. The
      first card of the result is turned up, wild or not. */
  function StarterOrder(s: seq<Card>, rng: nat -> nat): (r: seq<Card>)
    requires IsRandomSource(rng) && s != []
    ensures |r| == |s|
    ensures !IsWildCard(s[0]) ==> r == s
  {
    if !IsWildCard(s[0]) then s else Shuffled(s[1..] + [s[0]], rng)
  }

  /** Turning up the first discard neither creates nor loses a card. */
  lemma StarterOrderPermutes(s: seq<Card>, rng: nat -> nat)
    requires IsRandomSource(rng) && s != []
    ensures multiset(StarterOrder(s, rng)) == multiset(s)
  {
    if IsWildCard(s[0]) {
      ShuffledPermutes(s[1..] + [s[0]], rng);
      assert s == [s[0]] + s[1..];
    }
  }

  /** The draw of the first discard in `GameState.New`, with its one retry.
      The source's "after reshuffle" failure cannot happen: the wild card
      put back leaves the pile non-empty. */
  method TurnUpStarter(pile: Deck, rng: nat -> nat) returns (top: Option<Card>)
    requires IsRandomSource(rng)
    modifies pile
    ensures old(pile.cards) == [] <==> top.None?
    ensures top.None? ==> pile.cards == old(pile.cards)
    ensures top.Some? ==>
      var order := StarterOrder(old(pile.cards), rng);
      top.value == order[0] && pile.cards == order[1..]
    ensures top.Some? ==> multiset(pile.cards) + multiset{top.value} == old(multiset(pile.cards))
  {
    top := pile.Draw();
    if top.None? {
      return;
    }
    if IsWildCard(top.value) {
      pile.AddToBottom(top.value);
      pile.Shuffle(rng);
      ghost var order := pile.cards;
      top := pile.Draw();
      if top.None? {
        assert false;
      }
      assert order == [top.value] + pile.cards;
    } else {
      assert old(pile.cards) == [top.value] + pile.cards;
    }
    StarterOrderPermutes(old(pile.cards), rng);
  }

  /** The steps of `GameState.New` before the state is built: a standard
      deck shuffled by `rng`, a player per id, the deal, and the first
      discard turned up (`None` when the deal left no card). */
  method SetUpTable(playerIds: seq<string>, initialCards: int, rng: nat -> nat, retryRng: nat -> nat)
    returns (players: seq<Player>, drawPile: Deck, top: Option<Card>)
    requires IsRandomSource(rng) && IsRandomSource(retryRng)
    ensures fresh(drawPile) && forall q :: 0 <= q < |players| ==> fresh(players[q])
    ensures Unaliased(players) && IdsOf(players) == playerIds
    ensures top.None? <==> Times(|playerIds|, Rounds(initialCards)) >= 54
    ensures top.Some? ==>
      var dealt := Times(|playerIds|, Rounds(initialCards));
      var order := StarterOrder(Shuffled(StandardDeck(), rng)[dealt..], retryRng);
      && HandSizesAre(players, Rounds(initialCards))
      && HandsDealt(players, Shuffled(StandardDeck(), rng), Rounds(initialCards))
      && top.value == order[0] && drawPile.cards == order[1..]
      && multiset(drawPile.cards) + multiset([top.value]) + HandsBag(players) == multiset(StandardDeck())
  {
    drawPile := ShuffledDeck(rng);
    players := NewPlayers(playerIds);
    top := DealAndTurnUp(players, drawPile, initialCards, retryRng);
    if top.Some? {
      HandsDealtSizes(players, Shuffled(StandardDeck(), rng), Rounds(initialCards));
      assert multiset([top.value]) == multiset{top.value};
    }
  }

  /** The deal, then the first discard turned up from what is left. */
  method DealAndTurnUp(players: seq<Player>, pile: Deck, initialCards: int, rng: nat -> nat)
    returns (top: Option<Card>)
    requires IsRandomSource(rng) && Unaliased(players)
    requires forall q :: 0 <= q < |players| ==> players[q].hand == []
    modifies pile, players
    ensures top.None? <==> Times(|players|, Rounds(initialCards)) >= |old(pile.cards)|
    ensures Times(|players|, Rounds(initialCards)) < |old(pile.cards)| ==>
      HandsDealt(players, old(pile.cards), Rounds(initialCards))
    ensures top.Some? ==>
      var order := StarterOrder(old(pile.cards)[Times(|players|, Rounds(initialCards))..], rng);
      top.value == order[0] && pile.cards == order[1..]
    ensures top.Some? ==>
      multiset(pile.cards) + multiset{top.value} + HandsBag(players) == old(multiset(pile.cards))
  {
    ghost var pile0 := pile.cards;
    ghost var dealt := Times(|players|, Rounds(initialCards));
    Deal(players, pile, initialCards);
    assert pile.cards != [] <==> dealt < |pile0|;
    assert dealt < |pile0| ==> pile.cards == pile0[dealt..];
    ghost var left := pile.cards;
    ghost var hands := HandsBag(players);
    top := TurnUpStarter(pile, rng);
    assert HandsBag(players) == hands;
    if top.Some? {
      PutBack(multiset(pile.cards), top.value, multiset(left), hands, old(multiset(pile.cards)));
    }
  }

  /** `Deck.NewStandardDeck` followed by `Shuffle`. */
  method ShuffledDeck(rng: nat -> nat) returns (pile: Deck)
    requires IsRandomSource(rng)
    ensures fresh(pile)
    ensures pile.cards == Shuffled(StandardDeck(), rng) && |pile.cards| == 54
    ensures multiset(pile.cards) == multiset(StandardDeck())
  {
    pile := Deck.NewStandardDeck();
    pile.Shuffle(rng);
  }

  lemma PutBack(rest: multiset<Card>, top: Card, left: multiset<Card>, hands: multiset<Card>,
                all: multiset<Card>)
    requires rest + multiset{top} == left && left + hands == all
    ensures rest + multiset{top} + hands == all
  {
  }

  class GameState {
    /** The roster, fixed for the life of the game. */
    const players: seq<Player>
    /** Ids still in the rotation; their order is the turn order. */
    var activePlayers: seq<string>
    var currentPlayerId: string
    var direction: Direction
    /** Never reassigned after construction; its cards change in place. */
    const drawPile: Deck
    var discardPile: seq<Card>
    var topCard: Card
    var inAttackChain: bool
    var attackAmount: int
    var lastActiveSuit: Suit
    var lockedTurn: bool

    /** The players are distinct objects, so a move on one hand leaves the
        others alone. */
    ghost predicate Valid() {
      Distinct(players)
    }

    /** The invariants every move preserves: the top card is the last
        discard, a chain is on exactly when a penalty is pending, and a locked turn has a Jack on top and no chain. The public
        constructor does not check them, so they are kept apart from Valid. */
    ghost predicate Consistent()
      reads this`discardPile, this`topCard, this`inAttackChain, this`attackAmount, this`lockedTurn
    {
      && |discardPile| >= 1 && topCard == discardPile[|discardPile| - 1]
      && attackAmount >= 0 && (inAttackChain <==> attackAmount > 0)
      && (lockedTurn ==> IsSuitChanger(topCard) && !inAttackChain)
    }

    /** Every card of the game: draw pile, discard pile and all hands. */
    ghost function AllCards(): multiset<Card>
      reads this`discardPile, drawPile, players
    {
      multiset(drawPile.cards) + multiset(discardPile) + HandsBag(players)
    }

    /** `GameState.New`: a game for `playerIds` in that seat order, dealt
        `initialCards` each from a standard deck shuffled by `rng`, with a
        first discard turned up as `StarterOrder` describes (`retryRng`
        continues the generator for the second shuffle). It fails for fewer
        than two players, and when the deal leaves no card to turn up. */
    static method New(playerIds: seq<string>, initialCards: int, rng: nat -> nat,
                      retryRng: nat -> nat) returns (r: Result<GameState>)
      requires IsRandomSource(rng) && IsRandomSource(retryRng)
      ensures |playerIds| < 2 ==> r == Failure(TooFewPlayers)
      ensures |playerIds| >= 2 ==>
        (r.Failure? <==> Times(|playerIds|, Rounds(initialCards)) >= 54) &&
        (r.Failure? ==> r.error == NoInitialCard)
      ensures r.Success? ==>
        var g := r.value;
        var order := StarterOrder(Shuffled(StandardDeck(), rng)[Times(|playerIds|, Rounds(initialCards))..],
                                  retryRng);
        && fresh(g) && fresh(g.drawPile)
        && (forall q :: 0 <= q < |g.players| ==> fresh(g.players[q]))
        && g.Valid() && g.Consistent()
        && IdsOf(g.players) == playerIds && HandSizesAre(g.players, Rounds(initialCards))
        && HandsDealt(g.players, Shuffled(StandardDeck(), rng), Rounds(initialCards))
        && g.activePlayers == playerIds && g.currentPlayerId == playerIds[0]
        && g.direction == Clockwise && !g.inAttackChain && g.attackAmount == 0 && !g.lockedTurn
        && g.discardPile == [g.topCard] && g.lastActiveSuit == g.topCard.suit
        && g.topCard == order[0] && g.drawPile.cards == order[1..]
        && g.AllCards() == multiset(StandardDeck())
    {
      if |playerIds| < 2 {
        return Failure(TooFewPlayers);
      }
      var players, drawPile, top := SetUpTable(playerIds, initialCards, rng, retryRng);
      if top.None? {
        return Failure(NoInitialCard);
      }
      UnaliasedIsDistinct(players);
      var g := new GameState(players, playerIds, playerIds[0], Clockwise, drawPile, [top.value],
                             top.value, false, 0, Some(top.value.suit), false);
      return Success(g);
    }

    /** `Clone`: a deep copy. The players and the draw pile are new objects
        holding the same ids and cards, the lists are copied, and every other
        field is taken over as it is. */
    method Clone() returns (c: GameState)
      ensures fresh(c) && fresh(c.drawPile) && c.Valid()
      ensures forall q :: 0 <= q < |c.players| ==> fresh(c.players[q])
      ensures IdsOf(c.players) == IdsOf(players) && Hands(c.players) == Hands(players)
      ensures c.activePlayers == activePlayers && c.currentPlayerId == currentPlayerId
      ensures c.direction == direction && c.drawPile.cards == drawPile.cards
      ensures c.discardPile == discardPile && c.topCard == topCard
      ensures c.inAttackChain == inAttackChain && c.attackAmount == attackAmount
      ensures c.lastActiveSuit == lastActiveSuit && c.lockedTurn == lockedTurn
      ensures c.AllCards() == AllCards()
      ensures Consistent() ==> c.Consistent()
    {
      var pile := drawPile.Clone();
      var ps := ClonePlayers(players);
      c := new GameState(ps, activePlayers, currentPlayerId, direction, pile, discardPile, topCard,
                         inAttackChain, attackAmount, Some(lastActiveSuit), lockedTurn);
      SameCardsSameState(this, c);
    }

    /** Two games whose piles, hands and chain fields agree hold the same
        cards and are consistent together. */
    static lemma SameCardsSameState(a: GameState, b: GameState)
      requires a.drawPile.cards == b.drawPile.cards && a.discardPile == b.discardPile
      requires HandsBag(a.players) == HandsBag(b.players)
      requires a.topCard == b.topCard && a.inAttackChain == b.inAttackChain
      requires a.attackAmount == b.attackAmount && a.lockedTurn == b.lockedTurn
      ensures a.AllCards() == b.AllCards()
      ensures a.Consistent() <==> b.Consistent()
    {
    }

    /** `FindPlayerById`: the roster position of the first player with this
        id, or -1. */
    function PlayerIndex(id: string): (k: int)
      ensures -1 <= k < |players|
      ensures k >= 0 ==> players[k].id == id
      ensures k >= 0 ==> forall i :: 0 <= i < k ==> players[i].id != id
      ensures k == -1 <==> forall i :: 0 <= i < |players| ==> players[i].id != id
    {
      IndexOf(IdsOf(players), id)
    }

    ghost function HandOf(id: string): Option<seq<Card>>
      reads players
    {
      var k := PlayerIndex(id);
      if k < 0 then None else Some(players[k].hand)
    }

    /** `FindPlayerById`: the first player with this id, or nothing. */
    function FindPlayerById(id: string): (r: Option<Player>)
      reads this
      ensures r.None? <==> forall i :: 0 <= i < |players| ==> players[i].id != id
      ensures r.Some? ==> r.value in players && r.value.id == id
    {
      var k := PlayerIndex(id);
      if k < 0 then None else Some(players[k])
    }

    /** `CurrentPlayer`: the player whose turn it is, if the roster has one. */
    function CurrentPlayer(): (r: Option<Player>)
      reads this
      ensures r.Some? ==> r.value in players && r.value.id == currentPlayerId
      ensures r.None? <==> currentPlayerId !in IdsOf(players)
    {
      FindPlayerById(currentPlayerId)
    }

    /** `NextPlayer`: nothing while at most one player is left, otherwise the
        player `AdvanceTurn` would hand the turn to, if the roster has one. */
    function NextPlayer(): (r: Option<Player>)
      reads this
      ensures |activePlayers| <= 1 ==> r.None?
      ensures r.Some? ==> r.value in players && r.value.id == Advance(activePlayers, currentPlayerId, direction)
      ensures |activePlayers| >= 2 && Advance(activePlayers, currentPlayerId, direction) in IdsOf(players) ==>
        r.Some?
    {
      if |activePlayers| <= 1 then None
      else FindPlayerById(activePlayers[NextPlayerIndex()])
    }

    predicate IsPlayerActive(playerId: string)
      reads this
    {
      playerId in activePlayers
    }

    /** The `GameState` constructor: takes the parts as given. */
    constructor (players: seq<Player>, activePlayerIds: seq<string>, currentPlayerId: string,
                 direction: Direction, drawPile: Deck, discardPile: seq<Card>, topCard: Card,
                 inAttackChain: bool, attackAmount: int, lastActiveSuit: Option<Suit>,
                 lockedTurn: bool)
      requires Distinct(players)
      ensures Valid()
      ensures this.players == players && this.activePlayers == activePlayerIds
      ensures this.currentPlayerId == currentPlayerId && this.direction == direction
      ensures this.drawPile == drawPile && this.discardPile == discardPile
      ensures this.topCard == topCard && this.inAttackChain == inAttackChain
      ensures this.attackAmount == attackAmount && this.lockedTurn == lockedTurn
      ensures this.lastActiveSuit == if lastActiveSuit.Some? then lastActiveSuit.value else topCard.suit
    {
      this.players := players;
      this.activePlayers := activePlayerIds;
      this.currentPlayerId := currentPlayerId;
      this.direction := direction;
      this.drawPile := drawPile;
      this.discardPile := discardPile;
      this.topCard := topCard;
      this.inAttackChain := inAttackChain;
      this.attackAmount := attackAmount;
      this.lastActiveSuit := if lastActiveSuit.Some? then lastActiveSuit.value else topCard.suit;
      this.lockedTurn := lockedTurn;
    }

    function NextPlayerIndex(): (r: int)
      reads this
      ensures |activePlayers| >= 1 ==> 0 <= r < |activePlayers|
    {
      NextIndex(activePlayers, currentPlayerId, direction)
    }

    method AdvanceTurn()
      modifies this`currentPlayerId
      ensures currentPlayerId == Advance(activePlayers, old(currentPlayerId), direction)
    {
      if |activePlayers| <= 1 {
        return;
      }
      currentPlayerId := activePlayers[NextPlayerIndex()];
    }

    /** The Ace's effect: advance twice, unless two players or fewer remain. */
    method SkipNextPlayer()
      modifies this`currentPlayerId
      ensures currentPlayerId == Skip(activePlayers, old(currentPlayerId), direction)
    {
      if |activePlayers| <= 2 {
        return;
      }
      AdvanceTurn();
      AdvanceTurn();
    }

    method ProcessCardEffect(card: Card)
      modifies this`currentPlayerId, this`lockedTurn
      ensures var (next, locks) := CardEffect(card, inAttackChain, activePlayers,
                                               old(currentPlayerId), direction);
        currentPlayerId == next && lockedTurn == (old(lockedTurn) || locks)
    {
      if IsSkip(card) {
        SkipNextPlayer();
      } else if IsWildCard(card) && inAttackChain {
        AdvanceTurn();
      } else if IsSuitChanger(card) {
        LockTurn();
      } else if !inAttackChain {
        AdvanceTurn();
      }
    }

    method LockTurn()
      modifies this`lockedTurn
      ensures lockedTurn
    {
      lockedTurn := true;
    }

    method UnlockTurn()
      modifies this`lockedTurn
      ensures !lockedTurn
    {
      lockedTurn := false;
    }

    /** `RemovePlayerFromActive`: `List.Remove`, the first occurrence only;
        in a rotation without repeated ids the player is no longer active
        afterwards and nobody else left. */
    method RemovePlayerFromActive(playerId: string)
      modifies this`activePlayers
      ensures activePlayers == RemoveFirst(old(activePlayers), playerId)
      ensures Distinct(old(activePlayers)) ==>
        !IsPlayerActive(playerId) && Distinct(activePlayers) &&
        forall x :: x != playerId ==> (x in activePlayers <==> x in old(activePlayers))
    {
      if Distinct(activePlayers) {
        RemoveFirstOfDistinct(activePlayers, playerId);
      }
      activePlayers := RemoveFirst(activePlayers, playerId);
    }

    /** The hands of every player other than the `k`-th are as they were. */
    twostate predicate OtherHandsUnchanged(k: int)
      reads players
    {
      HandsKept(players, k)
    }

    /** The draw pile, the discard pile and the `k`-th hand hold, together,
        the same cards as before: cards only moved among the three. */
    twostate predicate CardsKeptWith(k: nat)
      requires k < |players|
      reads this`discardPile, drawPile, players
    {
      multiset(drawPile.cards) + multiset(discardPile) + multiset(players[k].hand) ==
      old(multiset(drawPile.cards) + multiset(discardPile) + multiset(players[k].hand))
    }

    /** A move that only moves cards between the piles and the `k`-th hand
        neither creates nor loses a card of the game. */
    twostate lemma CardsConserved(k: nat)
      requires Valid() && k < |players|
      requires OtherHandsUnchanged(k) && CardsKeptWith(k)
      ensures AllCards() == old(AllCards())
    {
      HandsBagOneChange(players, k);
      var piles, piles0 := multiset(drawPile.cards) + multiset(discardPile),
                           old(multiset(drawPile.cards) + multiset(discardPile));
      var h, h0 := multiset(players[k].hand), old(multiset(players[k].hand));
      calc {
        AllCards() + h0;
        piles + (HandsBag(players) + h0);
        piles + (old(HandsBag(players)) + h);
        (piles + h) + old(HandsBag(players));
        (piles0 + h0) + old(HandsBag(players));
        old(AllCards()) + h0;
      }
      var now, before := AllCards(), old(AllCards());
      forall c ensures now[c] == before[c] {
        assert (now + h0)[c] == (before + h0)[c];
      }
    }

    /** What an accepted play of `card` by the `k`-th player does: the card
        leaves the hand for the discard pile, the chain and the suit are
        updated, the turn moves (or locks) by `CardEffect`, and a player who
        has run out of cards leaves the rotation. */
    twostate predicate Played(k: nat, card: Card)
      requires k < |players|
      reads this, players
    {
      var hand := RemoveFirst(old(players[k].hand), card);
      var inChain := old(inAttackChain) || IsWildCard(card);
      && players[k].hand == hand
      && discardPile == old(discardPile) + [card] && topCard == card
      && lastActiveSuit == (if IsJoker(card) then old(lastActiveSuit) else card.suit)
      && inAttackChain == inChain
      && attackAmount == (if !IsWildCard(card) then old(attackAmount)
                          else if old(inAttackChain) then old(attackAmount) + DrawPenalty(card)
                          else DrawPenalty(card))
      && (currentPlayerId, lockedTurn) ==
           CardEffect(card, inChain, old(activePlayers), old(currentPlayerId), direction)
      && activePlayers == (if hand == [] then RemoveFirst(old(activePlayers), players[k].id)
                           else old(activePlayers))
      && direction == old(direction)
    }

    method PlayCard(playerId: string, card: Card) returns (err: Option<string>)
      requires Valid()
      modifies this, players
      ensures err == old(PlayError(currentPlayerId, lockedTurn, HandOf(playerId), topCard,
                                   inAttackChain, playerId, card))
      ensures err.Some? ==> unchanged(this) && OtherHandsUnchanged(-1)
      ensures err.None? ==>
        var k := PlayerIndex(playerId);
        0 <= k && Played(k, card) && OtherHandsUnchanged(k)
      ensures AllCards() == old(AllCards())
      ensures old(Consistent()) ==> Consistent()
    {
      if playerId != currentPlayerId {
        return Some(NotYourTurn);
      }
      if lockedTurn {
        return Some(TurnIsLocked);
      }
      var k := PlayerIndex(playerId);
      if k < 0 {
        return Some(PlayerNotFound);
      }
      var player := players[k];
      if !player.HasCard(card) {
        return Some(CardNotInHand);
      }
      if !CanPlayCardOn(card, topCard, inAttackChain) {
        return Some(InvalidPlay);
      }
      // The source checks "inAttackChain && !card.IsWildCard()" here, which
      // the rule above has already excluded.
      AttackChainRule(card, topCard);
      assert !(inAttackChain && !IsWildCard(card));
      ApplyPlay(k, card);
      CardsConserved(k);
      return None;
    }

    /** The effect of a play that passed every check. */
    method ApplyPlay(k: nat, card: Card)
      requires Valid() && k < |players| && card in players[k].hand
      requires !lockedTurn && players[k].id == currentPlayerId
      requires inAttackChain ==> IsWildCard(card)
      modifies this, players[k]
      ensures Played(k, card) && CardsKeptWith(k)
      ensures old(Consistent()) ==> Consistent()
    {
      MoveToDiscard(k, card);
      EndPlay(card, players[k]);
    }

    /** The end of an accepted play: the card's effect on the turn, then the
        player leaves the rotation if their hand is empty. */
    method EndPlay(card: Card, player: Player)
      modifies this`currentPlayerId, this`lockedTurn, this`activePlayers
      ensures (currentPlayerId, lockedTurn) ==
        (CardEffect(card, inAttackChain, old(activePlayers), old(currentPlayerId), direction).0,
         old(lockedTurn) || CardEffect(card, inAttackChain, old(activePlayers),
                                       old(currentPlayerId), direction).1)
      ensures activePlayers == (if player.hand == [] then RemoveFirst(old(activePlayers), player.id)
                                else old(activePlayers))
    {
      ProcessCardEffect(card);
      if player.HasEmptyHand() {
        RemovePlayerFromActive(player.id);
      }
    }

    /** The bookkeeping of an accepted play: the card leaves the hand for
        the discard pile, sets the suit unless it is a joker, and starts or
        extends an attack chain if it is wild. */
    method MoveToDiscard(k: nat, card: Card)
      requires Valid() && k < |players| && card in players[k].hand
      modifies players[k], this`discardPile, this`topCard, this`lastActiveSuit,
               this`inAttackChain, this`attackAmount
      ensures players[k].hand == RemoveFirst(old(players[k].hand), card)
      ensures discardPile == old(discardPile) + [card] && topCard == card
      ensures lastActiveSuit == (if IsJoker(card) then old(lastActiveSuit) else card.suit)
      ensures inAttackChain == (old(inAttackChain) || IsWildCard(card))
      ensures attackAmount == (if !IsWildCard(card) then old(attackAmount)
                               else if old(inAttackChain) then old(attackAmount) + DrawPenalty(card)
                               else DrawPenalty(card))
      ensures CardsKeptWith(k)
    {
      var removed := players[k].RemoveFromHand(card);
      discardPile := discardPile + [card];
      topCard := card;
      if !IsJoker(card) {
        lastActiveSuit := card.suit;
      }
      if IsWildCard(card) {
        if inAttackChain {
          attackAmount := attackAmount + DrawPenalty(card);
        } else {
          inAttackChain := true;
          attackAmount := DrawPenalty(card);
        }
      }
    }

    method ReshuffleDiscardPile(rng: nat -> nat) returns (err: Option<string>)
      requires IsRandomSource(rng)
      modifies this`discardPile, drawPile
      ensures |old(discardPile)| <= 1 ==>
        err == Some(NotEnoughToReshuffle) && discardPile == old(discardPile) &&
        drawPile.cards == old(drawPile.cards)
      ensures |old(discardPile)| > 1 ==>
        var n := |old(discardPile)|;
        && err == None
        && discardPile == [old(discardPile)[n - 1]]
        && drawPile.cards == Shuffled(old(drawPile.cards) + old(discardPile)[..n - 1], rng)
      ensures multiset(drawPile.cards) + multiset(discardPile) ==
              old(multiset(drawPile.cards) + multiset(discardPile))
    {
      if |discardPile| <= 1 {
        return Some(NotEnoughToReshuffle);
      }
      var n := |discardPile|;
      var keep := discardPile[n - 1];
      drawPile.AddManyToBottom(discardPile[..n - 1]);
      assert discardPile == discardPile[..n - 1] + [keep];
      discardPile := [keep];
      drawPile.Shuffle(rng);
      return None;
    }

    /** One card from the draw pile into `player`'s hand, after turning the
        discard pile into a new draw pile if the draw pile is empty. The
        source's "Failed to draw card" cannot happen: a reshuffle that
        succeeds leaves at least one card to draw. */
    method DrawOne(player: Player, rng: nat -> nat) returns (err: Option<string>)
      requires IsRandomSource(rng)
      modifies this`discardPile, drawPile, player
      ensures err.Some? ==>
        && err == Some(NotEnoughToReshuffle) && old(drawPile.cards) == [] && |old(discardPile)| <= 1
        && discardPile == old(discardPile) && drawPile.cards == old(drawPile.cards)
        && player.hand == old(player.hand)
      ensures err.None? ==> |player.hand| == |old(player.hand)| + 1 && old(player.hand) <= player.hand
      ensures old(drawPile.cards) != [] ==>
        && err.None? && player.hand == old(player.hand) + [old(drawPile.cards)[0]]
        && drawPile.cards == old(drawPile.cards)[1..] && discardPile == old(discardPile)
      ensures multiset(drawPile.cards) + multiset(discardPile) + multiset(player.hand) ==
              old(multiset(drawPile.cards) + multiset(discardPile) + multiset(player.hand))
      ensures |old(discardPile)| >= 1 ==>
        |discardPile| >= 1 && discardPile[|discardPile| - 1] == old(discardPile)[|old(discardPile)| - 1]
    {
      if drawPile.IsEmpty() {
        err := ReshuffleDiscardPile(rng);
        if err.Some? {
          return;
        }
        ShuffledPermutes(old(drawPile.cards) + old(discardPile)[..|old(discardPile)| - 1], rng);
      }
      ghost var pile := drawPile.cards;
      var card := drawPile.Draw();
      assert card.Some?;
      assert pile == [card.value] + drawPile.cards;
      player.AddToHand(card.value);
      return None;
    }

    method DrawCard(playerId: string, rng: nat -> nat) returns (err: Option<string>)
      requires Valid() && IsRandomSource(rng)
      modifies this`discardPile, this`inAttackChain, this`attackAmount, this`currentPlayerId,
               drawPile, players
      ensures playerId != old(currentPlayerId) ==>
        err == Some(NotYourTurn) && unchanged(this, drawPile) && OtherHandsUnchanged(-1)
      ensures playerId == old(currentPlayerId) && PlayerIndex(playerId) < 0 ==>
        err == Some(PlayerNotFound) && unchanged(this, drawPile) && OtherHandsUnchanged(-1)
      ensures err.Some? ==> err.value in {NotYourTurn, PlayerNotFound, NotEnoughToReshuffle}
      ensures err == Some(NotEnoughToReshuffle) ==>
        && currentPlayerId == old(currentPlayerId)
        && inAttackChain == old(inAttackChain) && attackAmount == old(attackAmount)
      ensures err.None? || err == Some(NotEnoughToReshuffle) ==>
        var k := PlayerIndex(playerId);
        0 <= k && old(players[k].hand) <= players[k].hand && OtherHandsUnchanged(k)
      ensures err.None? ==>
        var k := PlayerIndex(playerId);
        var n := DrawCount(old(inAttackChain), old(attackAmount));
        && |players[k].hand| == |old(players[k].hand)| + n
        && (|old(drawPile.cards)| >= n ==>
              && players[k].hand == old(players[k].hand) + old(drawPile.cards)[..n]
              && drawPile.cards == old(drawPile.cards)[n..]
              && discardPile == old(discardPile))
        && !inAttackChain && attackAmount == (if old(inAttackChain) then 0 else old(attackAmount))
        && currentPlayerId == Advance(activePlayers, old(currentPlayerId), direction)
      ensures AllCards() == old(AllCards())
      ensures old(Consistent()) ==> Consistent()
    {
      if playerId != currentPlayerId {
        return Some(NotYourTurn);
      }
      var k := PlayerIndex(playerId);
      if k < 0 {
        return Some(PlayerNotFound);
      }
      err := DrawTurn(k, rng);
      CardsConserved(k);
    }

    /** `DrawCard` once the player is known: the source draws one card, then
        the rest of the penalty if a chain is on (`DrawCount` cards in all),
        ends the chain and passes the turn. */
    method DrawTurn(k: nat, rng: nat -> nat) returns (err: Option<string>)
      requires k < |players| && IsRandomSource(rng)
      modifies this`discardPile, this`inAttackChain, this`attackAmount, this`currentPlayerId,
               drawPile, players[k]
      ensures err.Some? ==>
        && err == Some(NotEnoughToReshuffle) && currentPlayerId == old(currentPlayerId)
        && inAttackChain == old(inAttackChain) && attackAmount == old(attackAmount)
      ensures old(players[k].hand) <= players[k].hand
      ensures err.None? ==>
        var n := DrawCount(old(inAttackChain), old(attackAmount));
        && |players[k].hand| == |old(players[k].hand)| + n
        && (|old(drawPile.cards)| >= n ==>
              && players[k].hand == old(players[k].hand) + old(drawPile.cards)[..n]
              && drawPile.cards == old(drawPile.cards)[n..]
              && discardPile == old(discardPile))
        && !inAttackChain && attackAmount == (if old(inAttackChain) then 0 else old(attackAmount))
        && currentPlayerId == Advance(activePlayers, old(currentPlayerId), direction)
      ensures CardsKeptWith(k)
      ensures |old(discardPile)| >= 1 ==>
        |discardPile| >= 1 && discardPile[|discardPile| - 1] == old(discardPile)[|old(discardPile)| - 1]
    {
      var n := if inAttackChain && attackAmount >= 1 then attackAmount else 1;
      err := DrawInto(players[k], n, rng);
      if err.Some? {
        return;
      }
      if inAttackChain {
        inAttackChain := false;
        attackAmount := 0;
      }
      AdvanceTurn();
      return None;
    }

    /** Draws `n` cards one by one into `player`'s hand, reshuffling the
        discard pile whenever the draw pile runs out; stops at the first
        reshuffle that fails, keeping the cards already drawn. */
    method DrawInto(player: Player, n: nat, rng: nat -> nat) returns (err: Option<string>)
      requires IsRandomSource(rng)
      modifies this`discardPile, drawPile, player
      ensures err.Some? ==> err == Some(NotEnoughToReshuffle)
      ensures old(player.hand) <= player.hand
      ensures err.None? ==> |player.hand| == |old(player.hand)| + n
      ensures |old(drawPile.cards)| >= n ==>
        && err.None?
        && player.hand == old(player.hand) + old(drawPile.cards)[..n]
        && drawPile.cards == old(drawPile.cards)[n..]
        && discardPile == old(discardPile)
      ensures multiset(drawPile.cards) + multiset(discardPile) + multiset(player.hand) ==
              old(multiset(drawPile.cards) + multiset(discardPile) + multiset(player.hand))
      ensures |old(discardPile)| >= 1 ==>
        |discardPile| >= 1 && discardPile[|discardPile| - 1] == old(discardPile)[|old(discardPile)| - 1]
    {
      ghost var pile0, hand0, discard0 := drawPile.cards, player.hand, discardPile;
      ghost var total := multiset(pile0) + multiset(discard0) + multiset(hand0);
      var i := 0;
      while i < n
        invariant 0 <= i <= n
        invariant |player.hand| == |hand0| + i && hand0 <= player.hand
        invariant multiset(drawPile.cards) + multiset(discardPile) + multiset(player.hand) == total
        invariant |pile0| >= n ==> player.hand == hand0 + pile0[..i]
        invariant |pile0| >= n ==> drawPile.cards == pile0[i..] && discardPile == discard0
        invariant |discard0| >= 1 ==>
          |discardPile| >= 1 && discardPile[|discardPile| - 1] == discard0[|discard0| - 1]
      {
        err := DrawOne(player, rng);
        if err.Some? {
          return;
        }
        if |pile0| >= n {
          TakeOneMore(pile0, i);
        }
        i := i + 1;
      }
      return None;
    }

    method ChangeSuit(playerId: string, newSuit: Suit) returns (err: Option<string>)
      modifies this`lastActiveSuit, this`lockedTurn, this`currentPlayerId
      ensures err == old(ChangeSuitError(currentPlayerId, lockedTurn, topCard, playerId, newSuit))
      ensures err.Some? ==> unchanged(this)
      ensures err.None? ==>
        && lastActiveSuit == newSuit && !lockedTurn
        && currentPlayerId == Advance(activePlayers, old(currentPlayerId), direction)
      ensures old(Consistent()) ==> Consistent()
    {
      if playerId != currentPlayerId {
        return Some(NotYourTurn);
      }
      if !lockedTurn {
        return Some(TurnIsNotLocked);
      }
      if !IsValidSuit(newSuit) {
        return Some(InvalidSuit);
      }
      if !IsSuitChanger(topCard) {
        return Some(NotAfterJack);
      }
      lastActiveSuit := newSuit;
      UnlockTurn();
      AdvanceTurn();
      return None;
    }

    predicate IsGameOver()
      reads this
    {
      |activePlayers| <= 1
    }

    function GetWinners(): seq<string>
      reads players
    {
      Winners(players)
    }

    /** The last player still holding cards, or "" while the game goes on. */
    function GetLoser(): (r: string)
      reads this
      ensures |activePlayers| == 1 ==> r == activePlayers[0] && IsGameOver()
      ensures |activePlayers| != 1 ==> r == ""
    {
      if |activePlayers| == 1 then activePlayers[0] else ""
    }
  }
}
