/** A player's hand, and the rule that decides which card may be played on
    which. */
module Players {
  import opened Wrappers
  import opened Lists
  import opened Cards

  /** `Player.CanPlayCardOn`: whether `played` may go on `top`. */
  predicate CanPlayCardOn(played: Card, top: Card, inAttackChain: bool) {
    if inAttackChain then
      // only a wild card answers a wild card
      IsWildCard(top) && IsWildCard(played)
    else if IsTransparent(played) || IsSuitChanger(played) then true
    else if IsWildCard(played) && IsWildCard(top) then true
    else if played.suit == top.suit || played.rank == top.rank then true
    else IsJoker(played) && top.color == played.color
  }

  /** Inside an attack chain only a wild card on a wild card is legal. */
  lemma AttackChainRule(played: Card, top: Card)
    ensures CanPlayCardOn(played, top, true) <==> IsWildCard(played) && IsWildCard(top)
    ensures !IsWildCard(played) ==> !CanPlayCardOn(played, top, true)
  {
  }

  /** Outside a chain the rule is a disjunction of the ways a card can match,
      Twos and Jacks match everything, and whatever defends a chain is also
      legal outside one. */
  lemma OutsideChainRule(played: Card, top: Card)
    ensures CanPlayCardOn(played, top, false) <==>
      || IsTransparent(played) || IsSuitChanger(played)
      || (IsWildCard(played) && IsWildCard(top))
      || played.suit == top.suit || played.rank == top.rank
      || (IsJoker(played) && played.color == top.color)
    ensures IsTransparent(played) || IsSuitChanger(played) ==> CanPlayCardOn(played, top, false)
    ensures CanPlayCardOn(played, top, true) ==> CanPlayCardOn(played, top, false)
  {
  }

  /** The cards of `hand` that may go on `top`, in hand order. */
  function Playable(hand: seq<Card>, top: Card, inAttackChain: bool): (r: seq<Card>)
    ensures |r| <= |hand|
  {
    if hand == [] then []
    else
      var last := hand[|hand| - 1];
      Playable(hand[..|hand| - 1], top, inAttackChain)
        + (if CanPlayCardOn(last, top, inAttackChain) then [last] else [])
  }

  /** The playable cards are exactly the legal cards of the hand, each as many
      times as the hand holds it, and nothing else. */
  lemma {:induction false} PlayableCounts(hand: seq<Card>, top: Card, inAttackChain: bool, c: Card)
    ensures multiset(Playable(hand, top, inAttackChain))[c] ==
      if CanPlayCardOn(c, top, inAttackChain) then multiset(hand)[c] else 0
  {
    if hand != [] {
      var init, last := hand[..|hand| - 1], hand[|hand| - 1];
      assert hand == init + [last];
      PlayableCounts(init, top, inAttackChain, c);
    }
  }

  /** How `HasMatchingCard` judges one hand card against `card`. */
  predicate Matches(handCard: Card, card: Card, includeWildCards: bool) {
    || IsTransparent(handCard)
    || (includeWildCards && IsWildCard(handCard) && IsWildCard(card))
    || handCard.suit == card.suit || handCard.rank == card.rank
    || (IsJoker(handCard) && card.color == handCard.color)
  }

  /** A matching card (wild cards included) is playable outside a chain, and
      a playable card that is not a Jack is a matching card: the two rules
      differ only in the Jack. */
  lemma MatchesAgreesWithRule(handCard: Card, card: Card)
    ensures Matches(handCard, card, true) ==> CanPlayCardOn(handCard, card, false)
    ensures CanPlayCardOn(handCard, card, false) && !IsSuitChanger(handCard) ==>
      Matches(handCard, card, true)
  {
  }

  class Player {
    const id: string
    var hand: seq<Card>

    /** `Player.New`: a player with an empty hand. */
    constructor (id: string)
      ensures this.id == id && hand == []
    {
      this.id := id;
      hand := [];
    }

    method AddToHand(card: Card)
      modifies this
      ensures hand == old(hand) + [card]
    {
      hand := hand + [card];
    }

    method AddCardsToHand(cards: seq<Card>)
      modifies this
      ensures hand == old(hand) + cards
    {
      hand := hand + cards;
    }

    /** `Player.HasCard`: some card of the hand equals `card`. */
    predicate HasCard(card: Card)
      reads this
      ensures HasCard(card) <==> card in hand
    {
      exists k :: 0 <= k < |hand| && Equals(hand[k], card)
    }

    /** Removes the first card equal to `card`; reports failure, and changes
        nothing, when there is none. */
    method RemoveFromHand(card: Card) returns (removed: Option<Card>)
      modifies this
      ensures removed.Some? <==> old(HasCard(card))
      ensures removed.Some? ==> removed.value == card
      ensures hand == RemoveFirst(old(hand), card)
      ensures multiset(hand) == multiset(old(hand)) - multiset{card}
    {
      var i := 0;
      while i < |hand|
        invariant 0 <= i <= |hand|
        invariant hand == old(hand)
        invariant card !in hand[..i]
      {
        if Equals(hand[i], card) {
          assert IndexOf(hand, card) == i;
          hand := hand[..i] + hand[i + 1..];
          return Some(card);
        }
        i := i + 1;
      }
      assert hand[..i] == hand;
      return None;
    }

    /** `Player.HasMatchingCard`: a scan that stops at the first hand card
        that matches. */
    method HasMatchingCard(card: Card, includeWildCards: bool) returns (r: bool)
      ensures r <==> exists k :: 0 <= k < |hand| && Matches(hand[k], card, includeWildCards)
      ensures (exists k :: 0 <= k < |hand| && IsTransparent(hand[k])) ==> r
      ensures hand == [] ==> !r
    {
      for i := 0 to |hand|
        invariant forall k :: 0 <= k < i ==> !Matches(hand[k], card, includeWildCards)
      {
        var handCard := hand[i];
        if IsTransparent(handCard) {
          return true;
        }
        if includeWildCards && IsWildCard(handCard) && IsWildCard(card) {
          return true;
        }
        if handCard.suit == card.suit || handCard.rank == card.rank {
          return true;
        }
        if IsJoker(handCard) && card.color == handCard.color {
          return true;
        }
      }
      return false;
    }

    /** `Player.GetPlayableCards`: the hand filtered through the rule. */
    method GetPlayableCards(card: Card, inAttackChain: bool) returns (playable: seq<Card>)
      ensures playable == Playable(hand, card, inAttackChain)
    {
      playable := [];
      for i := 0 to |hand|
        invariant playable == Playable(hand[..i], card, inAttackChain)
      {
        assert hand[..i + 1][..i] == hand[..i];
        if CanPlayCardOn(hand[i], card, inAttackChain) {
          playable := playable + [hand[i]];
        }
      }
      assert hand[..|hand|] == hand;
    }

    function HandSize(): (n: nat)
      reads this
      ensures n == |hand|
    {
      |hand|
    }

    predicate HasEmptyHand()
      reads this
      ensures HasEmptyHand() <==> HandSize() == 0
    {
      |hand| == 0
    }

    /** A new player with the same id and the same cards. */
    method Clone() returns (p: Player)
      ensures fresh(p)
      ensures p.id == id && p.hand == hand
    {
      p := new Player(id);
      p.AddCardsToHand(hand);
    }

    method ClearHand()
      modifies this
      ensures hand == []
    {
      hand := [];
    }
  }

  /** Whenever `HasMatchingCard` (wild cards included) answers yes outside a
      chain, `GetPlayableCards` offers at least one card. */
  lemma {:induction false} MatchingImpliesPlayable(hand: seq<Card>, top: Card, k: nat)
    requires k < |hand| && Matches(hand[k], top, true)
    ensures Playable(hand, top, false) != []
  {
    MatchesAgreesWithRule(hand[k], top);
    PlayableCounts(hand, top, false, hand[k]);
    assert hand[k] in multiset(hand);
  }
}
