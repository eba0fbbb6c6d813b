/** An ordered pile of cards whose front is the top: the draw pile of a game. */
module Decks {
  import opened Wrappers
  import opened Lists
  import opened Cards

  /** A source of `Random.Next(i + 1)`: for each position `i` it picks some
      `j` with `0 <= j <= i`. Any such choice is allowed, so every property
      proved about a shuffle holds for every outcome of the generator. */
  ghost predicate IsRandomSource(rng: nat -> nat) {
    forall i: nat :: rng(i) <= i
  }

  /** The card at position `i` of a fresh standard deck: suit-major,
      rank-ascending, then the red and the black joker. */
  function StandardCardAt(i: nat): (c: Card)
    requires i < 54
    ensures WellFormed(c)
  {
    if i < 52 then
      var k := SuitIndexAt(i);
      NewCard(OrdinarySuits[k], AllRanks[i - 13 * k]).value
    else if i == 52 then NewRedJoker()
    else NewBlackJoker()
  }

  /** Which block of 13 position `i` falls in. */
  function SuitIndexAt(i: nat): (k: nat)
    requires i < 52
    ensures k < 4 && 13 * k <= i < 13 * k + 13
  {
    if i < 13 then 0 else if i < 26 then 1 else if i < 39 then 2 else 3
  }

  function StandardDeck(): (d: seq<Card>)
    ensures |d| == 54
  {
    seq(54, i requires 0 <= i < 54 => StandardCardAt(i))
  }

  /** Where a well-formed card sits in the standard deck. */
  function StandardPosition(c: Card): (p: nat)
    requires WellFormed(c)
    ensures p < 54
  {
    if c == NewRedJoker() then 52
    else if c == NewBlackJoker() then 53
    else SuitIndex(c.suit) * 13 + RankValue(c.rank.value) - 1
  }

  function SuitIndex(s: Suit): (k: nat)
    requires s != Joker
    ensures k < 4 && OrdinarySuits[k] == s
  {
    match s
    case Spades => 0 case Hearts => 1 case Diamonds => 2 case Clubs => 3
  }

  lemma PositionOfStandardCard(i: nat)
    requires i < 54
    ensures StandardPosition(StandardCardAt(i)) == i
  {
    if i < 52 {
      var c := StandardCardAt(i);
      var k := SuitIndexAt(i);
      assert c.suit == OrdinarySuits[k] && c.rank == Some(AllRanks[i - 13 * k]);
      assert SuitIndex(c.suit) == k;
      assert RankValue(AllRanks[i - 13 * k]) == i - 13 * k + 1;
    }
  }

  lemma StandardCardAtPosition(c: Card)
    requires WellFormed(c)
    ensures StandardCardAt(StandardPosition(c)) == c
  {
    if c.suit != Joker {
      var p := StandardPosition(c);
      var k := SuitIndex(c.suit);
      var v := RankValue(c.rank.value);
      assert p == k * 13 + (v - 1);
      assert SuitIndexAt(p) == k;
    }
  }

  /** The standard deck holds every well-formed card exactly once, and
      nothing else: 4 suits x 13 ranks and the two jokers. */
  lemma {:induction false} StandardDeckContents(c: Card)
    ensures multiset(StandardDeck())[c] == if WellFormed(c) then 1 else 0
  {
    var d := StandardDeck();
    assert Distinct(d) by {
      forall i, j | 0 <= i < j < 54 ensures d[i] != d[j] {
        PositionOfStandardCard(i);
        PositionOfStandardCard(j);
      }
    }
    DistinctCount(d, c);
    if WellFormed(c) {
      StandardCardAtPosition(c);
      assert d[StandardPosition(c)] == c;
    }
  }

  /** Cards come suit by suit (Spades, Hearts, Diamonds, Clubs), each suit
      in ascending rank, and the jokers last, red before black. */
  lemma StandardDeckOrder(i: nat, j: nat)
    requires i < j < 54
    ensures j < 52 ==>
      var a, b := StandardDeck()[i], StandardDeck()[j];
      SuitIndex(a.suit) < SuitIndex(b.suit) ||
      (a.suit == b.suit && RankValue(a.rank.value) < RankValue(b.rank.value))
    ensures StandardDeck()[52] == NewRedJoker() && StandardDeck()[53] == NewBlackJoker()
  {
    if j < 52 {
      PositionOfStandardCard(i);
      PositionOfStandardCard(j);
    }
  }

  /** Position `si * 13 + ri` of the standard deck holds rank `ri` of suit `si`. */
  lemma StandardCardAtOrdinary(si: nat, ri: nat)
    requires si < 4 && ri < 13
    ensures StandardCardAt(si * 13 + ri) == NewCard(OrdinarySuits[si], AllRanks[ri]).value
  {
    assert SuitIndexAt(si * 13 + ri) == si;
  }

  /** Appending the next card of the standard deck to a prefix of it gives
      the next prefix. */
  lemma ExtendStandardPrefix(built: seq<Card>, c: Card)
    requires |built| < 54 && built == StandardDeck()[..|built|]
    requires c == StandardCardAt(|built|)
    ensures built + [c] == StandardDeck()[..|built| + 1]
  {
    TakeOneMore(StandardDeck(), |built|);
  }

  lemma TakeOneMore(d: seq<Card>, n: nat)
    requires n < |d|
    ensures d[..n + 1] == d[..n] + [d[n]]
  {
  }

  function Swap(s: seq<Card>, i: nat, j: nat): (r: seq<Card>)
    requires i < |s| && j < |s|
    ensures |r| == |s|
  {
    s[i := s[j]][j := s[i]]
  }

  lemma SwapPermutes(s: seq<Card>, i: nat, j: nat)
    requires i < |s| && j < |s|
    ensures multiset(Swap(s, i, j)) == multiset(s)
  {
  }

  /** The Fisher-Yates passes for positions `i` down to 1. */
  function ShuffleFrom(s: seq<Card>, rng: nat -> nat, i: int): (r: seq<Card>)
    requires IsRandomSource(rng) && i < |s|
    ensures |r| == |s|
    decreases i
  {
    if i <= 0 then s else ShuffleFrom(Swap(s, i, rng(i)), rng, i - 1)
  }

  /** The order a Fisher-Yates shuffle driven by `rng` leaves `s` in. */
  function Shuffled(s: seq<Card>, rng: nat -> nat): (r: seq<Card>)
    requires IsRandomSource(rng)
    ensures |r| == |s|
  {
    ShuffleFrom(s, rng, |s| - 1)
  }

  lemma {:induction false} ShuffleFromPermutes(s: seq<Card>, rng: nat -> nat, i: int)
    requires IsRandomSource(rng) && i < |s|
    ensures multiset(ShuffleFrom(s, rng, i)) == multiset(s)
    decreases i
  {
    if i > 0 {
      SwapPermutes(s, i, rng(i));
      ShuffleFromPermutes(Swap(s, i, rng(i)), rng, i - 1);
    }
  }

  /** A shuffle is a permutation, whatever the generator returns, and leaves
      a deck of zero or one card as it is. */
  lemma ShuffledPermutes(s: seq<Card>, rng: nat -> nat)
    requires IsRandomSource(rng)
    ensures multiset(Shuffled(s, rng)) == multiset(s)
    ensures |s| <= 1 ==> Shuffled(s, rng) == s
  {
    ShuffleFromPermutes(s, rng, |s| - 1);
  }

  class Deck {
    var cards: seq<Card>

    /** `new Deck(cards)`: a deck holding a copy of the given cards. */
    constructor (cards: seq<Card>)
      ensures this.cards == cards
    {
      this.cards := cards;
    }

    /** `Deck.NewStandardDeck`: 52 ordinary cards and two jokers. */
    static method NewStandardDeck() returns (d: Deck)
      ensures fresh(d)
      ensures d.cards == StandardDeck()
    {
      var built: seq<Card> := [];
      for si := 0 to 4
        invariant |built| == si * 13 && built == StandardDeck()[..|built|]
      {
        var suit := OrdinarySuits[si];
        for ri := 0 to 13
          invariant |built| == si * 13 + ri && built == StandardDeck()[..|built|]
        {
          var card := NewCard(suit, AllRanks[ri]).value;
          StandardCardAtOrdinary(si, ri);
          ExtendStandardPrefix(built, card);
          built := built + [card];
        }
      }
      built := built + [NewRedJoker(), NewBlackJoker()];
      assert built == StandardDeck();
      d := new Deck(built);
    }

    /** Fisher-Yates in place: for `i` from the last index down to 1, swap
        position `i` with the position `rng(i)`. */
    method Shuffle(rng: nat -> nat)
      requires IsRandomSource(rng)
      modifies this
      ensures cards == Shuffled(old(cards), rng)
      ensures multiset(cards) == multiset(old(cards))
    {
      ShuffledPermutes(cards, rng);
      var i := |cards| - 1;
      while i > 0
        invariant -1 <= i < |cards|
        invariant ShuffleFrom(cards, rng, i) == Shuffled(old(cards), rng)
      {
        var j := rng(i);
        assert j <= i;
        assert ShuffleFrom(cards, rng, i) == ShuffleFrom(Swap(cards, i, j), rng, i - 1);
        cards := Swap(cards, i, j);
        i := i - 1;
      }
    }

    /** Takes the top card; on an empty deck reports failure and changes nothing. */
    method Draw() returns (card: Option<Card>)
      modifies this
      ensures old(cards) == [] ==> card == None && cards == old(cards)
      ensures old(cards) != [] ==> card == Some(old(cards)[0]) && cards == old(cards)[1..]
    {
      if |cards| == 0 {
        return None;
      }
      card := Some(cards[0]);
      cards := cards[1..];
    }

    /** Takes the top `count` cards at once, or none of them if there are
        fewer; a negative count is an argument error. On success the pair is
        (the cards drawn, true), on a short deck ([], false). */
    method DrawN(count: int) returns (r: Result<(seq<Card>, bool)>)
      modifies this
      ensures count < 0 ==> r == Failure("Count must be non-negative") && cards == old(cards)
      ensures 0 <= count <= |old(cards)| ==>
        r == Success((old(cards)[..count], true)) && cards == old(cards)[count..]
      ensures count > |old(cards)| ==> r == Success(([], false)) && cards == old(cards)
      ensures old(cards) == (if r.Success? then r.value.0 else []) + cards
    {
      if count < 0 {
        return Failure("Count must be non-negative");
      }
      if |cards| < count {
        return Success(([], false));
      }
      var drawn := cards[..count];
      cards := cards[count..];
      assert old(cards) == drawn + cards;
      r := Success((drawn, true));
    }

    method AddToBottom(card: Card)
      modifies this
      ensures cards == old(cards) + [card]
    {
      cards := cards + [card];
    }

    method AddToTop(card: Card)
      modifies this
      ensures cards == [card] + old(cards)
    {
      cards := [card] + cards;
    }

    method AddManyToBottom(more: seq<Card>)
      modifies this
      ensures cards == old(cards) + more
    {
      cards := cards + more;
    }

    function Count(): (n: nat)
      reads this
      ensures n == |cards|
    {
      |cards|
    }

    predicate IsEmpty()
      reads this
      ensures IsEmpty() <==> Count() == 0
    {
      |cards| == 0
    }

    /** A new deck with the same cards in the same order. */
    method Clone() returns (d: Deck)
      ensures fresh(d)
      ensures d.cards == cards
    {
      d := new Deck(cards);
    }

    method Clear()
      modifies this
      ensures cards == []
    {
      cards := [];
    }
  }

  /** A clone and its original evolve independently: drawing from the
      original leaves the clone as it was, and the clone still holds, on
      top, the card the original gave. */
  method CloneIsIndependent(d: Deck) returns (copy: Deck, top: Option<Card>)
    requires d.cards != []
    modifies d
    ensures fresh(copy) && copy.cards == old(d.cards)
    ensures top == Some(copy.cards[0]) && d.cards == copy.cards[1..]
  {
    copy := d.Clone();
    top := d.Draw();
  }
}
