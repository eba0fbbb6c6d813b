/** Playing cards: an immutable value made of a suit, an optional rank and a
    colour, with the classification predicates the game rules are built on. */
module Cards {
  import opened Wrappers
  import opened Lists

  datatype Suit = Spades | Hearts | Diamonds | Clubs | Joker

  /** Declared in the order of the enum, whose underlying values run from
      Ace = 1 to King = 13. */
  datatype Rank = Ace | Two | Three | Four | Five | Six | Seven
                | Eight | Nine | Ten | Jack | Queen | King

  datatype Color = Red | Black

  /** A card record. The record type itself admits any combination of fields;
      the factories below only ever build the `WellFormed` ones. */
  datatype Card = Card(suit: Suit, rank: Option<Rank>, color: Color)

  /** The four suits of ordinary cards, in the order the standard deck uses. */
  const OrdinarySuits: seq<Suit> := [Spades, Hearts, Diamonds, Clubs]

  /** `Enum.GetValues<Rank>()`: every rank in ascending order of value. */
  const AllRanks: seq<Rank> := [Ace, Two, Three, Four, Five, Six, Seven,
                                Eight, Nine, Ten, Jack, Queen, King]

  /** The integer value of a rank in the enum. */
  function RankValue(r: Rank): (v: int)
    ensures 1 <= v <= 13
    ensures AllRanks[v - 1] == r
  {
    match r
    case Ace => 1    case Two => 2    case Three => 3  case Four => 4
    case Five => 5   case Six => 6    case Seven => 7  case Eight => 8
    case Nine => 9   case Ten => 10   case Jack => 11  case Queen => 12
    case King => 13
  }

  /** The invariant every card the factories build keeps: a joker has no rank,
      an ordinary card has one, and its colour follows from its suit. */
  predicate WellFormed(c: Card) {
    if c.suit == Joker then c.rank == None
    else c.rank.Some? && (c.color == Red <==> c.suit in {Hearts, Diamonds})
  }

  /** `Card.NewCard`: an ordinary card; a joker suit is an argument error. */
  function NewCard(suit: Suit, rank: Rank): (r: Result<Card>)
    ensures r.Failure? <==> suit == Joker
    ensures r.Success? ==> r.value.suit == suit && r.value.rank == Some(rank)
    ensures r.Success? ==> (r.value.color == Red <==> suit == Hearts || suit == Diamonds)
    ensures r.Success? ==> WellFormed(r.value)
  {
    match suit
    case Hearts | Diamonds => Success(Card(suit, Some(rank), Red))
    case Spades | Clubs => Success(Card(suit, Some(rank), Black))
    case Joker => Failure("Use NewRedJoker() or NewBlackJoker() for joker cards")
  }

  function NewRedJoker(): (c: Card)
    ensures IsJoker(c) && c.rank == None && c.color == Red
  {
    Card(Joker, None, Red)
  }

  function NewBlackJoker(): (c: Card)
    ensures IsJoker(c) && c.rank == None && c.color == Black
  {
    Card(Joker, None, Black)
  }

  /** The factories build exactly the well-formed cards. */
  lemma FactoriesBuildWellFormed(c: Card)
    ensures WellFormed(c) <==>
      c == NewRedJoker() || c == NewBlackJoker() ||
      (c.suit != Joker && c.rank.Some? && NewCard(c.suit, c.rank.value) == Success(c))
  {
  }

  predicate IsJoker(c: Card) { c.suit == Joker }

  /** Sevens and jokers are wild: they carry a draw penalty. */
  predicate IsWildCard(c: Card) { c.rank == Some(Seven) || IsJoker(c) }

  /** Twos are transparent: playable on anything outside an attack chain. */
  predicate IsTransparent(c: Card) { c.rank == Some(Two) }

  /** Aces skip the next player. */
  predicate IsSkip(c: Card) { c.rank == Some(Ace) }

  /** Jacks change the suit. */
  predicate IsSuitChanger(c: Card) { c.rank == Some(Jack) }

  /** The number of cards a wild card adds to an attack: a Seven is checked
      first, so a record with a joker suit and rank Seven counts as a Seven. */
  function DrawPenalty(c: Card): (n: int)
    ensures n > 0 <==> IsWildCard(c)
    ensures n in {0, 2, 4}
  {
    match c.rank
    case Some(Seven) => 2
    case _ => if IsJoker(c) then 4 else 0
  }

  /** The classes that decide a card's effect never overlap on a well-formed
      card; in particular no card is both wild and a suit changer. */
  lemma SpecialClassesDisjoint(c: Card)
    requires WellFormed(c)
    ensures !(IsWildCard(c) && IsSuitChanger(c))
    ensures !(IsWildCard(c) && IsTransparent(c))
    ensures !(IsWildCard(c) && IsSkip(c))
    ensures IsJoker(c) ==> DrawPenalty(c) == 4
    ensures !IsJoker(c) && IsWildCard(c) ==> DrawPenalty(c) == 2
  {
  }

  /** The record's `Equals`: field by field. */
  function Equals(a: Card, b: Card): (r: bool)
    ensures r <==> a == b
  {
    a.suit == b.suit && a.rank == b.rank && a.color == b.color
  }

  function SuitName(s: Suit): string {
    match s
    case Spades => "Spades"  case Hearts => "Hearts"
    case Diamonds => "Diamonds"  case Clubs => "Clubs"
    case Joker => "Joker"
  }

  function RankName(r: Rank): string {
    match r
    case Ace => "Ace"    case Two => "Two"    case Three => "Three"
    case Four => "Four"  case Five => "Five"  case Six => "Six"
    case Seven => "Seven"  case Eight => "Eight"  case Nine => "Nine"
    case Ten => "Ten"    case Jack => "Jack"  case Queen => "Queen"
    case King => "King"
  }

  function ColorName(c: Color): string {
    match c
    case Red => "Red"  case Black => "Black"
  }

  /** String interpolation of a missing rank prints nothing. */
  function OptionalRankName(r: Option<Rank>): string {
    match r
    case None => ""
    case Some(rank) => RankName(rank)
  }

  /** `Card.ToString`: "{Color} Joker" for jokers, "{Rank} of {Suit}" otherwise. */
  function ToString(c: Card): string {
    if IsJoker(c) then ColorName(c.color) + " Joker"
    else OptionalRankName(c.rank) + " of " + SuitName(c.suit)
  }

  // Reading a display string back: the inverse of ToString on well-formed cards.

  function ParseRank(t: string): Option<Rank> {
    if t == "Ace" then Some(Ace) else if t == "Two" then Some(Two)
    else if t == "Three" then Some(Three) else if t == "Four" then Some(Four)
    else if t == "Five" then Some(Five) else if t == "Six" then Some(Six)
    else if t == "Seven" then Some(Seven) else if t == "Eight" then Some(Eight)
    else if t == "Nine" then Some(Nine) else if t == "Ten" then Some(Ten)
    else if t == "Jack" then Some(Jack) else if t == "Queen" then Some(Queen)
    else if t == "King" then Some(King) else None
  }

  function ParseOrdinarySuit(t: string): Option<Suit> {
    if t == " of Spades" then Some(Spades)
    else if t == " of Hearts" then Some(Hearts)
    else if t == " of Diamonds" then Some(Diamonds)
    else if t == " of Clubs" then Some(Clubs)
    else None
  }

  /** Splits a display string at its first space: the word before it is a
      colour (jokers) or a rank, the rest names the suit. */
  function ParseDisplay(s: string): Option<Card> {
    var i := IndexOf(s, ' ');
    if i < 0 then None
    else
      var head, tail := s[..i], s[i..];
      if tail == " Joker" then
        (if head == "Red" then Some(NewRedJoker())
         else if head == "Black" then Some(NewBlackJoker())
         else None)
      else
        match (ParseRank(head), ParseOrdinarySuit(tail))
        case (Some(r), Some(suit)) =>
          (match NewCard(suit, r)
           case Success(c) => Some(c)
           case Failure(_) => None)
        case _ => None
  }

  lemma RankNameRoundTrip(r: Rank)
    ensures ' ' !in RankName(r)
    ensures ParseRank(RankName(r)) == Some(r)
  {
  }

  lemma ColorNameHasNoSpace(c: Color)
    ensures ' ' !in ColorName(c)
  {
  }

  lemma FirstSpaceAfterWord(word: string, rest: string)
    requires ' ' !in word && |rest| > 0 && rest[0] == ' '
    ensures IndexOf(word + rest, ' ') == |word|
    ensures (word + rest)[..|word|] == word && (word + rest)[|word|..] == rest
  {
    var s := word + rest;
    assert s[|word|] == ' ';
    assert s[..|word|] == word;
    assert ' ' !in s[..|word|];
  }

  lemma SuitNameRoundTrip(suit: Suit)
    requires suit != Joker
    ensures " of " + SuitName(suit) != " Joker"
    ensures ParseOrdinarySuit(" of " + SuitName(suit)) == Some(suit)
  {
    var t := " of " + SuitName(suit);
    assert |t| > 6;
    match suit
    case Spades => assert t == " of Spades";
    case Hearts =>
      assert t == " of Hearts" && t[4] == 'H';
    case Diamonds =>
      assert t == " of Diamonds" && t[4] == 'D';
    case Clubs =>
      assert t == " of Clubs" && t[4] == 'C';
  }

  /** A joker's display string reads back as the same joker. */
  lemma JokerDisplayRoundTrip(c: Card)
    requires WellFormed(c) && IsJoker(c)
    ensures ParseDisplay(ToString(c)) == Some(c)
  {
    ColorNameHasNoSpace(c.color);
    FirstSpaceAfterWord(ColorName(c.color), " Joker");
  }

  /** An ordinary card's display string reads back as the same card. */
  lemma OrdinaryDisplayRoundTrip(c: Card)
    requires WellFormed(c) && !IsJoker(c)
    ensures ParseDisplay(ToString(c)) == Some(c)
  {
    var r := c.rank.value;
    var tail := " of " + SuitName(c.suit);
    RankNameRoundTrip(r);
    SuitNameRoundTrip(c.suit);
    assert ToString(c) == RankName(r) + tail;
    FirstSpaceAfterWord(RankName(r), tail);
  }

  /** The display string determines a well-formed card. */
  lemma DisplayRoundTrip(c: Card)
    requires WellFormed(c)
    ensures ParseDisplay(ToString(c)) == Some(c)
  {
    if IsJoker(c) {
      JokerDisplayRoundTrip(c);
    } else {
      OrdinaryDisplayRoundTrip(c);
    }
  }
}
