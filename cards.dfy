/** The card model of the deck package: suits, ranks, cards and their display form. */
module Cards {

  /** A suit. Joker is a sentinel: it is not one of the four suits of a standard deck. */
  datatype Suit = Club | Spade | Heart | Diamond | Joker

  /** The numeric value of each suit constant: Club is 0 and each following constant is one more. */
  function SuitOrdinal(s: Suit): (n: nat)
    ensures n <= 4
    ensures n == 4 <==> s == Joker
  {
    match s
    case Club => 0
    case Spade => 1
    case Heart => 2
    case Diamond => 3
    case Joker => 4
  }

  /** Distinct suits have distinct ordinals, so the ordinal identifies the suit. */
  lemma SuitOrdinalInjective(a: Suit, b: Suit)
    ensures SuitOrdinal(a) == SuitOrdinal(b) <==> a == b
  {
  }

  /** A rank is an unsigned 8-bit value; 0 is reserved and Ace..King are 1..13. */
  newtype Rank = x: int | 0 <= x < 256

  const Ace: Rank := 1
  const Two: Rank := 2
  const Three: Rank := 3
  const Four: Rank := 4
  const Five: Rank := 5
  const Six: Rank := 6
  const Seven: Rank := 7
  const Eight: Rank := 8
  const Nine: Rank := 9
  const Ten: Rank := 10
  const Jack: Rank := 11
  const Queen: Rank := 12
  const King: Rank := 13

  const MinRank: Rank := Ace
  const MaxRank: Rank := King

  /** A rank that names a card value, Ace through King. */
  predicate IsStandardRank(r: Rank) {
    MinRank <= r <= MaxRank
  }

  /** A card is a value: a suit and a rank. */
  datatype Card = Card(suit: Suit, rank: Rank)

  /** A card of the standard deck: one of the four real suits and a rank Ace..King. */
  predicate IsStandard(c: Card) {
    c.suit != Joker && IsStandardRank(c.rank)
  }

  /** A card that has a display form: any Joker, or a card whose rank has a name. */
  predicate IsDisplayable(c: Card) {
    c.suit == Joker || IsStandardRank(c.rank)
  }

  /** Display names of the suit constants, taken from their identifiers. */
  function SuitName(s: Suit): (name: string)
    ensures |name| >= 4 && ' ' !in name
  {
    match s
    case Club => "Club"
    case Spade => "Spade"
    case Heart => "Heart"
    case Diamond => "Diamond"
    case Joker => "Joker"
  }

  /** Different suits have different names. */
  lemma SuitNameInjective(a: Suit, b: Suit)
    ensures SuitName(a) == SuitName(b) <==> a == b
  {
  }

  /** Display names of the rank constants, indexed by rank - 1. */
  const RankNames: seq<string> :=
    ["Ace", "Two", "Three", "Four", "Five", "Six", "Seven",
     "Eight", "Nine", "Ten", "Jack", "Queen", "King"]

  function RankName(r: Rank): (name: string)
    requires IsStandardRank(r)
    ensures |name| >= 3 && ' ' !in name
  {
    RankNames[r - 1]
  }

  /** Different ranks have different names. */
  lemma RankNameInjective(a: Rank, b: Rank)
    requires IsStandardRank(a) && IsStandardRank(b)
    ensures RankName(a) == RankName(b) <==> a == b
  {
  }

  /** Card.String: the suit name alone for a Joker, otherwise "<Rank> of <Suit>s". */
  function CardString(c: Card): (s: string)
    requires IsDisplayable(c)
    ensures s == "Joker" <==> c.suit == Joker
  {
    if c.suit == Joker then SuitName(c.suit)
    else RankName(c.rank) + " of " + SuitName(c.suit) + "s"
  }

  /** The length of the leading run of non-space characters of s. */
  function FirstWordLength(s: string): (n: nat)
    ensures n <= |s|
  {
    if s == [] || s[0] == ' ' then 0 else 1 + FirstWordLength(s[1..])
  }

  lemma {:induction false} FirstWordOfConcat(p: string, t: string)
    requires ' ' !in p
    ensures FirstWordLength(p + t) == |p| + FirstWordLength(t)
  {
    if p != [] {
      assert (p + t)[1..] == p[1..] + t;
      FirstWordOfConcat(p[1..], t);
    } else {
      assert p + t == t;
    }
  }

  /** A space-free word followed by " of " can be read back: the split is unique. */
  lemma SplitAtOf(p1: string, q1: string, p2: string, q2: string)
    requires ' ' !in p1 && ' ' !in p2
    requires p1 + " of " + q1 == p2 + " of " + q2
    ensures p1 == p2 && q1 == q2
  {
    var s := p1 + " of " + q1;
    assert s == p1 + (" of " + q1);
    assert s == p2 + (" of " + q2);
    FirstWordOfConcat(p1, " of " + q1);
    FirstWordOfConcat(p2, " of " + q2);
    assert p1 == s[..|p1|];
    assert p2 == s[..|p2|];
    assert q1 == s[|p1| + 4..];
    assert q2 == s[|p2| + 4..];
  }

  /**
   * Card.String tells cards apart: two displayable cards have the same text exactly
   * when they are equal or both Jokers (a Joker's rank is not shown).
   */
  lemma CardStringInjective(a: Card, b: Card)
    requires IsDisplayable(a) && IsDisplayable(b)
    ensures CardString(a) == CardString(b) <==> a == b || (a.suit == Joker && b.suit == Joker)
  {
    if a.suit != Joker && b.suit != Joker && CardString(a) == CardString(b) {
      var sa, sb := CardString(a), CardString(b);
      var ra, rb := RankName(a.rank), RankName(b.rank);
      var na, nb := SuitName(a.suit), SuitName(b.suit);
      assert sa[..|sa| - 1] == ra + " of " + na;
      assert sb[..|sb| - 1] == rb + " of " + nb;
      SplitAtOf(ra, na, rb, nb);
      RankNameInjective(a.rank, b.rank);
      SuitNameInjective(a.suit, b.suit);
    }
  }

  /** A Joker shows as "Joker" whatever its rank. */
  lemma JokerString(r: Rank)
    ensures CardString(Card(Joker, r)) == "Joker"
  {
  }

  /** The outputs pinned by the package's example test. */
  lemma ExampleCardStrings()
    ensures CardString(Card(Spade, King)) == "King of Spades"
    ensures CardString(Card(Diamond, Ace)) == "Ace of Diamonds"
    ensures CardString(Card(Heart, Seven)) == "Seven of Hearts"
    ensures CardString(Card(Spade, Four)) == "Four of Spades"
    ensures CardString(Card(Club, King)) == "King of Clubs"
    ensures CardString(Card(Joker, 0)) == "Joker"
  {
  }
}
