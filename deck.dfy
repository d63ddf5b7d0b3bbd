/** Construction of the standard 52-card deck (the package's New). */
module Deck {
  import opened Cards

  /** The four real suits, in the order New walks them. */
  const Suits: seq<Suit> := [Club, Spade, Heart, Diamond]

  /** The number of ranks Ace..King, the length of one suit's run. */
  const RankCount: nat := 13

  /** The cards of suit s with ranks MinRank up to (not including) r, in increasing rank. */
  function RanksBelow(s: Suit, r: Rank): seq<Card>
    requires MinRank <= r <= MaxRank + 1
    decreases r
  {
    if r == MinRank then [] else RanksBelow(s, r - 1) + [Card(s, r - 1)]
  }

  /** All thirteen cards of suit s, Ace first. */
  function SuitRun(s: Suit): seq<Card> {
    RanksBelow(s, MaxRank + 1)
  }

  /** The runs of the suits ss, one after another. */
  function Deal(ss: seq<Suit>): seq<Card> {
    if ss == [] then [] else Deal(ss[..|ss| - 1]) + SuitRun(ss[|ss| - 1])
  }

  /** The deck New returns: a run of thirteen cards for each suit of Suits. */
  function StandardDeck(): seq<Card> {
    Deal(Suits)
  }

  /** New: for each suit of Suits, for each rank from MinRank to MaxRank, append a card. */
  method New() returns (cards: seq<Card>)
    ensures cards == StandardDeck()
  {
    cards := [];
    for i := 0 to |Suits|
      invariant cards == Deal(Suits[..i])
    {
      var suit := Suits[i];
      var rank := MinRank;
      while rank <= MaxRank
        invariant MinRank <= rank <= MaxRank + 1
        invariant cards == Deal(Suits[..i]) + RanksBelow(suit, rank)
        decreases MaxRank as int - rank as int
      {
        cards := cards + [Card(suit, rank)];
        rank := rank + 1;
      }
      assert Suits[..i + 1][..i] == Suits[..i];
    }
    assert Suits[..|Suits|] == Suits;
  }

  /** The run below r has one card per rank, and its k-th card has rank MinRank + k. */
  lemma {:induction false} RanksBelowAt(s: Suit, r: Rank)
    requires MinRank <= r <= MaxRank + 1
    ensures |RanksBelow(s, r)| == (r - MinRank) as int
    ensures forall k :: 0 <= k < |RanksBelow(s, r)| ==> RanksBelow(s, r)[k] == Card(s, MinRank + k as Rank)
    decreases r
  {
    if r != MinRank {
      RanksBelowAt(s, r - 1);
    }
  }

  /** The k-th card of Deal(ss) has suit ss[k / 13] and rank k % 13 + 1. */
  lemma {:induction false} DealAt(ss: seq<Suit>)
    ensures |Deal(ss)| == RankCount * |ss|
    ensures forall k :: 0 <= k < |Deal(ss)| ==>
      Deal(ss)[k] == Card(ss[k / RankCount], (k % RankCount + 1) as Rank)
  {
    if ss != [] {
      var init, last := ss[..|ss| - 1], ss[|ss| - 1];
      DealAt(init);
      RanksBelowAt(last, MaxRank + 1);
      var d := Deal(ss);
      forall k | 0 <= k < |d|
        ensures d[k] == Card(ss[k / RankCount], (k % RankCount + 1) as Rank)
      {
        if k < |Deal(init)| {
          assert d[k] == Deal(init)[k];
        } else {
          var j := k - |Deal(init)|;
          assert d[k] == SuitRun(last)[j];
          assert k / RankCount == |init| && k % RankCount == j;
        }
      }
    }
  }

  /** New returns exactly 4 x 13 = 52 cards. */
  lemma DeckSize()
    ensures |StandardDeck()| == 52
  {
    DealAt(Suits);
  }

  /** Suit-major, rank-minor: the card at index i has suit Suits[i / 13] and rank i % 13 + 1. */
  lemma DeckCardAt(i: nat)
    requires i < 52
    ensures |StandardDeck()| == 52
    ensures StandardDeck()[i] == Card(Suits[i / 13], (i % 13 + 1) as Rank)
  {
    DealAt(Suits);
  }

  /** No card of the deck is a Joker, and every rank is in Ace..King (never 0). */
  lemma DeckCardsAreStandard()
    ensures forall c :: c in StandardDeck() ==> IsStandard(c) && c.suit in Suits
  {
    DealAt(Suits);
    forall c | c in StandardDeck()
      ensures IsStandard(c) && c.suit in Suits
    {
      var i :| 0 <= i < |StandardDeck()| && StandardDeck()[i] == c;
      assert c == Card(Suits[i / 13], (i % 13 + 1) as Rank);
    }
  }

  /** Each standard card sits at index 13 * ordinal(suit) + rank - 1 of the deck. */
  lemma DeckPosition(c: Card)
    requires IsStandard(c)
    ensures |StandardDeck()| == 52
    ensures StandardDeck()[RankCount * SuitOrdinal(c.suit) + (c.rank - MinRank) as int] == c
  {
    var i := RankCount * SuitOrdinal(c.suit) + (c.rank - MinRank) as int;
    DeckCardAt(i);
    assert i / 13 == SuitOrdinal(c.suit) && i % 13 == (c.rank - MinRank) as int;
  }

  /** The lexicographic order on (suit ordinal, rank). */
  predicate Precedes(a: Card, b: Card) {
    SuitOrdinal(a.suit) < SuitOrdinal(b.suit)
    || (SuitOrdinal(a.suit) == SuitOrdinal(b.suit) && a.rank < b.rank)
  }

  /** Precedes is a strict total order on cards. */
  lemma PrecedesStrictTotal(a: Card, b: Card, c: Card)
    ensures !Precedes(a, a)
    ensures Precedes(a, b) && Precedes(b, c) ==> Precedes(a, c)
    ensures a == b || Precedes(a, b) || Precedes(b, a)
  {
    SuitOrdinalInjective(a.suit, b.suit);
  }

  /** The deck is strictly increasing in (suit ordinal, rank). */
  lemma DeckStrictlyOrdered()
    ensures forall i, j :: 0 <= i < j < |StandardDeck()| ==> Precedes(StandardDeck()[i], StandardDeck()[j])
  {
    var d := StandardDeck();
    DeckSize();
    forall i, j | 0 <= i < j < |d|
      ensures Precedes(d[i], d[j])
    {
      DeckCardAt(i);
      DeckCardAt(j);
      assert SuitOrdinal(Suits[i / 13]) == i / 13;
      assert SuitOrdinal(Suits[j / 13]) == j / 13;
    }
  }

  /** A card is in the deck exactly when it is a standard card. */
  lemma DeckMembership(c: Card)
    ensures c in StandardDeck() <==> IsStandard(c)
  {
    DeckCardsAreStandard();
    if IsStandard(c) {
      DeckPosition(c);
    }
  }

  /** In a sequence without repeats, every value occurs at most once. */
  lemma {:induction false} CountInDistinct(s: seq<Card>, c: Card)
    requires forall i, j :: 0 <= i < j < |s| ==> s[i] != s[j]
    ensures multiset(s)[c] == if c in s then 1 else 0
  {
    if s != [] {
      var t := s[1..];
      assert s == [s[0]] + t;
      CountInDistinct(t, c);
      if c == s[0] {
        assert forall j :: 0 <= j < |t| ==> t[j] == s[j + 1] != s[0];
      }
    }
  }

  /** Every standard card appears in the deck exactly once; nothing else appears. */
  lemma DeckExactlyOnce(c: Card)
    ensures multiset(StandardDeck())[c] == if IsStandard(c) then 1 else 0
  {
    var d := StandardDeck();
    DeckStrictlyOrdered();
    forall i, j | 0 <= i < j < |d|
      ensures d[i] != d[j]
    {
      PrecedesStrictTotal(d[i], d[j], d[j]);
    }
    CountInDistinct(d, c);
    DeckMembership(c);
  }

  /** The ordinal of each suit of Suits is its index there; Joker is not among them. */
  lemma SuitsOrdinals()
    ensures forall k :: 0 <= k < |Suits| ==> SuitOrdinal(Suits[k]) == k
    ensures Joker !in Suits
  {
  }
}
