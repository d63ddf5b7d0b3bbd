# deck — a Dafny model of the card model and deck construction

This project models the Go package `deck`. A `Card` pairs a `Suit` with a `Rank`.
`Suit` is an enumeration: Club=0, Spade=1, Heart=2, Diamond=3, plus a sentinel Joker=4.
`Rank` is an unsigned 8-bit enumeration: Ace=1 … King=13, with 0 reserved.
`Card.String` shows a Joker by its suit name alone. It shows any other card as `"<Rank> of <Suit>s"`.
`New` builds the standard deck with two nested loops. The outer loop walks the suits
`[Club, Spade, Heart, Diamond]`. The inner loop walks ranks `minRank` (Ace) through
`maxRank` (King) and appends one card per step.

Layout:

- `cards.dfy`, module `Cards`: `Suit` is a datatype with `SuitOrdinal`. `Rank` is a newtype over 0..255 with the constants `Ace` … `King`, `MinRank` and `MaxRank`. `Card` is a datatype. It also holds the name tables and `CardString`, which models `Card.String`.
- `deck.dfy`, module `Deck`: the `Suits` table. `New` is an imperative method with the same nested loops. It is proved equal to the pure specification `StandardDeck`, and the deck's properties are proved about `StandardDeck`.

The display names are the Go constant identifiers, which is what the package's `stringer`
directive generates. `fmt.Sprintf("%s of %ss", …)` is modelled as plain string concatenation.

## Model

| member | source | states |
|---|---|---|
| `Cards.SuitOrdinal` | card.go:8-15 | the suit constants have ordinals 0..4, and the ordinal is 4 exactly for Joker |
| `Cards.SuitOrdinalInjective` | card.go:8-15 | two suits are equal exactly when their ordinals are equal |
| `Cards.SuitName` | card.go:1 | each suit's display name is its identifier: at least four letters and no space |
| `Cards.SuitNameInjective` | card.go:1 | different suits have different display names |
| `Cards.RankName` | card.go:21-37 | each rank Ace..King has a name from the identifier table: at least three letters and no space |
| `Cards.RankNameInjective` | card.go:21-37 | different ranks in Ace..King have different names |
| `Cards.CardString` | card.go:51-56 | the display text is "Joker" exactly when the suit is Joker, so no real card ever reads "Joker" |
| `Cards.CardStringInjective` | card.go:51-56 | two displayable cards have the same text exactly when they are equal or both Jokers |
| `Cards.JokerString` | card.go:52-54 | a Joker displays as "Joker" whatever its rank |
| `Cards.ExampleCardStrings` | card_test.go:5-21 | the example test's six cards display as King of Spades, Ace of Diamonds, Seven of Hearts, Four of Spades, King of Clubs and Joker |
| `Deck.New` | card.go:58-66 | the nested suit/rank loops return exactly the specification deck: one run of Ace..King per suit of `Suits`, in order |
| `Deck.SuitsOrdinals` | card.go:18 | the suit table lists Club, Spade, Heart, Diamond at indices equal to their ordinals and leaves out Joker |
| `Deck.RanksBelowAt` | card.go:61-62 | after the inner loop reaches rank r, the suit's run has r - Ace cards, and its k-th card has rank Ace + k |
| `Deck.DealAt` | card.go:60-63 | dealing n suits yields 13n cards; card k has suit ss[k / 13] and rank k % 13 + 1 |
| `Deck.DeckSize` | card.go:58-66 | the deck has exactly 4 × 13 = 52 cards |
| `Deck.DeckCardAt` | card.go:18 | card i of the deck has suit `suits[i / 13]` and rank i % 13 + 1, so the order is suit-major and rank-minor |
| `Deck.DeckCardsAreStandard` | card.go:60-62 | no card in the deck is a Joker, and every rank is in Ace..King, so rank 0 never appears |
| `Deck.DeckPosition` | card.go:60-62 | each standard card is at index 13 × suit ordinal + rank − 1 |
| `Deck.PrecedesStrictTotal` | card.go:8-37 | ordering by (suit ordinal, rank) is irreflexive, transitive and total on cards |
| `Deck.DeckStrictlyOrdered` | card.go:60-62 | the deck strictly increases in (suit ordinal, rank) |
| `Deck.DeckMembership` | card.go:58-66 | a card is in the deck exactly when it has a real suit and a rank in Ace..King |
| `Deck.DeckExactlyOnce` | card.go:58-66 | each standard card occurs in the deck exactly once, and every other card occurs zero times |

## Left out

- Go's `Suit` is a `uint8`, so `Suit(7)` can be written. The model's `Suit` has only the five declared constants. The source treats any other value as misuse.
- `Cards.CardString` requires a Joker or a rank in Ace..King. For other ranks `stringer` falls back to a `Rank(n)` text, and that generated code is not part of this model.
- The `stringer`-generated `Suit.String` and `Rank.String` bodies are not part of this model. They are replaced by name tables built from the constant identifiers.
- `fmt.Sprintf` is replaced by string concatenation. The Go `Example` test harness and its output comparison are replaced by the lemma `ExampleCardStrings`.
- `Rank` is kept as an 8-bit value. The loop counter reaches at most 14, so wrap-around never happens and is not modelled.
- Slice growth in `append` (capacity and reallocation) is not modelled. The deck is a `seq` that the loop extends by one card at a time.
- The package's wider design also describes default and custom sorting, shuffling, joker injection, filtering, multi-deck replication and an options pipeline. None of these exists in the modelled source file, so none is modelled. Shuffling would also need a source of randomness.
