/** The deck of one round: the `cardData` table, the deck `initGame` builds
    from it by duplicating every entry, and the lookup of a card by its id
    that `flipCard` does with `cards.find`. */
module Deck {
  import opened Shuffle

  datatype Option<T> = None | Some(value: T)

  /** One entry of the `cardData` table.  The image path and the colour are
      presentation only and are not kept. */
  datatype CardDef = CardDef(text: string, soundId: string)

  /** A card of the deck: the entry it copies, its position in the deck before
      shuffling (`id`) and the key two cards are matched on (`pairId`, which is
      the entry's `text`). */
  datatype Card = Card(def: CardDef, id: nat, pairId: string)

  function CardId(c: Card): nat { c.id }

  function PairKey(c: Card): string { c.pairId }

  function Text(d: CardDef): string { d.text }

  /** The table of six fruits the game is played with. */
  const FruitCards: seq<CardDef> := [
    CardDef("Apel", "apel-sound"),
    CardDef("Pisang", "pisang-sound"),
    CardDef("Jeruk", "jeruk-sound"),
    CardDef("Anggur", "anggur-sound"),
    CardDef("Semangka", "semangka-sound"),
    CardDef("Stroberi", "stroberi-sound")
  ]

  /** 0, 1, ..., n - 1. */
  function Range(n: nat): (r: seq<nat>)
    ensures |r| == n && forall i :: 0 <= i < n ==> r[i] == i
  {
    seq(n, i => i)
  }

  /** `[...cardData, ...cardData].map((card, index) => ...)`: every entry is
      copied twice, once in each half of the deck, and each card gets its
      index as id and its entry's text as pair key. */
  function BuildDeck(defs: seq<CardDef>): (deck: seq<Card>)
    ensures |deck| == 2 * |defs|
    ensures forall i {:trigger deck[i]} :: 0 <= i < |defs| ==>
      deck[i] == Card(defs[i], i, defs[i].text)
    ensures forall i {:trigger deck[i]} :: |defs| <= i < |deck| ==>
      deck[i] == Card(defs[i - |defs|], i, defs[i - |defs|].text)
  {
    var both := defs + defs;
    seq(|both|, i requires 0 <= i < |both| => Card(both[i], i, both[i].text))
  }

  /** The ids of a fresh deck are 0 .. 2 * |defs| - 1, in order. */
  lemma DeckIds(defs: seq<CardDef>)
    ensures Map(CardId, BuildDeck(defs)) == Range(2 * |defs|)
  {
  }

  /** The pair keys of a fresh deck are the texts of the table, twice over. */
  lemma DeckPairKeys(defs: seq<CardDef>)
    ensures Map(PairKey, BuildDeck(defs)) == Map(Text, defs) + Map(Text, defs)
  {
    var keys := Map(PairKey, BuildDeck(defs));
    var texts := Map(Text, defs);
    forall i | 0 <= i < |keys| ensures keys[i] == (texts + texts)[i] {
      if i >= |defs| {
        assert keys[i] == keys[(i - |defs|) + |defs|];
      }
    }
  }

  /** In a sequence without repeats every element occurs exactly once. */
  lemma {:induction false} DistinctMultiplicity<T>(s: seq<T>, x: T)
    requires Distinct(s)
    ensures multiset(s)[x] == if x in s then 1 else 0
  {
    if s != [] {
      assert s == [s[0]] + s[1..];
      assert Distinct(s[1..]) by {
        forall i, j | 0 <= i < j < |s[1..]| ensures s[1..][i] != s[1..][j] {
          assert s[1..][i] == s[i + 1] && s[1..][j] == s[j + 1];
        }
      }
      DistinctMultiplicity(s[1..], x);
      if x == s[0] {
        assert x !in s[1..] by {
          forall i | 0 <= i < |s[1..]| ensures s[1..][i] != x {
            assert s[1..][i] == s[i + 1];
          }
        }
      }
    }
  }

  /** Every id of the shuffled deck is one of 0 .. 2 * |defs| - 1, and each
      of them is on exactly one card. */
  lemma ShuffledDeckIds(defs: seq<CardDef>, draws: seq<nat>)
    requires ValidDraws(2 * |defs|, draws)
    ensures var ids := Map(CardId, Shuffled(BuildDeck(defs), draws));
      && |ids| == 2 * |defs|
      && Distinct(ids)
      && multiset(ids) == multiset(Range(2 * |defs|))
  {
    var deck := BuildDeck(defs);
    DeckIds(defs);
    ShuffledMap(CardId, deck, draws);
    ShuffledPermutes(Map(CardId, deck), draws);
    ShuffledDistinct(Map(CardId, deck), draws);
  }

  /** When the texts of the table are distinct, every text is the pair key of
      exactly two cards of the shuffled deck, and nothing else is a pair key. */
  lemma ShuffledDeckPairs(defs: seq<CardDef>, draws: seq<nat>)
    requires ValidDraws(2 * |defs|, draws) && Distinct(Map(Text, defs))
    ensures var keys := Map(PairKey, Shuffled(BuildDeck(defs), draws));
      forall key :: multiset(keys)[key] == if key in Map(Text, defs) then 2 else 0
  {
    var deck := BuildDeck(defs);
    var texts := Map(Text, defs);
    DeckPairKeys(defs);
    ShuffledMap(PairKey, deck, draws);
    ShuffledPermutes(Map(PairKey, deck), draws);
    var keys := Map(PairKey, Shuffled(deck, draws));
    assert multiset(keys) == multiset(texts) + multiset(texts) by {
      assert multiset(texts + texts) == multiset(texts) + multiset(texts);
    }
    forall key ensures multiset(keys)[key] == if key in texts then 2 else 0 {
      DistinctMultiplicity(texts, key);
    }
  }

  /** Position i holds the first card of `cards` with that id. */
  predicate FirstWithId(cards: seq<Card>, id: nat, i: int)
  {
    && 0 <= i < |cards|
    && cards[i].id == id
    && forall m :: 0 <= m < i ==> cards[m].id != id
  }

  /** `cards.find((c) => c.id == cardId)`: the first card with that id. */
  function FindById(cards: seq<Card>, id: nat): (r: Option<Card>)
    ensures r.Some? ==> exists i :: FirstWithId(cards, id, i) && cards[i] == r.value
    ensures r.None? <==> forall i :: 0 <= i < |cards| ==> cards[i].id != id
  {
    if cards == [] then None
    else if cards[0].id == id then Some(cards[0])
    else
      var r := FindById(cards[1..], id);
      assert r.Some? ==> exists i :: FirstWithId(cards, id, i) && cards[i] == r.value by {
        if r.Some? {
          var i :| FirstWithId(cards[1..], id, i) && cards[1..][i] == r.value;
          forall m | 0 <= m < i + 1 ensures cards[m].id != id {
            if m > 0 {
              assert cards[m] == cards[1..][m - 1];
            }
          }
          assert FirstWithId(cards, id, i + 1);
        }
      }
      r
  }

  /** In a deck whose ids are distinct, looking up the id of the card at
      position k finds that very card. */
  lemma FindOwnId(cards: seq<Card>, k: nat)
    requires k < |cards| && Distinct(Map(CardId, cards))
    ensures FindById(cards, cards[k].id) == Some(cards[k])
  {
    var r := FindById(cards, cards[k].id);
    var m :| FirstWithId(cards, cards[k].id, m) && cards[m] == r.value;
    assert Map(CardId, cards)[m] == Map(CardId, cards)[k];
  }

  /** In a shuffled deck, looking up the id of the card at position k finds
      that very card, so the sound `flipCard` plays is the clicked card's. */
  lemma ShuffledLookup(defs: seq<CardDef>, draws: seq<nat>, cards: seq<Card>, k: nat)
    requires ValidDraws(2 * |defs|, draws) && cards == Shuffled(BuildDeck(defs), draws)
    requires k < |cards|
    ensures FindById(cards, cards[k].id) == Some(cards[k])
  {
    ShuffledDeckIds(defs, draws);
    FindOwnId(cards, k);
  }

  /** The deck part of `initGame`: the doubled table is put in an array and
      shuffled in place with the given draws. */
  method NewShuffledDeck(defs: seq<CardDef>, draws: seq<nat>) returns (deck: seq<Card>)
    requires ValidDraws(2 * |defs|, draws)
    ensures deck == Shuffled(BuildDeck(defs), draws)
  {
    var gameCards := BuildDeck(defs);
    var a := new Card[|gameCards|](i requires 0 <= i < |gameCards| => gameCards[i]);
    assert a[..] == gameCards;
    ShuffleArray(a, draws);
    deck := a[..];
  }

  /** The six fruits have distinct texts, so each is on exactly two cards. */
  lemma FruitTextsDistinct()
    ensures |FruitCards| == 6 && Distinct(Map(Text, FruitCards))
  {
    var texts := Map(Text, FruitCards);
    assert texts == ["Apel", "Pisang", "Jeruk", "Anggur", "Semangka", "Stroberi"];
  }
}
