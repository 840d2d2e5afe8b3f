/** The round state machine of the game controller: `initGame` (deck and
    state reset), `flipCard`, `checkMatch`, `disableCards`, `unflipCards` and
    `resetBoard`.

    The card elements of the board are identified by their position k in the
    shuffled deck; the `flipped` class of element k is `faceUp[k]` and its
    `pointerEvents = "none"` is `disabled[k]`.  The delayed actions the source
    schedules with `setTimeout` are returned to the caller instead: `FlipCard`
    says which sound it schedules and whether it schedules `checkMatch`, and
    `CheckMatch` says whether it schedules the win message.

    The round state is also described as a value, `Round`, with the pure
    transitions `Start`, `Flip` and `Resolve`; the handlers are proved to
    move the object's state along them, and the invariant `RoundInv` is
    proved about the transitions. */
module Game {
  import opened Shuffle
  import opened Deck

  /** Points for a found pair (`score += 10`). */
  const MatchReward: nat := 10

  /** What a click on a card schedules. */
  datatype FlipEffect =
    | Ignored
    | Flipped(sound: Option<string>, checkScheduled: bool)

  /** What `checkMatch` decided, and whether it scheduled the win message. */
  datatype MatchOutcome = Mismatched | Matched(winScheduled: bool)

  /** The number of cells that are set. */
  function CountTrue(s: seq<bool>): (r: nat)
    ensures r <= |s|
  {
    if s == [] then 0 else (if s[0] then 1 else 0) + CountTrue(s[1..])
  }

  /** Setting one cell changes the count by what that cell changed by. */
  lemma {:induction false} CountTrueUpdate(s: seq<bool>, k: nat, b: bool)
    requires k < |s|
    ensures CountTrue(s[k := b]) == CountTrue(s) - (if s[k] then 1 else 0) + (if b then 1 else 0)
  {
    if k == 0 {
      assert s[k := b][1..] == s[1..];
    } else {
      assert s[k := b][1..] == s[1..][k - 1 := b];
      CountTrueUpdate(s[1..], k - 1, b);
    }
  }

  /** All cells are set exactly when the count is the length. */
  lemma {:induction false} CountTrueAll(s: seq<bool>)
    ensures CountTrue(s) == |s| <==> forall k :: 0 <= k < |s| ==> s[k]
  {
    if s != [] {
      CountTrueAll(s[1..]);
      assert forall k :: 0 <= k < |s[1..]| ==> s[1..][k] == s[k + 1];
    }
  }

  /** A row of n cells, none set. */
  function Cleared(n: nat): (r: seq<bool>)
    ensures |r| == n && forall k :: 0 <= k < n ==> !r[k]
  {
    seq(n, _ => false)
  }

  lemma {:induction false} CountTrueCleared(n: nat)
    ensures CountTrue(Cleared(n)) == 0
  {
    if n > 0 {
      assert Cleared(n)[1..] == Cleared(n - 1);
      CountTrueCleared(n - 1);
    }
  }

  /** `s` with every cell whose position is in `ps` set to `b`, as the
      `forEach` loops over `flippedCards` leave the card flags. */
  function Marked(s: seq<bool>, ps: seq<nat>, b: bool): (r: seq<bool>)
    ensures |r| == |s|
  {
    seq(|s|, k requires 0 <= k < |s| => if k in ps then b else s[k])
  }

  /** `cards` is the table doubled and shuffled with `draws`; its ids are
      therefore distinct (`ShuffledDeckIds`). */
  ghost predicate DeckOf(cardData: seq<CardDef>, draws: seq<nat>, cards: seq<Card>)
  {
    && ValidDraws(2 * |cardData|, draws)
    && cards == Shuffled(BuildDeck(cardData), draws)
    && Distinct(Map(CardId, cards))
  }

  /** The round state: the source's state variables and the two flags of
      every card element. */
  datatype Round = Round(
    faceUp: seq<bool>,
    disabled: seq<bool>,
    flippedCards: seq<nat>,
    matchedPairs: nat,
    moves: nat,
    score: nat,
    lockBoard: bool)

  /** The invariant of a round on a board of n cards. */
  ghost predicate RoundInv(r: Round, n: nat)
  {
    && |r.faceUp| == n
    && |r.disabled| == n
    && (forall i :: 0 <= i < |r.flippedCards| ==> r.flippedCards[i] < n)
    // at most one pair attempt is pending, and the board is locked exactly
    // while it holds two cards
    && |r.flippedCards| <= 2
    && (r.lockBoard <==> |r.flippedCards| == 2)
    && (|r.flippedCards| == 2 ==> r.flippedCards[0] != r.flippedCards[1])
    // a card is face-up exactly when it is matched or pending
    && (forall k :: 0 <= k < n ==> r.disabled[k] ==> r.faceUp[k])
    && (forall k :: 0 <= k < n ==> (r.faceUp[k] && !r.disabled[k] <==> k in r.flippedCards))
    // counters
    && r.score == MatchReward * r.matchedPairs
    && r.matchedPairs + (if r.lockBoard then 1 else 0) <= r.moves
    && CountTrue(r.disabled) == 2 * r.matchedPairs
    && CountTrue(r.faceUp) == 2 * r.matchedPairs + |r.flippedCards|
  }

  /** The state `initGame` resets to on a board of n cards; it satisfies the
      round invariant on every board. */
  function Start(n: nat): (r: Round)
    ensures RoundInv(r, n)
  {
    CountTrueCleared(n);
    Round(Cleared(n), Cleared(n), [], 0, 0, 0, false)
  }

  /** The three guards of `flipCard`. */
  predicate FlipIgnored(r: Round, k: nat)
    requires k < |r.faceUp|
  {
    || r.lockBoard
    || (|r.flippedCards| > 0 && k == r.flippedCards[0])
    || r.faceUp[k]
  }

  /** `flipCard` on card element k, as a transition of the round.  A click
      never touches the disabled flags, the score or the found pairs, and
      never lowers the move counter. */
  function Flip(r: Round, k: nat): (r': Round)
    requires k < |r.faceUp|
    ensures |r'.faceUp| == |r.faceUp| && r'.disabled == r.disabled
    ensures r'.matchedPairs == r.matchedPairs && r'.score == r.score
    ensures r'.moves >= r.moves
  {
    if FlipIgnored(r, k) then r
    else
      var flipped := r.flippedCards + [k];
      r.(faceUp := r.faceUp[k := true],
         flippedCards := flipped,
         lockBoard := if |flipped| == 2 then true else r.lockBoard,
         moves := if |flipped| == 2 then r.moves + 1 else r.moves)
  }

  /** The test of `checkMatch`: the two pending cards have the same pair key. */
  predicate PairMatches(cards: seq<Card>, flipped: seq<nat>)
    requires |flipped| == 2 && flipped[0] < |cards| && flipped[1] < |cards|
  {
    cards[flipped[0]].pairId == cards[flipped[1]].pairId
  }

  /** `checkMatch` with the outcome of the pair-key test: `disableCards` and
      the score on a match, `unflipCards` otherwise; `resetBoard` in both.
      Either way the attempt ends, the board unlocks and the move counter
      stays. */
  function Resolve(r: Round, isMatch: bool): (r': Round)
    ensures r'.flippedCards == [] && !r'.lockBoard && r'.moves == r.moves
    ensures |r'.faceUp| == |r.faceUp| && |r'.disabled| == |r.disabled|
  {
    if isMatch then
      r.(disabled := Marked(r.disabled, r.flippedCards, true),
         score := r.score + MatchReward,
         matchedPairs := r.matchedPairs + 1,
         flippedCards := [],
         lockBoard := false)
    else
      r.(faceUp := Marked(r.faceUp, r.flippedCards, false),
         flippedCards := [],
         lockBoard := false)
  }

  /** In a valid round the first pending card is face-up, so the guard on it
      in `flipCard` never decides anything the face-up guard does not. */
  lemma FirstPendingGuardSubsumed(r: Round, n: nat, k: nat)
    requires RoundInv(r, n) && k < n
    ensures FlipIgnored(r, k) <==> r.lockBoard || r.faceUp[k]
  {
    if |r.flippedCards| > 0 {
      assert r.flippedCards[0] in r.flippedCards;
    }
  }

  /** A click that is not ignored turns card k, which was face-down, face-up
      and appends it to the pending cards, so exactly one more card is
      face-up; the move counter rises by one exactly when the click
      completes a pair attempt, which also locks the board; the disabled
      flags, the score and the found pairs stay. */
  lemma FlipChangesOneCard(r: Round, n: nat, k: nat)
    requires RoundInv(r, n) && k < n && !FlipIgnored(r, k)
    ensures var r' := Flip(r, k);
      && !r.faceUp[k]
      && r'.faceUp == r.faceUp[k := true]
      && r'.flippedCards == r.flippedCards + [k]
      && CountTrue(r'.faceUp) == CountTrue(r.faceUp) + 1
      && (r'.lockBoard <==> |r.flippedCards| == 1)
      && r'.moves == r.moves + (if r'.lockBoard then 1 else 0)
      && r'.disabled == r.disabled
      && r'.matchedPairs == r.matchedPairs && r'.score == r.score
  {
    CountTrueUpdate(r.faceUp, k, true);
  }

  /** `flipCard` keeps the invariant. */
  lemma FlipKeepsInv(r: Round, n: nat, k: nat)
    requires RoundInv(r, n) && k < n
    ensures RoundInv(Flip(r, k), n)
  {
    if !FlipIgnored(r, k) {
      CountTrueUpdate(r.faceUp, k, true);
      var r' := Flip(r, k);
      forall j | 0 <= j < n
        ensures r'.faceUp[j] && !r'.disabled[j] <==> j in r'.flippedCards
      {
        assert j in r'.flippedCards <==> j in r.flippedCards || j == k;
      }
    }
  }

  /** Marking the cells of a two-element list is two single updates. */
  lemma MarkedTwo(s: seq<bool>, ps: seq<nat>, b: bool)
    requires |ps| == 2 && ps[0] < |s| && ps[1] < |s|
    ensures Marked(s, ps, b) == s[ps[0] := b][ps[1] := b]
  {
    var t := s[ps[0] := b][ps[1] := b];
    forall k | 0 <= k < |s| ensures Marked(s, ps, b)[k] == t[k] {
      assert k in ps <==> k == ps[0] || k == ps[1];
    }
  }

  /** Marking the two distinct cells of a pending pair, neither already
      holding the mark, moves the count by two. */
  lemma MarkedPair(s: seq<bool>, ps: seq<nat>, b: bool)
    requires |ps| == 2 && ps[0] != ps[1] && ps[0] < |s| && ps[1] < |s|
    requires s[ps[0]] != b && s[ps[1]] != b
    ensures Marked(s, ps, b) == s[ps[0] := b][ps[1] := b]
    ensures CountTrue(Marked(s, ps, b)) == CountTrue(s) + (if b then 2 else -2)
  {
    MarkedTwo(s, ps, b);
    CountTrueUpdate(s, ps[0], b);
    CountTrueUpdate(s[ps[0] := b], ps[1], b);
  }

  /** What `checkMatch` does to the two pending cards and the counters: a
      match leaves both face-up and disables them and scores once; a
      mismatch turns both face-down and scores nothing; either way the
      attempt ends, the board unlocks, the move counter stays, and no other
      card changes. */
  lemma ResolveEffect(r: Round, n: nat, isMatch: bool)
    requires RoundInv(r, n) && r.lockBoard
    ensures var r' := Resolve(r, isMatch);
      var c1 := r.flippedCards[0];
      var c2 := r.flippedCards[1];
      && r'.flippedCards == [] && !r'.lockBoard && r'.moves == r.moves
      && (isMatch ==>
            && r'.disabled == r.disabled[c1 := true][c2 := true]
            && r'.faceUp == r.faceUp && r'.faceUp[c1] && r'.faceUp[c2]
            && r'.matchedPairs == r.matchedPairs + 1
            && r'.score == r.score + MatchReward)
      && (!isMatch ==>
            && r'.faceUp == r.faceUp[c1 := false][c2 := false]
            && r'.disabled == r.disabled
            && r'.matchedPairs == r.matchedPairs
            && r'.score == r.score)
  {
    var c1 := r.flippedCards[0];
    var c2 := r.flippedCards[1];
    assert c1 in r.flippedCards && c2 in r.flippedCards;
    if isMatch {
      MarkedPair(r.disabled, r.flippedCards, true);
    } else {
      MarkedPair(r.faceUp, r.flippedCards, false);
    }
  }

  /** A found pair keeps the invariant: both cards stay face-up and become
      matched. */
  lemma MatchKeepsInv(r: Round, n: nat)
    requires RoundInv(r, n) && r.lockBoard
    ensures RoundInv(Resolve(r, true), n)
  {
    var c1, c2 := r.flippedCards[0], r.flippedCards[1];
    assert c1 in r.flippedCards && c2 in r.flippedCards;
    MarkedPair(r.disabled, r.flippedCards, true);
    var d := r.disabled[c1 := true][c2 := true];
    forall j | 0 <= j < n ensures (d[j] ==> r.faceUp[j]) && !(r.faceUp[j] && !d[j]) {
      assert j in r.flippedCards <==> j == c1 || j == c2;
    }
  }

  /** A mismatch keeps the invariant: both cards turn face-down. */
  lemma MismatchKeepsInv(r: Round, n: nat)
    requires RoundInv(r, n) && r.lockBoard
    ensures RoundInv(Resolve(r, false), n)
  {
    var c1, c2 := r.flippedCards[0], r.flippedCards[1];
    assert c1 in r.flippedCards && c2 in r.flippedCards;
    MarkedPair(r.faceUp, r.flippedCards, false);
    var f := r.faceUp[c1 := false][c2 := false];
    forall j | 0 <= j < n ensures (r.disabled[j] ==> f[j]) && !(f[j] && !r.disabled[j]) {
      assert j in r.flippedCards <==> j == c1 || j == c2;
    }
  }

  /** `checkMatch` keeps the invariant. */
  lemma ResolveKeepsInv(r: Round, n: nat, isMatch: bool)
    requires RoundInv(r, n) && r.lockBoard
    ensures RoundInv(Resolve(r, isMatch), n)
  {
    if isMatch {
      MatchKeepsInv(r, n);
    } else {
      MismatchKeepsInv(r, n);
    }
  }

  /** The win test `matchedPairs === cardData.length` holds exactly when
      every card of the board is matched, and no more pairs than the table
      has are ever found. */
  lemma WinIffAllMatched(r: Round, pairs: nat)
    requires RoundInv(r, 2 * pairs)
    ensures r.matchedPairs <= pairs
    ensures r.matchedPairs == pairs <==> forall k :: 0 <= k < 2 * pairs ==> r.disabled[k]
  {
    CountTrueAll(r.disabled);
  }

  /** Once every pair is found nothing is pending and every card is face-up:
      every later click is ignored and `checkMatch` cannot run again, so the
      win message is scheduled once per round. */
  lemma WonIsFinal(r: Round, pairs: nat)
    requires RoundInv(r, 2 * pairs) && r.matchedPairs == pairs
    ensures r.flippedCards == [] && !r.lockBoard
    ensures forall k :: 0 <= k < 2 * pairs ==> FlipIgnored(r, k) && Flip(r, k) == r
  {
    // every card is matched, and the face-up count leaves no room for a
    // pending one
    WinIffAllMatched(r, pairs);
  }

  /** What can happen to a round: a click on card element k, or the
      `checkMatch` timer firing. */
  datatype Event = Click(k: nat) | CheckTimer

  /** One event on a valid round over the deck `cards`.  A click off the
      board changes nothing.  A timer firing with no pair pending (a stale
      timer after a reset) makes the source's `checkMatch` throw on its
      first line, before any state changes; the throw itself is not
      modelled, only that the state stays as it was. */
  function Step(cards: seq<Card>, r: Round, e: Event): (r': Round)
    requires RoundInv(r, |cards|)
    ensures RoundInv(r', |cards|)
  {
    match e
    case Click(k) =>
      if k < |cards| then FlipKeepsInv(r, |cards|, k); Flip(r, k) else r
    case CheckTimer =>
      if r.lockBoard then
        var isMatch := PairMatches(cards, r.flippedCards);
        ResolveKeepsInv(r, |cards|, isMatch);
        Resolve(r, isMatch)
      else r
  }

  /** A sequence of events, in order. */
  function Run(cards: seq<Card>, r: Round, events: seq<Event>): (r': Round)
    requires RoundInv(r, |cards|)
    ensures RoundInv(r', |cards|)
    decreases |events|
  {
    if events == [] then r else Run(cards, Step(cards, r, events[0]), events[1..])
  }

  /** Whatever the players do after a reset of a board built from a table of
      `pairs` entries, the score is ten points per found pair, no more pairs
      are found than moves made or than the table has, the face-up cards are
      the matched and the pending ones, and the win test holds exactly when
      every card is matched. */
  lemma RunFromStart(cards: seq<Card>, pairs: nat, events: seq<Event>)
    requires |cards| == 2 * pairs
    ensures var r := Run(cards, Start(|cards|), events);
      && r.score == MatchReward * r.matchedPairs
      && r.matchedPairs <= r.moves
      && r.matchedPairs <= pairs
      && |r.flippedCards| <= 2
      && CountTrue(r.faceUp) == 2 * r.matchedPairs + |r.flippedCards|
      && (r.matchedPairs == pairs <==> forall k :: 0 <= k < |cards| ==> r.disabled[k])
  {
    WinIffAllMatched(Run(cards, Start(|cards|), events), pairs);
  }

  class MemoryGame {
    /** The `cardData` table. */
    const cardData: seq<CardDef>
    /** The shuffled deck; position k is the k-th card element of the board. */
    var cards: seq<Card>
    /** Card element k has the `flipped` class: it shows its face. */
    var faceUp: seq<bool>
    /** Card element k no longer takes clicks: it belongs to a found pair. */
    var disabled: seq<bool>
    /** The card elements flipped in the current pair attempt, in order. */
    var flippedCards: seq<nat>
    var matchedPairs: nat
    var moves: nat
    var score: nat
    var lockBoard: bool
    /** The draws the current deck was shuffled with. */
    ghost var draws: seq<nat>

    /** The round state held in the fields. */
    ghost function State(): Round
      reads this
    {
      Round(faceUp, disabled, flippedCards, matchedPairs, moves, score, lockBoard)
    }

    /** The flags cover the board and the pending cards are on it. */
    ghost predicate Shaped()
      reads this
    {
      && |faceUp| == |cards|
      && |disabled| == |cards|
      && forall i :: 0 <= i < |flippedCards| ==> flippedCards[i] < |cards|
    }

    /** The deck is the table doubled and shuffled, and the round invariant
        holds. */
    ghost predicate Valid()
      reads this
    {
      && DeckOf(cardData, draws, cards)
      && RoundInv(State(), |cards|)
    }

    /** The page load: the state variables start at their initial values and
        `initGame` runs. */
    constructor (cardData: seq<CardDef>, draws: seq<nat>)
      requires ValidDraws(2 * |cardData|, draws)
      ensures this.cardData == cardData
      ensures Valid() && State() == Start(|cards|)
      ensures cards == Shuffled(BuildDeck(cardData), draws)
    {
      this.cardData := cardData;
      cards, faceUp, disabled, flippedCards := [], [], [], [];
      matchedPairs, moves, score, lockBoard := 0, 0, 0, false;
      this.draws := [];
      new;
      InitGame(draws);
    }

    /** `initGame`: builds the deck from the table, shuffles it in place with
        the given draws, and resets the round, whatever the state before. */
    method InitGame(choices: seq<nat>)
      requires ValidDraws(2 * |cardData|, choices)
      modifies this
      ensures Valid() && State() == Start(|cards|)
      ensures cards == Shuffled(BuildDeck(cardData), choices) && draws == choices
    {
      var deck := NewShuffledDeck(cardData, choices);
      ShuffledDeckIds(cardData, choices);
      cards, draws := deck, choices;
      flippedCards, matchedPairs, moves, score, lockBoard := [], 0, 0, 0, false;
      faceUp, disabled := Cleared(|deck|), Cleared(|deck|);
      assert State() == Start(|deck|);
    }

    /** `flipCard` on card element k: ignored while the board is locked, on
        the first pending card and on a face-up card; otherwise the card
        turns face-up, its sound is scheduled, and when it completes the pair
        attempt `checkMatch` is scheduled. */
    method FlipCard(k: nat) returns (effect: FlipEffect)
      requires Valid() && k < |cards|
      modifies this
      ensures Valid()
      ensures State() == Flip(old(State()), k)
      ensures cards == old(cards) && draws == old(draws)
      ensures effect == if FlipIgnored(old(State()), k) then Ignored
                        else Flipped(Some(cards[k].def.soundId), |flippedCards| == 2)
    {
      ghost var before := State();
      if lockBoard {
        return Ignored;
      }
      if |flippedCards| > 0 && k == flippedCards[0] {
        return Ignored;
      }
      if faceUp[k] {
        return Ignored;
      }

      faceUp, flippedCards := faceUp[k := true], flippedCards + [k];

      FindOwnId(cards, k);
      var cardInfo := FindById(cards, cards[k].id);
      var sound := if cardInfo.Some? then Some(cardInfo.value.def.soundId) else None;

      if |flippedCards| == 2 {
        lockBoard, moves := true, moves + 1;
      }
      effect := Flipped(sound, |flippedCards| == 2);
      assert State() == Flip(before, k);
      FlipKeepsInv(before, |cards|, k);
    }

    /** `checkMatch`, run by the timer `flipCard` set, on the two pending
        cards; the win message is scheduled when the pair found is the last
        one. */
    method CheckMatch() returns (outcome: MatchOutcome)
      requires Valid() && lockBoard
      modifies this
      ensures Valid()
      ensures var isMatch := PairMatches(cards, old(flippedCards));
        && State() == Resolve(old(State()), isMatch)
        && outcome == if isMatch then Matched(matchedPairs == |cardData|) else Mismatched
      ensures cards == old(cards) && draws == old(draws)
    {
      ghost var before := State();
      var card1, card2 := flippedCards[0], flippedCards[1];
      var isMatch := cards[card1].pairId == cards[card2].pairId;
      ResolveKeepsInv(before, |cards|, isMatch);

      if isMatch {
        DisableCards();
        score := score + MatchReward;
        matchedPairs := matchedPairs + 1;
        outcome := Matched(matchedPairs == |cardData|);
      } else {
        UnflipCards();
        outcome := Mismatched;
      }
    }

    /** `disableCards`: every pending card stops taking clicks; then the
        attempt ends. */
    method DisableCards()
      requires Shaped()
      modifies this
      ensures Shaped()
      ensures disabled == Marked(old(disabled), old(flippedCards), true)
      ensures flippedCards == [] && !lockBoard
      ensures faceUp == old(faceUp) && cards == old(cards) && draws == old(draws)
      ensures matchedPairs == old(matchedPairs) && moves == old(moves) && score == old(score)
    {
      var i := 0;
      while i < |flippedCards|
        invariant 0 <= i <= |flippedCards|
        invariant disabled == Marked(old(disabled), flippedCards[..i], true)
        invariant flippedCards == old(flippedCards) && lockBoard == old(lockBoard)
        invariant faceUp == old(faceUp) && cards == old(cards) && draws == old(draws)
        invariant matchedPairs == old(matchedPairs) && moves == old(moves) && score == old(score)
      {
        assert flippedCards[..i + 1] == flippedCards[..i] + [flippedCards[i]];
        disabled := disabled[flippedCards[i] := true];
        i := i + 1;
      }
      assert flippedCards[..i] == old(flippedCards);
      ResetBoard();
    }

    /** `unflipCards`: every pending card turns face-down again; then the
        attempt ends. */
    method UnflipCards()
      requires Shaped()
      modifies this
      ensures Shaped()
      ensures faceUp == Marked(old(faceUp), old(flippedCards), false)
      ensures flippedCards == [] && !lockBoard
      ensures disabled == old(disabled) && cards == old(cards) && draws == old(draws)
      ensures matchedPairs == old(matchedPairs) && moves == old(moves) && score == old(score)
    {
      var i := 0;
      while i < |flippedCards|
        invariant 0 <= i <= |flippedCards|
        invariant faceUp == Marked(old(faceUp), flippedCards[..i], false)
        invariant flippedCards == old(flippedCards) && lockBoard == old(lockBoard)
        invariant disabled == old(disabled) && cards == old(cards) && draws == old(draws)
        invariant matchedPairs == old(matchedPairs) && moves == old(moves) && score == old(score)
      {
        assert flippedCards[..i + 1] == flippedCards[..i] + [flippedCards[i]];
        faceUp := faceUp[flippedCards[i] := false];
        i := i + 1;
      }
      assert flippedCards[..i] == old(flippedCards);
      ResetBoard();
    }

    /** `resetBoard`: the attempt ends and the board unlocks. */
    method ResetBoard()
      modifies this
      ensures flippedCards == [] && !lockBoard
      ensures faceUp == old(faceUp) && disabled == old(disabled) && cards == old(cards)
      ensures draws == old(draws)
      ensures matchedPairs == old(matchedPairs) && moves == old(moves) && score == old(score)
    {
      lockBoard, flippedCards := false, [];
    }
  }
}
