/**
  Concrete games of War worked out on the rules of module WarRules: the
  unshuffled decks of the engine's unit tests, and a four-card deck whose game
  never ends.
 */
module Scenarios {
  import opened Values
  import opened Cards
  import opened WarRules

  const TwoOfSpades := Card(Spades, Two)
  const ThreeOfSpades := Card(Spades, Three)
  const FourOfSpades := Card(Spades, Four)
  const KingOfSpades := Card(Spades, King)
  const AceOfSpades := Card(Spades, Ace)
  const TwoOfHearts := Card(Hearts, Two)
  const ThreeOfHearts := Card(Hearts, Three)
  const FourOfHearts := Card(Hearts, Four)
  const AceOfHearts := Card(Hearts, Ace)

  /** Dealing is fair: both players get half the deck, player 0 the odd card out. */
  lemma DealingIsFair(s: seq<Card>)
    ensures |Dealt(s, 0)| + |Dealt(s, 1)| == |s|
    ensures |Dealt(s, 1)| <= |Dealt(s, 0)| <= |Dealt(s, 1)| + 1
    ensures |s| == 6 ==> |Dealt(s, 0)| == 3 && |Dealt(s, 1)| == 3
    ensures |s| == 7 ==> |Dealt(s, 0)| == 4 && |Dealt(s, 1)| == 3
  {
    DealtLength(s);
  }

  /** The hands dealt from `s` are the cards at its even and at its odd positions. */
  lemma DealtByPosition(s: seq<Card>, d0: seq<Card>, d1: seq<Card>)
    requires |d0| == (|s| + 1) / 2 && |d1| == |s| / 2
    requires forall k :: 0 <= k < |d0| ==> d0[k] == s[2 * k]
    requires forall k :: 0 <= k < |d1| ==> d1[k] == s[2 * k + 1]
    ensures Dealt(s, 0) == d0 && Dealt(s, 1) == d1
  {
    DealtLength(s);
    forall k | 0 <= k < |d0|
      ensures Dealt(s, 0)[k] == d0[k]
    {
      DealtAt(s, 0, k);
    }
    forall k | 0 <= k < |d1|
      ensures Dealt(s, 1)[k] == d1[k]
    {
      DealtAt(s, 1, k);
    }
  }

  /** Both players draw the front card of their deck onto the played list. */
  lemma PairDrawn(t: Table, u: Table)
    requires t.deck0 != [] && t.deck1 != []
    requires u.deck0 == t.deck0[1..] && u.deck1 == t.deck1[1..]
    requires u.played == t.played + [t.deck0[0], t.deck1[0]]
    ensures PlayCards(t) == (true, u)
  {
  }

  /** A face-up pair of different ranks decides the comparison. */
  lemma PairDecides(t: Table, u: Table, winner: nat)
    requires PlayCards(t) == (true, u)
    requires winner == 0 ==> IsGreaterThan(u.played[|u.played| - 2], u.played[|u.played| - 1])
    requires winner == 1 ==> IsGreaterThan(u.played[|u.played| - 1], u.played[|u.played| - 2])
    requires winner < 2
    ensures Fight(t) == (Won(winner), u)
  {
    GreaterIsStrictOrder(u.played[|u.played| - 2], u.played[|u.played| - 1], u.played[|u.played| - 1]);
  }

  /** A tied face-up pair followed by a hidden pair hands the comparison over to the next pair. */
  lemma TieGoesToWar(t: Table, u: Table, v: Table)
    requires PlayCards(t) == (true, u)
    requires IsEqualTo(u.played[|u.played| - 2], u.played[|u.played| - 1])
    requires PlayCards(u) == (true, v)
    ensures Fight(t) == Fight(v)
  {
    Trichotomy(u.played[|u.played| - 2], u.played[|u.played| - 1]);
  }

  /** The resolved hand's played cards go to the back of its winner's deck. */
  lemma HandTaken(deck0: seq<Card>, deck1: seq<Card>, u: Table, winner: nat, next0: seq<Card>, next1: seq<Card>)
    requires ResolveHand(deck0, deck1) == (winner, u)
    requires winner == 0 ==> next0 == u.deck0 + u.played && next1 == u.deck1
    requires winner != 0 ==> next0 == u.deck0 && next1 == u.deck1 + u.played
    ensures PlayHand(deck0, deck1) == (next0, next1)
  {
  }

  /**
    A hand whose first pair has different ranks: the higher card's owner puts
    the pair, its own card first, at the back of its deck.
   */
  lemma HandWithoutWar(deck0: seq<Card>, deck1: seq<Card>)
    requires deck0 != [] && deck1 != [] && !IsEqualTo(deck0[0], deck1[0])
    ensures PlayHand(deck0, deck1)
      == if IsGreaterThan(deck0[0], deck1[0]) then (deck0[1..] + [deck0[0], deck1[0]], deck1[1..])
         else (deck0[1..], deck1[1..] + [deck0[0], deck1[0]])
  {
    var t0, u := Table(deck0, deck1, []), Table(deck0[1..], deck1[1..], [deck0[0], deck1[0]]);
    PairDrawn(t0, u);
    Trichotomy(deck0[0], deck1[0]);
    var w := if IsGreaterThan(deck0[0], deck1[0]) then 0 else 1;
    PairDecides(t0, u, w);
    assert ResolveHand(deck0, deck1) == (w, u);
    if w == 0 {
      HandTaken(deck0, deck1, u, w, deck0[1..] + [deck0[0], deck1[0]], deck1[1..]);
    } else {
      HandTaken(deck0, deck1, u, w, deck0[1..], deck1[1..] + [deck0[0], deck1[0]]);
    }
  }

  /**
    The deck 2♠ 3♠, unshuffled: player 1's three beats player 0's two in the
    first hand, and player 1 ends with both cards.
   */
  lemma HigherCardWins(s: seq<Card>, hands: nat)
    requires s == [TwoOfSpades, ThreeOfSpades] && hands >= 1
    ensures Game(Dealt(s, 0), Dealt(s, 1), |s|, hands) == (Winner(1), [], s)
  {
    var d0, d1 := [TwoOfSpades], [ThreeOfSpades];
    DealtByPosition(s, d0, d1);
    HandWithoutWar(d0, d1);
    assert d1[1..] + [d0[0], d1[0]] == s;
    GameStep(d0, d1, 2, hands);
  }

  /**
    The deck 2♠ 3♠ 4♠, unshuffled: player 1 takes the first hand, player 0 the
    next two, and player 0 ends with all three cards after three hands.
   */
  lemma SeveralHands(s: seq<Card>, hands: nat)
    requires s == [TwoOfSpades, ThreeOfSpades, FourOfSpades] && hands >= 3
    ensures Game(Dealt(s, 0), Dealt(s, 1), |s|, hands) == (Winner(0), [TwoOfSpades, FourOfSpades, ThreeOfSpades], [])
  {
    DealtByPosition(s, [TwoOfSpades, FourOfSpades], [ThreeOfSpades]);
    SeveralHandsFirst([TwoOfSpades, FourOfSpades], [ThreeOfSpades], hands);
  }

  /** Hand 1 of the 2♠ 3♠ 4♠ game: 3♠ beats 2♠; then two more hands. */
  lemma SeveralHandsFirst(d0: seq<Card>, d1: seq<Card>, hands: nat)
    requires d0 == [TwoOfSpades, FourOfSpades] && d1 == [ThreeOfSpades] && hands >= 3
    ensures Game(d0, d1, 3, hands) == (Winner(0), [TwoOfSpades, FourOfSpades, ThreeOfSpades], [])
  {
    var e0, e1 := [FourOfSpades], [TwoOfSpades, ThreeOfSpades];
    HandWithoutWar(d0, d1);
    assert d0[1..] == e0 && d1[1..] + [d0[0], d1[0]] == e1;
    assert PlayHand(d0, d1) == (e0, e1);
    GameStep(d0, d1, 3, hands);
    SeveralHandsSecond(e0, e1, hands - 1);
  }

  /** Hand 2 of the 2♠ 3♠ 4♠ game: 4♠ beats 2♠; then one more hand. */
  lemma SeveralHandsSecond(e0: seq<Card>, e1: seq<Card>, hands: nat)
    requires e0 == [FourOfSpades] && e1 == [TwoOfSpades, ThreeOfSpades] && hands >= 2
    ensures Game(e0, e1, 3, hands) == (Winner(0), [TwoOfSpades, FourOfSpades, ThreeOfSpades], [])
  {
    var f0, f1 := [FourOfSpades, TwoOfSpades], [ThreeOfSpades];
    HandWithoutWar(e0, e1);
    assert e0[1..] + [e0[0], e1[0]] == f0 && e1[1..] == f1;
    assert PlayHand(e0, e1) == (f0, f1);
    GameStep(e0, e1, 3, hands);
    SeveralHandsThird(f0, f1, hands - 1);
  }

  /** Hand 3 of the 2♠ 3♠ 4♠ game: 4♠ beats 3♠ and player 1 is out of cards. */
  lemma SeveralHandsThird(f0: seq<Card>, f1: seq<Card>, hands: nat)
    requires f0 == [FourOfSpades, TwoOfSpades] && f1 == [ThreeOfSpades] && hands >= 1
    ensures Game(f0, f1, 3, hands) == (Winner(0), [TwoOfSpades, FourOfSpades, ThreeOfSpades], [])
  {
    HandWithoutWar(f0, f1);
    assert f0[1..] + [f0[0], f1[0]] == [TwoOfSpades, FourOfSpades, ThreeOfSpades];
    GameStep(f0, f1, 3, hands);
  }

  /**
    The deck 3♥ 3♠ K♠ 2♥ 2♠ 4♥, unshuffled: the threes tie, K♠ and 2♥ are
    drawn hidden, and player 1's 4♥ beats 2♠, so player 1 takes all six cards
    in one hand although player 0 was dealt the king.
   */
  lemma WarDecidesHand(s: seq<Card>, hands: nat)
    requires s == [ThreeOfHearts, ThreeOfSpades, KingOfSpades, TwoOfHearts, TwoOfSpades, FourOfHearts]
    requires hands >= 1
    ensures Game(Dealt(s, 0), Dealt(s, 1), |s|, hands) == (Winner(1), [], s)
  {
    var d0, d1 := [ThreeOfHearts, KingOfSpades, TwoOfSpades], [ThreeOfSpades, TwoOfHearts, FourOfHearts];
    DealtByPosition(s, d0, d1);
    WarHand(s, d0, d1);
    GameStep(d0, d1, 6, hands);
  }

  /** The one hand of the 3♥ 3♠ K♠ 2♥ 2♠ 4♥ game: a war that 4♥ wins for player 1. */
  lemma WarHand(s: seq<Card>, d0: seq<Card>, d1: seq<Card>)
    requires s == [ThreeOfHearts, ThreeOfSpades, KingOfSpades, TwoOfHearts, TwoOfSpades, FourOfHearts]
    requires d0 == [ThreeOfHearts, KingOfSpades, TwoOfSpades] && d1 == [ThreeOfSpades, TwoOfHearts, FourOfHearts]
    ensures PlayHand(d0, d1) == ([], s)
  {
    var t0 := Table(d0, d1, []);
    var t1 := Table([KingOfSpades, TwoOfSpades], [TwoOfHearts, FourOfHearts], [ThreeOfHearts, ThreeOfSpades]);
    var t2 := Table([TwoOfSpades], [FourOfHearts], [ThreeOfHearts, ThreeOfSpades, KingOfSpades, TwoOfHearts]);
    var t3 := Table([], [], s);
    PairDrawn(t0, t1);
    PairDrawn(t1, t2);
    TieGoesToWar(t0, t1, t2);
    PairDrawn(t2, t3);
    PairDecides(t2, t3, 1);
    assert ResolveHand(d0, d1) == (1, t3);
    HandTaken(d0, d1, t3, 1, [], s);
  }

  /**
    The deck 3♥ 3♠ 2♥ K♠ 2♠, unshuffled: the threes tie, 2♥ and K♠ are drawn
    hidden, player 0 draws 2♠ and player 1's deck is empty. Five cards were
    played, an odd count, so player 0 takes the hand and the game.
   */
  lemma ShortDeckLosesWar(s: seq<Card>, hands: nat)
    requires s == [ThreeOfHearts, ThreeOfSpades, TwoOfHearts, KingOfSpades, TwoOfSpades]
    requires hands >= 1
    ensures Game(Dealt(s, 0), Dealt(s, 1), |s|, hands) == (Winner(0), s, [])
  {
    var d0, d1 := [ThreeOfHearts, TwoOfHearts, TwoOfSpades], [ThreeOfSpades, KingOfSpades];
    DealtByPosition(s, d0, d1);
    ShortDeckHand(s, d0, d1);
    GameStep(d0, d1, 5, hands);
  }

  /** The one hand of the 3♥ 3♠ 2♥ K♠ 2♠ game: a war in which player 1 runs out of cards. */
  lemma ShortDeckHand(s: seq<Card>, d0: seq<Card>, d1: seq<Card>)
    requires s == [ThreeOfHearts, ThreeOfSpades, TwoOfHearts, KingOfSpades, TwoOfSpades]
    requires d0 == [ThreeOfHearts, TwoOfHearts, TwoOfSpades] && d1 == [ThreeOfSpades, KingOfSpades]
    ensures PlayHand(d0, d1) == (s, [])
  {
    var t0 := Table(d0, d1, []);
    var t1 := Table([TwoOfHearts, TwoOfSpades], [KingOfSpades], [ThreeOfHearts, ThreeOfSpades]);
    var t2 := Table([TwoOfSpades], [], [ThreeOfHearts, ThreeOfSpades, TwoOfHearts, KingOfSpades]);
    var t3 := Table([], [], s);
    PairDrawn(t0, t1);
    PairDrawn(t1, t2);
    TieGoesToWar(t0, t1, t2);
    LastCardDrawn(t2, t3);
    assert ParityWinner(|t3.played|) == 0;
    assert ResolveHand(d0, d1) == (0, t3);
    HandTaken(d0, d1, t3, 0, s, []);
  }

  /**
    The deck 3♥ 3♠, unshuffled: the threes tie and both decks are then empty.
    Player 0's pick fails after two cards, an even count, so player 1 takes the
    hand and the game.
   */
  lemma TieOnLastCards(s: seq<Card>, hands: nat)
    requires s == [ThreeOfHearts, ThreeOfSpades] && hands >= 1
    ensures Game(Dealt(s, 0), Dealt(s, 1), |s|, hands) == (Winner(1), [], s)
  {
    var d0, d1 := [ThreeOfHearts], [ThreeOfSpades];
    DealtByPosition(s, d0, d1);
    TieHand(s, d0, d1);
    GameStep(d0, d1, 2, hands);
  }

  /** The one hand of the 3♥ 3♠ game: a tie that player 0 cannot follow up. */
  lemma TieHand(s: seq<Card>, d0: seq<Card>, d1: seq<Card>)
    requires s == [ThreeOfHearts, ThreeOfSpades]
    requires d0 == [ThreeOfHearts] && d1 == [ThreeOfSpades]
    ensures PlayHand(d0, d1) == ([], s)
  {
    var t0, t1 := Table(d0, d1, []), Table([], [], s);
    PairDrawn(t0, t1);
    Trichotomy(ThreeOfHearts, ThreeOfSpades);
    assert PlayCards(t1) == (false, t1);
    assert Fight(t0) == (PickFailed, t1);
    assert ResolveHand(d0, d1) == (1, t1);
    HandTaken(d0, d1, t1, 1, [], s);
  }

  /** Player 0 draws its front card and player 1's pick fails on an empty deck. */
  lemma LastCardDrawn(t: Table, u: Table)
    requires t.deck0 != [] && t.deck1 == []
    requires u.deck0 == t.deck0[1..] && u.deck1 == []
    requires u.played == t.played + [t.deck0[0]]
    ensures PlayCards(t) == (false, u)
    ensures Fight(t) == (PickFailed, u)
  {
  }

  /**
    The four positions of the game dealt from A♥ 2♠ 2♥ A♠: each ace takes the
    two it meets, and after four hands the decks are back where they started.
   */
  ghost predicate InCycle(deck0: seq<Card>, deck1: seq<Card>)
  {
    || (deck0 == [AceOfHearts, TwoOfHearts] && deck1 == [TwoOfSpades, AceOfSpades])
    || (deck0 == [TwoOfHearts, AceOfHearts, TwoOfSpades] && deck1 == [AceOfSpades])
    || (deck0 == [AceOfHearts, TwoOfSpades] && deck1 == [TwoOfHearts, AceOfSpades])
    || (deck0 == [TwoOfSpades, AceOfHearts, TwoOfHearts] && deck1 == [AceOfSpades])
  }

  /** From a position of the cycle, the game goes on and the next hand leads to the next position. */
  lemma CycleStep(deck0: seq<Card>, deck1: seq<Card>)
    requires InCycle(deck0, deck1)
    ensures HasAnyoneWon(deck0, 4)
    ensures InCycle(PlayHand(deck0, deck1).0, PlayHand(deck0, deck1).1)
  {
    HandWithoutWar(deck0, deck1);
  }

  /**
    The game dealt from A♥ 2♠ 2♥ A♠ never ends: whatever the hand budget,
    the loop is still going when it runs out.
   */
  lemma {:induction false} EndlessGame(deck0: seq<Card>, deck1: seq<Card>, hands: nat)
    requires InCycle(deck0, deck1)
    ensures Game(deck0, deck1, 4, hands).0 == Unfinished
    ensures InCycle(Game(deck0, deck1, 4, hands).1, Game(deck0, deck1, 4, hands).2)
    decreases hands
  {
    CycleStep(deck0, deck1);
    if hands > 0 {
      var next := PlayHand(deck0, deck1);
      GameStep(deck0, deck1, 4, hands);
      EndlessGame(next.0, next.1, hands - 1);
    }
  }

  /** The deck A♥ 2♠ 2♥ A♠ deals the first position of the endless cycle. */
  lemma EndlessDeal(s: seq<Card>)
    requires s == [AceOfHearts, TwoOfSpades, TwoOfHearts, AceOfSpades]
    ensures InCycle(Dealt(s, 0), Dealt(s, 1))
  {
    DealtByPosition(s, [AceOfHearts, TwoOfHearts], [TwoOfSpades, AceOfSpades]);
  }
}
