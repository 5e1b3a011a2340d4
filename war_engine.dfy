/**
  The War engine: it owns the initial deck, deals it to two lazily created
  player decks and plays hands until one player holds every card. Each method
  is proved against the value-level rules of module WarRules.
 */
module Games {
  import opened Cards
  import opened Decks
  import opened WarRules

  /** The number of player decks once `dealt` cards were dealt to `existing` decks: at least one per player served. */
  function DeckCountAfter(existing: nat, dealt: nat): nat
  {
    if existing >= dealt || existing >= 2 then existing
    else if dealt >= 2 then 2
    else dealt
  }

  /** Dealing card `i` reuses player `i % 2`'s deck when it exists and creates it otherwise. */
  lemma DeckCountStep(existing: nat, i: nat)
    ensures i % 2 <= DeckCountAfter(existing, i)
    ensures DeckCountAfter(existing, i + 1)
      == if i % 2 < DeckCountAfter(existing, i) then DeckCountAfter(existing, i) else DeckCountAfter(existing, i) + 1
  {
  }

  class WarEngine {
    const initialDeck: Deck
    /** The players' decks, created on the first card dealt to each player. */
    var playerDecks: seq<Deck>
    /** The size of the initial deck when the engine was built. */
    const cardsCount: nat

    /** The decks are distinct objects, none of them the initial deck. */
    ghost predicate Valid()
      reads this
    {
      && initialDeck !in playerDecks
      && (forall i, j :: 0 <= i < j < |playerDecks| ==> playerDecks[i] != playerDecks[j])
    }

    /** The cards of player `i`, empty while that player has no deck yet. */
    ghost function DeckCards(i: nat): seq<Card>
      reads this, playerDecks
    {
      if i < |playerDecks| then playerDecks[i].cards else []
    }

    constructor (initialDeck: Deck)
      ensures this.initialDeck == initialDeck
      ensures cardsCount == |initialDeck.cards|
      ensures playerDecks == []
      ensures Valid()
    {
      this.initialDeck := initialDeck;
      var size := initialDeck.GetSize();
      this.cardsCount := size;
      this.playerDecks := [];
    }

    /**
      Shuffles the initial deck and deals all of it, card i going to player
      i % 2; `shuffled` is the deck's order after shuffling.
     */
    method Distribute() returns (ghost shuffled: seq<Card>)
      requires Valid()
      modifies this, initialDeck, playerDecks
      ensures Valid()
      ensures multiset(shuffled) == multiset(old(initialDeck.cards))
      ensures initialDeck.cards == []
      ensures DeckCards(0) == old(DeckCards(0)) + Dealt(shuffled, 0)
      ensures DeckCards(1) == old(DeckCards(1)) + Dealt(shuffled, 1)
      ensures |playerDecks| == DeckCountAfter(|old(playerDecks)|, |shuffled|)
      ensures forall j :: 0 <= j < |old(playerDecks)| ==> playerDecks[j] == old(playerDecks[j])
      ensures forall j :: |old(playerDecks)| <= j < |playerDecks| ==> fresh(playerDecks[j])
    {
      initialDeck.Shuffle();
      shuffled := initialDeck.cards;
      var size := initialDeck.GetSize();
      ghost var start0, start1 := DeckCards(0), DeckCards(1);
      for i := 0 to size
        invariant DealtSoFar(shuffled, i, start0, start1, old(playerDecks))
        invariant forall j :: |old(playerDecks)| <= j < |playerDecks| ==> fresh(playerDecks[j])
      {
        DealNext(shuffled, i, start0, start1, old(playerDecks));
      }
      assert shuffled[..size] == shuffled;
    }

    /**
      The state after dealing the first `i` cards of `shuffled`: the rest is
      still in the initial deck, each player's cards so far follow what they
      held before, and the decks that existed are still in place.
     */
    ghost predicate DealtSoFar(shuffled: seq<Card>, i: nat, start0: seq<Card>, start1: seq<Card>, existing: seq<Deck>)
      reads this, playerDecks, initialDeck
    {
      && i <= |shuffled|
      && Valid()
      && initialDeck.cards == shuffled[i..]
      && DeckCards(0) == start0 + Dealt(shuffled[..i], 0)
      && DeckCards(1) == start1 + Dealt(shuffled[..i], 1)
      && |playerDecks| == DeckCountAfter(|existing|, i)
      && (forall j :: 0 <= j < |existing| ==> playerDecks[j] == existing[j])
    }

    /** One step of the dealing loop: card `i` goes from the initial deck to player `i % 2`. */
    method DealNext(ghost shuffled: seq<Card>, i: nat, ghost start0: seq<Card>, ghost start1: seq<Card>, ghost existing: seq<Deck>)
      requires i < |shuffled| && DealtSoFar(shuffled, i, start0, start1, existing)
      modifies this, initialDeck, if i % 2 < |playerDecks| then {playerDecks[i % 2]} else {}
      ensures DealtSoFar(shuffled, i + 1, start0, start1, existing)
      ensures forall j :: old(|playerDecks|) <= j < |playerDecks| ==> fresh(playerDecks[j])
      ensures forall j :: 0 <= j < old(|playerDecks|) ==> playerDecks[j] == old(playerDecks[j])
    {
      var card := initialDeck.Pick();
      DealtStep(start0, shuffled, i, 0);
      DealtStep(start1, shuffled, i, 1);
      DeckCountStep(|existing|, i);
      AddCartToDeck(i % 2, card.value);
    }

    /**
      Appends a card to a player's deck, creating that deck first when the
      player has none; the new deck goes right after the existing ones.
     */
    method AddCartToDeck(playerNumber: nat, card: Card)
      requires Valid()
      requires playerNumber <= |playerDecks|
      modifies this, if playerNumber < |playerDecks| then {playerDecks[playerNumber]} else {}
      ensures Valid()
      ensures forall j: nat :: DeckCards(j) == old(DeckCards(j)) + if j == playerNumber then [card] else []
      ensures |playerDecks| == if playerNumber < old(|playerDecks|) then old(|playerDecks|) else old(|playerDecks|) + 1
      ensures forall j :: 0 <= j < old(|playerDecks|) ==> playerDecks[j] == old(playerDecks[j])
      ensures playerNumber == old(|playerDecks|) ==> fresh(playerDecks[playerNumber])
    {
      var playerDeck: Deck;
      if playerNumber < |playerDecks| {
        playerDeck := playerDecks[playerNumber];
      } else {
        playerDeck := new Deck([]);
        playerDecks := playerDecks + [playerDeck];
      }
      playerDeck.Add(card);
    }

    /** The loop guard: player 0 holds some, but not all, of the cards. */
    method HasAnyoneWon() returns (b: bool)
      requires |playerDecks| >= 1
      ensures b == WarRules.HasAnyoneWon(playerDecks[0].cards, cardsCount)
    {
      var size := playerDecks[0].GetSize();
      b := size > 0 && size != cardsCount;
    }

    /** Player 0 then player 1 draw a card onto the hand; false when a pick fails. */
    method PlayCards(hand: seq<Card>) returns (ok: bool, hand': seq<Card>)
      requires Valid() && |playerDecks| == 2
      modifies playerDecks
      ensures (ok, Table(playerDecks[0].cards, playerDecks[1].cards, hand'))
        == WarRules.PlayCards(Table(old(playerDecks[0].cards), old(playerDecks[1].cards), hand))
    {
      ghost var t := Table(playerDecks[0].cards, playerDecks[1].cards, hand);
      var c0 := playerDecks[0].Pick();
      if c0.None? {
        assert t.deck0 == [];
        return false, hand;
      }
      hand' := hand + [c0.value];
      var c1 := playerDecks[1].Pick();
      if c1.None? {
        assert t.deck0 != [] && t.deck1 == [];
        return false, hand';
      }
      hand' := hand' + [c1.value];
      ok := true;
      assert hand' == hand + [t.deck0[0], t.deck1[0]];
    }

    /**
      Compares the last pair drawn: the higher card wins; on a tie a hidden
      pair is drawn and a new comparison starts. PickFailed stands for the
      exception of a pick from an empty deck.
     */
    method GetWinner(hand: seq<Card>) returns (outcome: HandOutcome, hand': seq<Card>)
      requires Valid() && |playerDecks| == 2
      modifies playerDecks
      decreases |playerDecks[0].cards| + |playerDecks[1].cards|
      ensures (outcome, Table(playerDecks[0].cards, playerDecks[1].cards, hand'))
        == Fight(Table(old(playerDecks[0].cards), old(playerDecks[1].cards), hand))
    {
      var ok;
      ok, hand' := PlayCards(hand);
      if !ok {
        return PickFailed, hand';
      }
      var player1Card, player2Card := hand'[|hand'| - 2], hand'[|hand'| - 1];
      if IsGreaterThan(player1Card, player2Card) {
        outcome := Won(0);
      } else if IsGreaterThan(player2Card, player1Card) {
        outcome := Won(1);
      } else {
        ok, hand' := PlayCards(hand');
        if !ok {
          return PickFailed, hand';
        }
        outcome, hand' := GetWinner(hand');
      }
    }

    /**
      Plays one hand from an empty played list: the comparison's winner, or,
      when a pick failed, the player named by the parity of the played count.
     */
    method GetHandWinner() returns (handWinner: nat, playedCards: seq<Card>)
      requires Valid() && |playerDecks| == 2
      modifies playerDecks
      ensures (handWinner, Table(playerDecks[0].cards, playerDecks[1].cards, playedCards))
        == ResolveHand(old(playerDecks[0].cards), old(playerDecks[1].cards))
    {
      var outcome;
      outcome, playedCards := GetWinner([]);
      match outcome
      case Won(p) =>
        handWinner := p;
      case PickFailed =>
        var x := |playedCards| % 2 - 1;
        handWinner := if x < 0 then -x else x;
    }

    /** The body of the game loop: one hand is played and its cards go to the back of the winner's deck. */
    method PlayOneHand()
      requires Valid() && |playerDecks| == 2
      modifies playerDecks
      ensures (playerDecks[0].cards, playerDecks[1].cards)
        == PlayHand(old(playerDecks[0].cards), old(playerDecks[1].cards))
    {
      var handWinner, playedCards := GetHandWinner();
      var winnerDeck := playerDecks[handWinner];
      ghost var base := winnerDeck.cards;
      for i := 0 to |playedCards|
        modifies winnerDeck
        invariant winnerDeck.cards == base + playedCards[..i]
      {
        winnerDeck.Add(playedCards[i]);
      }
      assert playedCards[..|playedCards|] == playedCards;
    }

    /**
      Plays hands while the guard holds, each hand's cards going to the back of
      its winner's deck, for at most `hands` hands; then player 0 wins iff it
      holds a card.
     */
    method Play(hands: nat) returns (outcome: GameOutcome)
      requires Valid()
      requires |playerDecks| == 2
        || (|playerDecks| == 1 && !WarRules.HasAnyoneWon(playerDecks[0].cards, cardsCount))
      modifies playerDecks
      ensures (outcome, DeckCards(0), DeckCards(1)) == Game(old(DeckCards(0)), old(DeckCards(1)), cardsCount, hands)
    {
      var remaining := hands;
      var going := HasAnyoneWon();
      while going
        invariant going == WarRules.HasAnyoneWon(DeckCards(0), cardsCount)
        invariant going ==> |playerDecks| == 2
        invariant Game(DeckCards(0), DeckCards(1), cardsCount, remaining)
          == Game(old(DeckCards(0)), old(DeckCards(1)), cardsCount, hands)
        decreases remaining
      {
        if remaining == 0 {
          return Unfinished;
        }
        ghost var before0, before1 := playerDecks[0].cards, playerDecks[1].cards;
        PlayOneHand();
        GameStep(before0, before1, cardsCount, remaining);
        ghost var after0, after1 := playerDecks[0].cards, playerDecks[1].cards;
        remaining := remaining - 1;
        going := HasAnyoneWon();
        assert playerDecks[0].cards == after0 && playerDecks[1].cards == after1;
      }
      var size := playerDecks[0].GetSize();
      outcome := Winner(if size > 0 then 0 else 1);
    }
  }

  /**
    A whole game as the engine's callers run it: build the engine on a deck,
    deal it, and play. The winner ends holding every card of the deck and the
    loser none; `shuffled` is the order the deck was dealt in.
   */
  method NewGame(deck: Deck, hands: nat) returns (engine: WarEngine, outcome: GameOutcome, ghost shuffled: seq<Card>)
    requires |deck.cards| >= 1
    modifies deck
    ensures fresh(engine) && engine.initialDeck == deck && engine.cardsCount == |old(deck.cards)|
    ensures multiset(shuffled) == multiset(old(deck.cards))
    ensures (outcome, engine.DeckCards(0), engine.DeckCards(1))
      == Game(Dealt(shuffled, 0), Dealt(shuffled, 1), engine.cardsCount, hands)
    ensures multiset(engine.DeckCards(0)) + multiset(engine.DeckCards(1)) == multiset(old(deck.cards))
    ensures outcome == Winner(0) ==> |engine.DeckCards(0)| == engine.cardsCount && engine.DeckCards(1) == []
    ensures outcome == Winner(1) ==> engine.DeckCards(0) == [] && |engine.DeckCards(1)| == engine.cardsCount
  {
    engine := new WarEngine(deck);
    shuffled := engine.Distribute();
    ghost var d0, d1 := engine.DeckCards(0), engine.DeckCards(1);
    assert d0 == Dealt(shuffled, 0) && d1 == Dealt(shuffled, 1);
    assert |multiset(shuffled)| == |multiset(old(deck.cards))|;
    DealtLength(shuffled);
    DealtConserves(shuffled);
    outcome := engine.Play(hands);
    GameConserves(d0, d1, engine.cardsCount, hands);
    WinnerHoldsAllCards(d0, d1, engine.cardsCount, hands);
  }
}
