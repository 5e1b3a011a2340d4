/**
  A deck: a mutable, ordered list of cards whose front is the next card drawn.
  Drawing from an empty deck is the game's only failure; here it is the `None`
  result of `Pick` and `Peek` instead of an exception.
 */
module Decks {
  import opened Cards

  datatype Option<T> = None | Some(value: T)

  class Deck {
    /** The cards, front (next to be drawn) first. */
    var cards: seq<Card>

    constructor (cards: seq<Card>)
      ensures this.cards == cards
    {
      this.cards := cards;
    }

    /** The number of cards held. */
    method GetSize() returns (n: nat)
      ensures n == |cards|
    {
      n := |cards|;
    }

    /**
      Removes and returns the front card; fails, changing nothing, when the deck
      is empty.
     */
    method Pick() returns (r: Option<Card>)
      modifies this
      ensures old(cards) == [] ==> r == None && cards == old(cards)
      ensures old(cards) != [] ==> r == Some(old(cards)[0]) && cards == old(cards)[1..]
      ensures r.Some? ==> old(cards) == [r.value] + cards
    {
      if |cards| == 0 {
        return None;
      }
      r := Some(cards[0]);
      cards := cards[1..];
    }

    /** Returns the front card without removing it; fails when the deck is empty. */
    method Peek() returns (r: Option<Card>)
      ensures r == None <==> cards == []
      ensures r.Some? ==> r.value == cards[0]
    {
      if |cards| == 0 {
        return None;
      }
      r := Some(cards[0]);
    }

    /** Reorders the cards into some permutation of themselves, chosen arbitrarily. */
    method Shuffle()
      modifies this
      ensures multiset(cards) == multiset(old(cards))
      ensures |cards| == |old(cards)|
    {
      var shuffled :| multiset(shuffled) == multiset(cards);
      cards := shuffled;
    }

    /** Appends a card at the back, leaving the cards already held untouched. */
    method Add(card: Card)
      modifies this
      ensures cards == old(cards) + [card]
    {
      cards := cards + [card];
    }
  }

  /** Two peeks with nothing in between return the same card. */
  method PeekTwice(d: Deck) returns (first: Option<Card>, second: Option<Card>)
    ensures first == second
    ensures first.Some? <==> d.cards != []
  {
    first := d.Peek();
    second := d.Peek();
  }
}
