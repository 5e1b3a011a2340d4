/**
  A playing card: an immutable pair of a suit and a rank. Cards compare by rank
  only; structural equality (Dafny's `==` on the datatype) compares both fields.
 */
module Cards {
  import opened Values

  datatype Suit = Hearts | Spades | Diamonds | Clubs

  datatype Card = Card(suit: Suit, value: Value)

  /** True iff this card's rank comes strictly later in the rank order. */
  predicate IsGreaterThan(c: Card, other: Card)
  {
    Ordinal(c.value) > Ordinal(other.value)
  }

  /** True iff the two cards have the same rank, whatever their suits. */
  predicate IsEqualTo(c: Card, other: Card)
  {
    c.value == other.value
  }

  /** The one-character symbol of a suit; clubs is the fallback of the switch. */
  function Symbol(s: Suit): (r: char)
    ensures r in {'♥', '♠', '♦', '♣'}
  {
    match s
    case Hearts => '♥'
    case Spades => '♠'
    case Diamonds => '♦'
    case _ => '♣'
  }

  /** The display form of a card: the rank's display string and the suit symbol in brackets. */
  function ToString(c: Card): (s: string)
    ensures |s| == |DisplayValue(c.value)| + 3
    ensures s[0] == '[' && s[|s| - 1] == ']' && s[|s| - 2] == Symbol(c.suit)
    ensures s[1..|s| - 2] == DisplayValue(c.value)
  {
    "[" + DisplayValue(c.value) + [Symbol(c.suit)] + "]"
  }

  /** Comparison ignores suit: only ranks are compared. */
  lemma ComparisonIgnoresSuit(a: Card, b: Card, s: Suit, t: Suit)
    ensures IsGreaterThan(a, b) <==> IsGreaterThan(Card(s, a.value), Card(t, b.value))
    ensures IsEqualTo(a, b) <==> IsEqualTo(Card(s, a.value), Card(t, b.value))
  {
  }

  /** IsGreaterThan is a strict order: irreflexive, asymmetric and transitive. */
  lemma GreaterIsStrictOrder(a: Card, b: Card, c: Card)
    ensures !IsGreaterThan(a, a)
    ensures IsGreaterThan(a, b) ==> !IsGreaterThan(b, a)
    ensures IsGreaterThan(a, b) && IsGreaterThan(b, c) ==> IsGreaterThan(a, c)
  {
  }

  /** IsEqualTo is an equivalence relation, and it holds iff the ranks are equal. */
  lemma EqualToIsEquivalence(a: Card, b: Card, c: Card)
    ensures IsEqualTo(a, a)
    ensures IsEqualTo(a, b) ==> IsEqualTo(b, a)
    ensures IsEqualTo(a, b) && IsEqualTo(b, c) ==> IsEqualTo(a, c)
    ensures IsEqualTo(a, b) <==> Ordinal(a.value) == Ordinal(b.value)
  {
  }

  /** Exactly one of "a beats b", "b beats a" and "same rank" holds. */
  lemma Trichotomy(a: Card, b: Card)
    ensures IsGreaterThan(a, b) || IsGreaterThan(b, a) || IsEqualTo(a, b)
    ensures !(IsGreaterThan(a, b) && IsGreaterThan(b, a))
    ensures !(IsGreaterThan(a, b) && IsEqualTo(a, b))
    ensures !(IsGreaterThan(b, a) && IsEqualTo(a, b))
  {
    OrdinalIsPosition(0, a.value);
    OrdinalIsPosition(0, b.value);
  }

  /** Structural equality needs both suit and rank: equal rank alone is not enough. */
  lemma StructuralEquality(a: Card, b: Card)
    ensures a == b <==> a.suit == b.suit && IsEqualTo(a, b)
    ensures IsEqualTo(Card(Hearts, Two), Card(Spades, Two)) && Card(Hearts, Two) != Card(Spades, Two)
  {
  }

  /** Different suits have different symbols. */
  lemma SymbolInjective(s: Suit, t: Suit)
    ensures Symbol(s) == Symbol(t) <==> s == t
  {
  }

  /** Different cards are displayed differently. */
  lemma ToStringInjective(a: Card, b: Card)
    ensures ToString(a) == ToString(b) <==> a == b
  {
    var sa, sb := ToString(a), ToString(b);
    if sa == sb {
      assert |DisplayValue(a.value)| == |DisplayValue(b.value)|;
      assert Symbol(a.suit) == Symbol(b.suit);
      SymbolInjective(a.suit, b.suit);
      assert DisplayValue(a.value) == sa[1..|sa| - 2] == DisplayValue(b.value);
      DisplayValueInjective(a.value, b.value);
    }
  }
}
