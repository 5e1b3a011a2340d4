/**
  The thirteen card ranks of the War game, in declaration order (lowest first),
  each with the short string shown when a card is displayed.
 */
module Values {

  datatype Value =
    | Two | Three | Four | Five | Six | Seven | Eight | Nine | Ten
    | Jack | Queen | King | Ace

  /** All ranks in declaration order, as the enum's `values()` lists them. */
  const AllValues: seq<Value> :=
    [Two, Three, Four, Five, Six, Seven, Eight, Nine, Ten, Jack, Queen, King, Ace]

  /** The enum ordinal: the position of the rank in the declaration order. */
  function Ordinal(v: Value): (r: nat)
    ensures r < 13
  {
    match v
    case Two => 0
    case Three => 1
    case Four => 2
    case Five => 3
    case Six => 4
    case Seven => 5
    case Eight => 6
    case Nine => 7
    case Ten => 8
    case Jack => 9
    case Queen => 10
    case King => 11
    case Ace => 12
  }

  /** The display string attached to each rank. */
  function DisplayValue(v: Value): (s: string)
    ensures 1 <= |s| <= 2
    ensures |s| == 2 <==> v == Ten
  {
    match v
    case Two => "2"
    case Three => "3"
    case Four => "4"
    case Five => "5"
    case Six => "6"
    case Seven => "7"
    case Eight => "8"
    case Nine => "9"
    case Ten => "10"
    case Jack => "J"
    case Queen => "Q"
    case King => "K"
    case Ace => "A"
  }

  /** There are exactly thirteen ranks, and the declaration list has no repeats. */
  lemma ExactlyThirteenRanks()
    ensures |AllValues| == 13
    ensures forall i, j :: 0 <= i < j < |AllValues| ==> AllValues[i] != AllValues[j]
    ensures forall v: Value :: v in AllValues
  {
    forall v: Value ensures v in AllValues {
      OrdinalIsPosition(0, v);
    }
  }

  /** Ordinals and declaration positions are inverse to each other. */
  lemma OrdinalIsPosition(i: nat, v: Value)
    requires i < |AllValues|
    ensures Ordinal(AllValues[i]) == i
    ensures AllValues[Ordinal(v)] == v
  {
  }

  /** Two is the lowest rank and Ace the highest. */
  lemma TwoLowestAceHighest(v: Value)
    ensures Ordinal(Two) <= Ordinal(v) <= Ordinal(Ace)
    ensures Ordinal(Two) == 0 && Ordinal(Ace) == 12
  {
  }

  /** Different ranks are displayed differently: the display mapping is injective. */
  lemma DisplayValueInjective(v: Value, w: Value)
    ensures DisplayValue(v) == DisplayValue(w) <==> v == w
  {
  }
}
