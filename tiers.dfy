/** The tenure classification rule. */
module Tiers {

  /** The bands, lowest first. */
  const Bands: seq<string> := ["new", "bronze", "silver", "gold", "platinum"]

  /** The inclusive upper tenure of every band but the last, in band order. */
  const UpperBounds: seq<int> := [6, 12, 36, 60]

  /** `classify_customers`: the first band whose upper bound the tenure does not exceed. */
  function Classify(tenure: int): (band: string)
    ensures band in Bands
  {
    if tenure <= 6 then "new"
    else if tenure <= 12 then "bronze"
    else if tenure <= 36 then "silver"
    else if tenure <= 60 then "gold"
    else "platinum"
  }

  /** The number of bounds in `bounds` that `tenure` exceeds. */
  function BoundsExceeded(bounds: seq<int>, tenure: int): (n: nat)
    ensures n <= |bounds|
  {
    if bounds == [] then 0
    else (if bounds[0] < tenure then 1 else 0) + BoundsExceeded(bounds[1..], tenure)
  }

  /** The position of a band in `Bands`. */
  function Rank(band: string): (i: nat)
    requires band in Bands
    ensures i < |Bands| && Bands[i] == band
  {
    if band == "new" then 0
    else if band == "bronze" then 1
    else if band == "silver" then 2
    else if band == "gold" then 3
    else 4
  }

  /** Each band is exactly the tenure interval its bounds describe. */
  lemma ClassifyBands(tenure: int)
    ensures Classify(tenure) == "new" <==> tenure <= 6
    ensures Classify(tenure) == "bronze" <==> 6 < tenure <= 12
    ensures Classify(tenure) == "silver" <==> 12 < tenure <= 36
    ensures Classify(tenure) == "gold" <==> 36 < tenure <= 60
    ensures Classify(tenure) == "platinum" <==> 60 < tenure
  {
  }

  /** The values on both sides of every bound. */
  lemma ClassifyBoundaries()
    ensures Classify(6) == "new" && Classify(7) == "bronze"
    ensures Classify(12) == "bronze" && Classify(13) == "silver"
    ensures Classify(36) == "silver" && Classify(37) == "gold"
    ensures Classify(60) == "gold" && Classify(61) == "platinum"
  {
  }

  /** Every tenure up to 6, negative ones included, is "new". */
  lemma ClassifyLowIsNew(tenure: int)
    requires tenure <= 6
    ensures Classify(tenure) == "new"
  {
  }

  /** Order-independent reading of the rule: the band's rank is the number of upper bounds the
      tenure exceeds. */
  lemma ClassifyCountsBounds(tenure: int)
    ensures Rank(Classify(tenure)) == BoundsExceeded(UpperBounds, tenure)
  {
    var t := tenure;
    assert [60][1..] == [];
    assert BoundsExceeded([60], t) == if 60 < t then 1 else 0;
    assert [36, 60][1..] == [60];
    assert BoundsExceeded([36, 60], t) == (if 36 < t then 1 else 0) + BoundsExceeded([60], t);
    assert [12, 36, 60][1..] == [36, 60];
    assert BoundsExceeded([12, 36, 60], t) == (if 12 < t then 1 else 0) + BoundsExceeded([36, 60], t);
    assert UpperBounds[1..] == [12, 36, 60];
    assert BoundsExceeded(UpperBounds, t) == (if 6 < t then 1 else 0) + BoundsExceeded([12, 36, 60], t);
  }

  /** A tenure exceeds at least as many bounds as any smaller tenure. */
  lemma {:induction false} BoundsExceededMonotone(bounds: seq<int>, a: int, b: int)
    requires a <= b
    ensures BoundsExceeded(bounds, a) <= BoundsExceeded(bounds, b)
  {
    if bounds != [] {
      BoundsExceededMonotone(bounds[1..], a, b);
    }
  }

  /** A larger tenure never gets a lower band. */
  lemma ClassifyMonotone(a: int, b: int)
    requires a <= b
    ensures Rank(Classify(a)) <= Rank(Classify(b))
  {
    ClassifyCountsBounds(a);
    ClassifyCountsBounds(b);
    BoundsExceededMonotone(UpperBounds, a, b);
  }
}
