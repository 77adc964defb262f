/** Binary search over a list of comparisons: negative where the target lies before the position, positive where it
    lies behind, zero where it stops. */
module Bisection {

  function Halving(sides: seq<int>, low: int, high: int, best: int): int
    requires 0 <= low && high < |sides|
    decreases high - low
  {
    if low > high then best
    else
      var mid := (low + high) / 2;
      if sides[mid] == 0 then mid
      else if sides[mid] < 0 then Halving(sides, low, mid - 1, mid)
      else Halving(sides, mid + 1, high, best)
  }

  lemma {:induction false} HalvingRange(sides: seq<int>, low: int, high: int, best: int)
    requires 0 <= low && high < |sides|
    ensures var r := Halving(sides, low, high, best); r == best || low <= r <= high
    decreases high - low
  {
    if low <= high {
      HalvingRange(sides, low, (low + high) / 2 - 1, (low + high) / 2);
      HalvingRange(sides, (low + high) / 2 + 1, high, best);
    }
  }

  lemma {:induction false} HalvingPart(sides: seq<int>, part: seq<int>, from: nat, low: int, high: int, best: int)
    requires 0 <= low && high < |part| && from + |part| <= |sides|
    requires forall i {:trigger part[i]} :: 0 <= i < |part| ==> part[i] == sides[from + i]
    ensures Halving(sides, from + low, from + high, from + best) == from + Halving(part, low, high, best)
    decreases high - low
  {
    if low <= high {
      var mid := (low + high) / 2;
      assert (from + low + (from + high)) / 2 == from + mid;
      assert part[mid] == sides[from + mid];
      if part[mid] < 0 {
        HalvingPart(sides, part, from, low, mid - 1, mid);
      } else if part[mid] > 0 {
        HalvingPart(sides, part, from, mid + 1, high, best);
      }
    }
  }

  /** The search over a whole list; its length for none. */
  function Bisect(sides: seq<int>): int
  {
    Halving(sides, 0, |sides| - 1, |sides|)
  }

  /** The search in terms of halves: the middle position (the earlier of two) decides; behind it the later half is
      searched, and before it the earlier half, whose length is the position of the middle itself. */
  lemma BisectHalves(sides: seq<int>)
    requires sides != []
    ensures var m := (|sides| - 1) / 2;
            Bisect(sides) == if sides[m] == 0 then m else if sides[m] < 0 then Bisect(sides[..m]) else m + 1 + Bisect(sides[m + 1..])
  {
    var m, n := (|sides| - 1) / 2, |sides|;
    if sides[m] < 0 {
      EarlierHalf(sides, m);
    } else if sides[m] > 0 {
      LaterHalf(sides, m);
    }
  }

  lemma EarlierHalf(sides: seq<int>, m: nat)
    requires m < |sides|
    ensures Halving(sides, 0, m - 1, m) == Bisect(sides[..m])
  {
    HalvingPart(sides, sides[..m], 0, 0, m - 1, m);
  }

  lemma LaterHalf(sides: seq<int>, m: nat)
    requires m < |sides|
    ensures Halving(sides, m + 1, |sides| - 1, |sides|) == m + 1 + Bisect(sides[m + 1..])
  {
    HalvingPart(sides, sides[m + 1..], m + 1, 0, |sides| - m - 2, |sides| - m - 1);
  }
}
