/** The loop of the chart page that fills the gaps of a plot (scripts/perf_page.py, graph_script). */
module GapFill {
  import opened Text

  function Max(xs: seq<int>): (m: int)
    requires xs != []
    ensures m in xs
    ensures forall i :: 0 <= i < |xs| ==> xs[i] <= m
  {
    if |xs| == 1 then xs[0]
    else
      var m := Max(xs[1..]);
      assert forall i :: 1 <= i < |xs| ==> xs[i] == xs[1..][i - 1];
      if xs[0] > m then xs[0] else m
  }

  /** Whether the loop finds slot i taken by the next point. */
  predicate Taken(i: int, xs: seq<int>) {
    xs != [] && xs[0] == i
  }

  /** The x points from slot i on, when xs are those not passed yet. */
  function FillX(i: int, max: int, xs: seq<int>): seq<int>
    decreases max + 1 - i
  {
    if i > max then xs
    else [i] + FillX(i + 1, max, if Taken(i, xs) then xs[1..] else xs)
  }

  /** The y points that go with FillX: null where a slot was inserted. */
  function FillY<T>(i: int, max: int, xs: seq<int>, ys: seq<Option<T>>): seq<Option<T>>
    requires |xs| == |ys|
    decreases max + 1 - i
  {
    if i > max then ys
    else if Taken(i, xs) then [ys[0]] + FillY(i + 1, max, xs[1..], ys[1..])
    else [None] + FillY(i + 1, max, xs, ys)
  }

  /** low..high, or nothing. */
  function Range(low: int, high: int): seq<int> {
    seq(if high < low then 0 else high + 1 - low, i => low + i)
  }

  /** The two arrays of a plot. */
  class Plot<T> {
    var xPoints: seq<int>
    var yPoints: seq<Option<T>>

    constructor (xs: seq<int>, ys: seq<Option<T>>)
      ensures xPoints == xs && yPoints == ys
    {
      xPoints, yPoints := xs, ys;
    }

    method FillGaps()
      requires |xPoints| == |yPoints|
      modifies this
      ensures old(xPoints) == [] ==> xPoints == [] && yPoints == []
      ensures old(xPoints) != [] ==>
                && xPoints == FillX(0, Max(old(xPoints)), old(xPoints))
                && yPoints == FillY(0, Max(old(xPoints)), old(xPoints), old(yPoints))
    {
      if xPoints == [] {
        return;
      }
      // px and py are the slots passed so far, xs and ys the points still ahead.
      ghost var max := Max(xPoints);
      ghost var px: seq<int>, py: seq<Option<T>> := [], [];
      ghost var xs, ys := xPoints, yPoints;
      var i := 0;
      while i < Max(xPoints) + 1
        invariant 0 <= i == |py| && |xs| == |ys|
        invariant px == Range(0, i - 1)
        invariant xPoints == px + xs && yPoints == py + ys
        invariant xPoints != [] && Max(xPoints) == max
        invariant FillX(0, max, old(xPoints)) == px + FillX(i, max, xs)
        invariant FillY(0, max, old(xPoints), old(yPoints)) == py + FillY(i, max, xs, ys)
        decreases max + 1 - i
      {
        MaxIsLater(i, xs);
        NextX(i, max, px, xs);
        NextY(i, max, py, xs, ys);
        RangeSnoc(i);
        Sides(px, xs);
        Sides(py, ys);
        if i != xPoints[i] {
          SameMax(px, i, xs);
          xPoints := xPoints[..i] + [i] + xPoints[i..];
          yPoints := yPoints[..i] + [None] + yPoints[i..];
          px, py := px + [i], py + [None];
        } else {
          px, py := px + [xs[0]], py + [ys[0]];
          xs, ys := xs[1..], ys[1..];
        }
        i := i + 1;
      }
      assert FillX(i, max, xs) == xs && FillY(i, max, xs, ys) == ys;
    }
  }

  lemma {:induction false} Sides<A>(before: seq<A>, after: seq<A>)
    ensures (before + after)[..|before|] == before && (before + after)[|before|..] == after
    ensures after != [] ==> (before + after)[|before|] == after[0]
    ensures after != [] ==> before + after == before + [after[0]] + after[1..]
  {
  }

  lemma {:induction false} RangeSnoc(i: nat)
    ensures Range(0, i) == Range(0, i - 1) + [i]
  {
  }

  lemma {:induction false} NextX(i: int, max: int, px: seq<int>, xs: seq<int>)
    requires i <= max
    ensures px + FillX(i, max, xs) == px + [i] + FillX(i + 1, max, if Taken(i, xs) then xs[1..] else xs)
  {
  }

  lemma {:induction false} NextY<T>(i: int, max: int, py: seq<Option<T>>, xs: seq<int>, ys: seq<Option<T>>)
    requires i <= max && |xs| == |ys|
    ensures py + FillY(i, max, xs, ys)
         == if Taken(i, xs) then py + [ys[0]] + FillY(i + 1, max, xs[1..], ys[1..])
            else py + [None] + FillY(i + 1, max, xs, ys)
  {
  }

  /** The largest point is still ahead, so there is a point at the current slot. */
  lemma {:induction false} MaxIsLater(i: nat, xs: seq<int>)
    requires Range(0, i - 1) + xs != [] && i <= Max(Range(0, i - 1) + xs)
    ensures xs != []
  {
    var all := Range(0, i - 1) + xs;
    var k :| 0 <= k < |all| && all[k] == Max(all);
    assert k >= i;
  }

  lemma {:induction false} MaxIs(xs: seq<int>, m: int)
    requires m in xs
    requires forall i :: 0 <= i < |xs| ==> xs[i] <= m
    ensures Max(xs) == m
  {
    var j :| 0 <= j < |xs| && xs[j] == Max(xs);
    var k :| 0 <= k < |xs| && xs[k] == m;
  }

  /** A slot inserted below the largest point does not change it. */
  lemma {:induction false} SameMax(px: seq<int>, i: int, xs: seq<int>)
    requires px + xs != [] && i <= Max(px + xs)
    ensures Max(px + [i] + xs) == Max(px + xs)
  {
    var less, more := px + xs, px + [i] + xs;
    var k :| 0 <= k < |less| && less[k] == Max(less);
    assert more[if k < |px| then k else k + 1] == Max(less);
    forall j | 0 <= j < |more| ensures more[j] <= Max(less) {
      assert more[j] == if j < |px| then less[j] else if j == |px| then i else less[j - 1];
    }
    MaxIs(more, Max(less));
  }

  // ---- When the gaps are filled ----

  predicate IncreasingWithin(low: int, high: int, xs: seq<int>) {
    && (forall i, j :: 0 <= i < j < |xs| ==> xs[i] < xs[j])
    && (forall i :: 0 <= i < |xs| ==> low <= xs[i] <= high)
  }

  lemma {:induction false} RangeCons(low: int, high: int)
    requires low <= high
    ensures Range(low, high) == [low] + Range(low + 1, high)
  {
  }

  lemma {:induction false} IncreasingCons(low: int, high: int, xs: seq<int>)
    requires low <= high
    ensures IncreasingWithin(low, high, xs)
       <==> IncreasingWithin(low + 1, high, if Taken(low, xs) then xs[1..] else xs)
  {
    if Taken(low, xs) {
      assert forall i :: 1 <= i < |xs| ==> xs[i] == xs[1..][i - 1];
    }
  }

  /** The x points become a gapless range exactly for increasing points within it. */
  lemma {:induction false} FillXIsRange(i: int, max: int, xs: seq<int>)
    ensures FillX(i, max, xs) == Range(i, max) <==> IncreasingWithin(i, max, xs)
    decreases max + 1 - i
  {
    if i > max {
      assert Range(i, max) == [];
      assert xs != [] ==> !(i <= xs[0] <= max);
    } else {
      var rest := if Taken(i, xs) then xs[1..] else xs;
      FillXIsRange(i + 1, max, rest);
      IncreasingCons(i, max, xs);
      RangeCons(i, max);
      assert (FillX(i, max, xs))[1..] == FillX(i + 1, max, rest);
      assert Range(i, max)[1..] == Range(i + 1, max);
    }
  }

  /**
   * The loop leaves x points 0..max exactly when the given ones are strictly increasing
   * natural numbers. Repeated, negative or unordered points are left over behind them.
   */
  lemma {:induction false} GapsFilledIff(xs: seq<int>)
    requires xs != []
    ensures FillX(0, Max(xs), xs) == Range(0, Max(xs))
       <==> (forall i, j :: 0 <= i < j < |xs| ==> xs[i] < xs[j]) && (forall i :: 0 <= i < |xs| ==> xs[i] >= 0)
  {
    FillXIsRange(0, Max(xs), xs);
    assert IncreasingWithin(0, Max(xs), xs)
      <==> (forall i, j :: 0 <= i < j < |xs| ==> xs[i] < xs[j]) && (forall i :: 0 <= i < |xs| ==> xs[i] >= 0);
  }

  /** A point that is given twice is left over behind the range. */
  lemma {:induction false} RepeatedPoint(x: nat, xs: seq<int>)
    requires xs == [x, x]
    ensures Max(xs) == x && FillX(0, x, xs) == Range(0, x) + [x]
    ensures FillX(0, x, xs) != Range(0, x)
  {
    MaxIs(xs, x);
    RepeatedFrom(0, x, xs);
  }

  lemma {:induction false} RepeatedFrom(i: nat, x: nat, xs: seq<int>)
    requires i <= x && xs == [x, x]
    ensures FillX(i, x, xs) == Range(i, x) + [x]
    decreases x - i
  {
    if i < x {
      RepeatedFrom(i + 1, x, xs);
      ConsRange(i, x, [x]);
    } else {
      assert xs[1..] == [x] && FillX(x + 1, x, [x]) == [x];
      assert Range(x, x) == [x];
    }
  }

  /** The last points that the range has no place for. */
  function Leftover(i: int, max: int, xs: seq<int>): (left: seq<int>)
    ensures |left| <= |xs| && left == xs[|xs| - |left|..]
    decreases max + 1 - i
  {
    if i > max then xs else Leftover(i + 1, max, if Taken(i, xs) then xs[1..] else xs)
  }

  /**
   * Whatever the points are, both arrays stay equally long, and the x points are the range
   * followed by the points that it has no place for.
   */
  lemma {:induction false} FilledParts<T>(i: int, max: int, xs: seq<int>, ys: seq<Option<T>>)
    requires |xs| == |ys|
    ensures FillX(i, max, xs) == Range(i, max) + Leftover(i, max, xs)
    ensures |FillX(i, max, xs)| == |FillY(i, max, xs, ys)|
    decreases max + 1 - i
  {
    if i > max {
      assert Range(i, max) + xs == xs;
    } else if Taken(i, xs) {
      FilledParts(i + 1, max, xs[1..], ys[1..]);
      ConsRange(i, max, Leftover(i + 1, max, xs[1..]));
    } else {
      FilledParts(i + 1, max, xs, ys);
      ConsRange(i, max, Leftover(i + 1, max, xs));
    }
  }

  lemma {:induction false} ConsRange(i: int, max: int, left: seq<int>)
    requires i <= max
    ensures [i] + (Range(i + 1, max) + left) == Range(i, max) + left
  {
    RangeCons(i, max);
  }

  /** Every point finds its slot on the way from i to max. */
  predicate AllPlaced(i: int, max: int, xs: seq<int>)
    decreases max + 1 - i
  {
    if i > max then xs == []
    else if Taken(i, xs) then AllPlaced(i + 1, max, xs[1..])
    else AllPlaced(i + 1, max, xs)
  }

  lemma {:induction false} AllPlacedIff(i: int, max: int, xs: seq<int>)
    ensures AllPlaced(i, max, xs) <==> IncreasingWithin(i, max, xs)
    decreases max + 1 - i
  {
    if i > max {
      assert xs != [] ==> !(i <= xs[0] <= max);
    } else {
      IncreasingCons(i, max, xs);
      AllPlacedIff(i + 1, max, if Taken(i, xs) then xs[1..] else xs);
    }
  }

  lemma {:induction false} PointWithin(i: int, max: int, xs: seq<int>, k: nat)
    requires k < |xs| && AllPlaced(i, max, xs)
    ensures i <= xs[k] <= max
    ensures !Taken(i, xs) || k > 0 ==> i < xs[k]
  {
    AllPlacedIff(i, max, xs);
    assert i <= xs[0] && (k > 0 ==> xs[0] < xs[k]);
  }

  /** What stands d slots ahead is what stands d - 1 slots ahead of the next slot. */
  lemma {:induction false} SlotAhead<T>(i: int, max: int, xs: seq<int>, ys: seq<Option<T>>, xs': seq<int>,
                                        ys': seq<Option<T>>, d: int)
    requires |xs| == |ys| && i <= max
    requires if Taken(i, xs) then xs' == xs[1..] && ys' == ys[1..] else xs' == xs && ys' == ys
    requires 0 < d <= |FillY(i + 1, max, xs', ys')|
    ensures d < |FillY(i, max, xs, ys)| && FillY(i, max, xs, ys)[d] == FillY(i + 1, max, xs', ys')[d - 1]
  {
  }

  lemma {:induction false} SlotHere<T>(i: int, max: int, xs: seq<int>, ys: seq<Option<T>>)
    requires |xs| == |ys| && i <= max
    ensures FillY(i, max, xs, ys) != []
    ensures FillY(i, max, xs, ys)[0] == if Taken(i, xs) then ys[0] else None
  {
  }

  /** A given pair stands at the slot of its x. */
  lemma {:induction false} PairKept<T>(i: int, max: int, xs: seq<int>, ys: seq<Option<T>>, k: nat)
    requires |xs| == |ys| && k < |xs| && AllPlaced(i, max, xs)
    ensures 0 <= xs[k] - i < |FillY(i, max, xs, ys)| && FillY(i, max, xs, ys)[xs[k] - i] == ys[k]
    decreases max + 1 - i
  {
    PointWithin(i, max, xs, k);
    if !Taken(i, xs) {
      PairKept(i + 1, max, xs, ys, k);
      SlotAhead(i, max, xs, ys, xs, ys, xs[k] - i);
    } else if k > 0 {
      PairKept(i + 1, max, xs[1..], ys[1..], k - 1);
      SlotAhead(i, max, xs, ys, xs[1..], ys[1..], xs[k] - i);
    } else {
      SlotHere(i, max, xs, ys);
    }
  }

  /** A slot without a given x is null. */
  lemma {:induction false} SlotNull<T>(i: int, max: int, xs: seq<int>, ys: seq<Option<T>>, x: int)
    requires |xs| == |ys| && i <= x <= max && x !in xs && AllPlaced(i, max, xs)
    ensures x - i < |FillY(i, max, xs, ys)| && FillY(i, max, xs, ys)[x - i] == None
    decreases max + 1 - i
  {
    if x == i {
      assert !Taken(i, xs);
      SlotHere(i, max, xs, ys);
    } else if Taken(i, xs) {
      SlotNull(i + 1, max, xs[1..], ys[1..], x);
      SlotAhead(i, max, xs, ys, xs[1..], ys[1..], x - i);
    } else {
      SlotNull(i + 1, max, xs, ys, x);
      SlotAhead(i, max, xs, ys, xs, ys, x - i);
    }
  }

  /**
   * For increasing natural x points the filled arrays are equally long, every given pair
   * stands at the index of its x, and exactly the other indices are null slots.
   */
  lemma {:induction false} PairsKept<T>(xs: seq<int>, ys: seq<Option<T>>)
    requires xs != [] && |xs| == |ys| && IncreasingWithin(0, Max(xs), xs)
    ensures |FillX(0, Max(xs), xs)| == |FillY(0, Max(xs), xs, ys)| == Max(xs) + 1
    ensures forall k :: 0 <= k < |xs| ==> FillY(0, Max(xs), xs, ys)[xs[k]] == ys[k]
    ensures forall x :: 0 <= x <= Max(xs) && x !in xs ==> FillY(0, Max(xs), xs, ys)[x] == None
  {
    var max := Max(xs);
    FilledParts(0, max, xs, ys);
    AllPlacedIff(0, max, xs);
    FillXIsRange(0, max, xs);
    assert 0 <= xs[0] <= max;
    forall k | 0 <= k < |xs| ensures FillY(0, max, xs, ys)[xs[k]] == ys[k] {
      PairKept(0, max, xs, ys, k);
    }
    forall x | 0 <= x <= max && x !in xs ensures FillY(0, max, xs, ys)[x] == None {
      SlotNull(0, max, xs, ys, x);
    }
  }
}
