// One weighted draw of src/core/marshaler.cpp: among the trends that are not barred, a draw out of a hundred selects
// the trend whose slice of the remaining weight it falls into.

module WeightedDraw {
  import opened Reals

  datatype Trend = Trend(id: int, weight: real)

  /** The weight left among the first m trends once the barred ones are taken out. */
  ghost function OpenMass(trends: seq<Trend>, barred: set<nat>, m: nat): real
    requires m <= |trends|
  {
    if m == 0 then 0.0
    else OpenMass(trends, barred, m - 1) + (if m - 1 in barred then 0.0 else trends[m - 1].weight)
  }

  ghost predicate NonNegative(trends: seq<Trend>) {
    forall i :: 0 <= i < |trends| ==> trends[i].weight >= 0.0
  }

  /** What marshal asks of its caller: weights that are shares of one. */
  ghost predicate Normalised(trends: seq<Trend>) {
    NonNegative(trends) && OpenMass(trends, {}, |trends|) == 1.0
  }

  ghost function Positive(trends: seq<Trend>): set<nat> {
    set i: nat | i < |trends| && trends[i].weight > 0.0
  }

  /** Where the draw r, out of 100, falls in the open mass, in hundredths. */
  ghost function Point(trends: seq<Trend>, barred: set<nat>, r: nat): real {
    Product(r as real, OpenMass(trends, barred, |trends|))
  }

  /** The draw falls into the slice of the open mass that belongs to trend i. */
  ghost predicate Wins(trends: seq<Trend>, barred: set<nat>, r: nat, i: nat) {
    && i < |trends|
    && 100.0 * OpenMass(trends, barred, i) <= Point(trends, barred, r) < 100.0 * OpenMass(trends, barred, i + 1)
  }

  ghost function Draw(trends: seq<Trend>, barred: set<nat>, r: nat): int {
    if exists i: nat :: Wins(trends, barred, r, i) then
      var i: nat :| Wins(trends, barred, r, i); i
    else -1
  }

  lemma {:induction false} OpenMassMonotone(trends: seq<Trend>, barred: set<nat>, i: nat, j: nat)
    requires NonNegative(trends) && i <= j <= |trends|
    ensures 0.0 <= OpenMass(trends, barred, i) <= OpenMass(trends, barred, j)
    decreases j
  {
    if i < j {
      OpenMassMonotone(trends, barred, i, j - 1);
    } else if i > 0 {
      OpenMassMonotone(trends, barred, i - 1, i - 1);
    }
  }

  lemma {:induction false} BarringOne(trends: seq<Trend>, barred: set<nat>, x: nat, m: nat)
    requires x !in barred && m <= |trends|
    ensures OpenMass(trends, barred + {x}, m)
         == OpenMass(trends, barred, m) - (if x < m then trends[x].weight else 0.0)
  {
    if m > 0 {
      BarringOne(trends, barred, x, m - 1);
    }
  }

  lemma OneWinner(trends: seq<Trend>, barred: set<nat>, r: nat, i: nat)
    requires NonNegative(trends) && Wins(trends, barred, r, i)
    ensures Draw(trends, barred, r) == i
    ensures i !in barred && trends[i].weight > 0.0
  {
    hide Point;
    var d: nat := Draw(trends, barred, r);
    if d < i {
      OpenMassMonotone(trends, barred, d + 1, i);
    } else if i < d {
      OpenMassMonotone(trends, barred, i + 1, d);
    }
  }

  /** The least trend whose slice ends beyond the point t. */
  lemma {:induction false} Crossing(trends: seq<Trend>, barred: set<nat>, t: real, m: nat) returns (i: nat)
    requires m <= |trends| && 0.0 <= t < 100.0 * OpenMass(trends, barred, m)
    ensures i < m && 100.0 * OpenMass(trends, barred, i) <= t < 100.0 * OpenMass(trends, barred, i + 1)
  {
    if t < 100.0 * OpenMass(trends, barred, m - 1) {
      i := Crossing(trends, barred, t, m - 1);
    } else {
      i := m - 1;
    }
  }

  lemma {:induction false} MassOfPositive(trends: seq<Trend>, barred: set<nat>, m: nat)
    requires NonNegative(trends) && m <= |trends|
    ensures OpenMass(trends, barred, m) > 0.0 <==> exists i :: 0 <= i < m && i !in barred && trends[i].weight > 0.0
  {
    if m > 0 {
      MassOfPositive(trends, barred, m - 1);
      OpenMassMonotone(trends, barred, m - 1, m - 1);
    }
  }

  /** A draw fails exactly when no positive weight is left open; otherwise it names an open trend of positive weight. */
  lemma DrawTotality(trends: seq<Trend>, barred: set<nat>, r: nat)
    requires NonNegative(trends) && r < 100
    ensures Draw(trends, barred, r) == -1 <==> Positive(trends) <= barred
    ensures var d := Draw(trends, barred, r); d != -1 ==> 0 <= d && d in Positive(trends) - barred
  {
    hide Point;
    OpenMassMonotone(trends, barred, 0, |trends|);
    MassOfPositive(trends, barred, |trends|);
    PointInMass(trends, barred, r, r);
    if OpenMass(trends, barred, |trends|) > 0.0 {
      var i := Crossing(trends, barred, Point(trends, barred, r), |trends|);
      assert Wins(trends, barred, r, i);
      OneWinner(trends, barred, r, i);
      var j :| 0 <= j < |trends| && j !in barred && trends[j].weight > 0.0;
      assert j in Positive(trends);
    } else {
      forall i: nat | i < |trends|
        ensures !Wins(trends, barred, r, i)
      {
        OpenMassMonotone(trends, barred, i + 1, |trends|);
      }
    }
  }

  lemma PointInMass(trends: seq<Trend>, barred: set<nat>, r: nat, r': nat)
    requires NonNegative(trends) && r <= r' < 100
    ensures var tw := OpenMass(trends, barred, |trends|);
            && 0.0 <= Point(trends, barred, r) <= Point(trends, barred, r')
            && (tw > 0.0 ==> Point(trends, barred, r') < 100.0 * tw)
  {
    hide Product;
    var tw := OpenMass(trends, barred, |trends|);
    OpenMassMonotone(trends, barred, 0, |trends|);
    ProductOrder(0.0, r as real, tw);
    ProductOrder(r as real, r' as real, tw);
    if tw > 0.0 {
      ProductLess(r' as real, 100.0, tw);
    }
  }

  lemma DrawWins(trends: seq<Trend>, barred: set<nat>, r: nat)
    ensures var d := Draw(trends, barred, r); d == -1 || (d >= 0 && Wins(trends, barred, r, d))
  {
  }

  lemma DrawMonotone(trends: seq<Trend>, barred: set<nat>, r: nat, r': nat)
    requires NonNegative(trends) && r <= r' < 100
    ensures Draw(trends, barred, r) <= Draw(trends, barred, r')
  {
    hide Draw, Point;
    DrawTotality(trends, barred, r);
    DrawTotality(trends, barred, r');
    DrawWins(trends, barred, r);
    DrawWins(trends, barred, r');
    PointInMass(trends, barred, r, r');
    var d, d' := Draw(trends, barred, r), Draw(trends, barred, r');
    if 0 <= d' && d' + 1 <= d {
      OpenMassMonotone(trends, barred, d' + 1, d);
    }
  }

  function Ceil(x: real): int { -((-x).Floor) }

  ghost function Interval(lo: int, hi: int): set<int>
    decreases hi - lo
  {
    if lo < hi then Interval(lo, hi - 1) + {hi - 1} else {}
  }

  lemma {:induction false} IntervalSize(lo: int, hi: int)
    requires lo <= hi
    ensures |Interval(lo, hi)| == hi - lo
    ensures forall r :: r in Interval(lo, hi) <==> lo <= r < hi
    decreases hi - lo
  {
    if lo < hi {
      IntervalSize(lo, hi - 1);
    }
  }

  ghost function DrawsFor(trends: seq<Trend>, barred: set<nat>, i: nat): set<int> {
    set r: int | 0 <= r < 100 && Draw(trends, barred, r) == i
  }

  /** Of the hundred equally likely draws, the number that select an open trend is within one of its exact share. */
  lemma DrawAccuracy(trends: seq<Trend>, barred: set<nat>, i: nat)
    requires NonNegative(trends) && i < |trends| && i !in barred
    requires OpenMass(trends, barred, |trends|) > 0.0
    ensures var share := 100.0 * trends[i].weight / OpenMass(trends, barred, |trends|);
            share - 1.0 < |DrawsFor(trends, barred, i)| as real < share + 1.0
  {
    var tw := OpenMass(trends, barred, |trends|);
    var a, b := 100.0 * OpenMass(trends, barred, i), 100.0 * OpenMass(trends, barred, i + 1);
    OpenMassMonotone(trends, barred, i, i + 1);
    OpenMassMonotone(trends, barred, i + 1, |trends|);
    Quotients(a, b, tw);
    var lo, hi := Ceil(a / tw), Ceil(b / tw);
    IntervalSize(lo, hi);
    forall r: nat | r < 100
      ensures Draw(trends, barred, r) == i <==> r in Interval(lo, hi)
    {
      WinsBetween(trends, barred, r, i);
      if Wins(trends, barred, r, i) {
        OneWinner(trends, barred, r, i);
      }
    }
    assert DrawsFor(trends, barred, i) == Interval(lo, hi);
  }

  lemma WinsBetween(trends: seq<Trend>, barred: set<nat>, r: nat, i: nat)
    requires i < |trends| && OpenMass(trends, barred, |trends|) > 0.0
    ensures var tw := OpenMass(trends, barred, |trends|);
            Wins(trends, barred, r, i) <==>
              Ceil(100.0 * OpenMass(trends, barred, i) / tw) <= r < Ceil(100.0 * OpenMass(trends, barred, i + 1) / tw)
  {
    var tw := OpenMass(trends, barred, |trends|);
    hide OpenMass;
    AtLeastCeil(r, 100.0 * OpenMass(trends, barred, i), tw);
    AtLeastCeil(r, 100.0 * OpenMass(trends, barred, i + 1), tw);
  }

  lemma AtLeastCeil(r: nat, a: real, t: real)
    requires t > 0.0
    ensures Ceil(a / t) <= r <==> a <= Product(r as real, t)
  {
    Scaled(r as real, a, t);
  }

  lemma Quotients(a: real, b: real, t: real)
    requires 0.0 <= a <= b <= 100.0 * t && t > 0.0
    ensures 0.0 <= a / t <= b / t <= 100.0
    ensures b / t - a / t == (b - a) / t
  {
    Scaled(b / t, a, t);
    Scaled(100.0, b, t);
  }
}
