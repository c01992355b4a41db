// The ranking of candidates in src/framework/CF_framework_center.h: an in-place pass brings the items with a negative
// time to the front, then every power is combined with the algorithms' power and a time bonus.

module Ranking {
  import opened Floats
  import opened Reals
  import opened Sums

  datatype Row = Row(time: int, power: Number, id: nat)

  /** The parallel arrays read as one list. */
  ghost function Rows(times: seq<int>, powers: seq<Number>, ids: seq<nat>): seq<Row>
    requires |times| == |powers| == |ids|
  {
    seq(|times|, i requires 0 <= i < |times| => Row(times[i], powers[i], ids[i]))
  }

  /** The rows with a negative time, in order. */
  ghost function Tops(rows: seq<Row>): seq<Row> {
    if rows == [] then []
    else Tops(rows[..|rows| - 1]) + (if rows[|rows| - 1].time < 0 then [rows[|rows| - 1]] else [])
  }

  ghost function LateTime(): Row -> real {
    (r: Row) => if r.time < 0 then 0.0 else r.time as real
  }

  /** The sum of the times that are not negative. */
  ghost function OtherTime(rows: seq<Row>): real {
    SeqSum(rows, LateTime())
  }

  ghost function Swapped(rows: seq<Row>, a: nat, b: nat): seq<Row>
    requires a < |rows| && b < |rows|
  {
    rows[a := rows[b]][b := rows[a]]
  }

  lemma SwapPermutes(rows: seq<Row>, a: nat, b: nat)
    requires a <= b < |rows|
    ensures multiset(Swapped(rows, a, b)) == multiset(rows)
  {
  }

  /** The first i rows have been looked at: the tops among them come first, in order, then the others. */
  ghost predicate Partitioned(before: seq<Row>, after: seq<Row>, i: nat, top: nat) {
    && |after| == |before| && top <= i <= |before|
    && multiset(after) == multiset(before)
    && after[..top] == Tops(before[..i])
    && (forall k :: top <= k < i ==> after[k].time >= 0)
    && after[i..] == before[i..]
  }

  lemma PartitionStart(rows: seq<Row>)
    ensures Partitioned(rows, rows, 0, 0) && OtherTime(rows[..0]) == 0.0
  {
  }

  lemma PartitionNext(before: seq<Row>, after: seq<Row>, i: nat, top: nat)
    requires i < |before| && Partitioned(before, after, i, top)
    ensures |after| == |before| && top <= i && after[i] == before[i]
    ensures before[i].time < 0 ==> Partitioned(before, Swapped(after, top, i), i + 1, top + 1)
    ensures before[i].time >= 0 ==> Partitioned(before, after, i + 1, top)
    ensures OtherTime(before[..i + 1]) == OtherTime(before[..i]) + LateTime()(before[i])
  {
    assert after[i] == after[i..][0] == before[i..][0];
    assert before[..i + 1][..i] == before[..i];
    assert after[i..][1..] == after[i + 1..] && before[i..][1..] == before[i + 1..];
    if before[i].time < 0 {
      SwapPermutes(after, top, i);
      var s := Swapped(after, top, i);
      assert s[..top + 1] == after[..top] + [after[i]];
      assert s[i + 1..] == after[i + 1..];
    }
  }

  method SwapRows(times: array<int>, powers: array<Number>, ids: array<nat>, a: nat, b: nat)
    requires a <= b < times.Length && times.Length == powers.Length == ids.Length
    modifies times, powers, ids
    ensures Rows(times[..], powers[..], ids[..]) == Swapped(old(Rows(times[..], powers[..], ids[..])), a, b)
  {
    ghost var before := Rows(times[..], powers[..], ids[..]);
    times[a], times[b] := times[b], times[a];
    powers[a], powers[b] := powers[b], powers[a];
    ids[a], ids[b] := ids[b], ids[a];
    assert Rows(times[..], powers[..], ids[..]) == Swapped(before, a, b);
  }

  /**
   * The partition pass. calcNum is zero when every algorithm is offline, and then nothing moves; otherwise the rows
   * are permuted together, the tops come first in their original order and oneTime is the sum of the other times.
   */
  method Partition(times: array<int>, powers: array<Number>, ids: array<nat>, calcNum: nat)
    returns (topPos: nat, oneTime: nat)
    requires times.Length == powers.Length == ids.Length && (calcNum == 0 || calcNum == times.Length)
    modifies times, powers, ids
    ensures var before, after := old(Rows(times[..], powers[..], ids[..])), Rows(times[..], powers[..], ids[..]);
            && Partitioned(before, after, calcNum, topPos)
            && oneTime as real == OtherTime(before[..calcNum])
    ensures calcNum == 0 ==> topPos == 0
    ensures topPos <= calcNum && forall k :: 0 <= k < calcNum ==> (times[k] < 0 <==> k < topPos)
  {
    hide Partitioned, OtherTime;
    ghost var before := Rows(times[..], powers[..], ids[..]);
    topPos, oneTime := 0, 0;
    PartitionStart(before);
    for i := 0 to calcNum
      invariant Partitioned(before, Rows(times[..], powers[..], ids[..]), i, topPos)
      invariant oneTime as real == OtherTime(before[..i])
    {
      PartitionNext(before, Rows(times[..], powers[..], ids[..]), i, topPos);
      assert times[i] == before[i].time;
      if times[i] < 0 {
        SwapRows(times, powers, ids, topPos, i);
        topPos := topPos + 1;
        continue;
      }
      oneTime := oneTime + times[i];
    }
    ghost var after := Rows(times[..], powers[..], ids[..]);
    PartitionedTimes(before, after, calcNum, topPos);
    forall k | 0 <= k < calcNum ensures times[k] < 0 <==> k < topPos {
      assert after[k].time == times[k];
    }
  }

  lemma {:induction false} TopsAreNegative(rows: seq<Row>)
    ensures forall r :: r in Tops(rows) ==> r.time < 0
  {
    if rows != [] {
      TopsAreNegative(rows[..|rows| - 1]);
    }
  }

  lemma PartitionedTimes(before: seq<Row>, after: seq<Row>, i: nat, top: nat)
    requires Partitioned(before, after, i, top)
    ensures top <= i <= |after| && (i == 0 ==> top == 0) && forall k :: 0 <= k < i ==> (after[k].time < 0 <==> k < top)
  {
    TopsAreNegative(before[..i]);
    forall k | 0 <= k < top ensures after[k].time < 0 {
      assert after[k] == after[..top][k];
    }
  }

  lemma {:induction false} TopsHaveNoOtherTime(rows: seq<Row>)
    ensures OtherTime(Tops(rows)) == 0.0
  {
    if rows != [] {
      var t := Tops(rows[..|rows| - 1]);
      TopsHaveNoOtherTime(rows[..|rows| - 1]);
      if rows[|rows| - 1].time < 0 {
        assert (t + [rows[|rows| - 1]])[..|t|] == t;
      } else {
        assert t + [] == t;
      }
    }
  }

  // ----- Scoring -----

  datatype Factors = Factors(filter: real, algorithm: real, time: real)

  /** base and algo are the filter's and the algorithms' power; the top rows get no time bonus. */
  ghost function Scored(f: Factors, base: real, algo: real, isTop: bool, time: int, oneTime: nat): Number {
    if isTop then Finite(f.filter * base + algo)
    else if oneTime == 0 then NotFinite
    else Finite(f.algorithm * (f.filter * base + algo) + f.time * time as real / oneTime as real)
  }

  /** What a row is given beyond the combined powers of the filter and the algorithms. */
  ghost function Extra(f: Factors, base: real, algo: real, score: real): real {
    score - f.algorithm * (f.filter * base + algo)
  }

  /** A top row has the combined power; the others give that its weight and share the time factor by their times. */
  ghost predicate IsScore(f: Factors, base: real, algo: real, isTop: bool, time: int, oneTime: nat, score: Number) {
    if isTop then score == Finite(f.filter * base + algo)
    else if oneTime == 0 then score == NotFinite
    else score.Finite? && Extra(f, base, algo, score.value) * oneTime as real == f.time * time as real
  }

  /** Every power is replaced by its score, undefined exactly for a row past the tops when all their times are zero. */
  method Score(f: Factors, times: array<int>, powers: array<Number>, algo: array<real>,
               calcNum: nat, topPos: nat, oneTime: nat)
    requires times.Length == powers.Length == algo.Length && calcNum <= times.Length
    requires forall i :: 0 <= i < powers.Length ==> powers[i].Finite?
    modifies powers
    ensures forall i :: 0 <= i < calcNum ==>
              powers[i] == Scored(f, old(powers[i]).value, algo[i], i < topPos, times[i], oneTime)
    ensures forall i :: 0 <= i < calcNum ==>
              IsScore(f, old(powers[i]).value, algo[i], i < topPos, times[i], oneTime, powers[i])
    ensures forall i :: calcNum <= i < powers.Length ==> powers[i] == old(powers[i])
    ensures (forall i :: 0 <= i < calcNum ==> powers[i].Finite?) <==> topPos >= calcNum || oneTime != 0
  {
    hide Scored, Plus, Mul, Div, IsScore;
    for i := 0 to calcNum
      invariant forall k :: 0 <= k < i ==>
                  powers[k] == Scored(f, old(powers[k]).value, algo[k], k < topPos, times[k], oneTime)
      invariant forall k :: i <= k < powers.Length ==> powers[k] == old(powers[k])
    {
      ScoredRow(f, powers[i].value, algo[i], times[i], oneTime);
      powers[i] := Plus(Mul(Finite(f.filter), powers[i]), Finite(algo[i]));
      if topPos <= i {
        var bonus := Div(Mul(Finite(f.time), Finite(times[i] as real)), Finite(oneTime as real));
        powers[i] := Plus(Mul(Finite(f.algorithm), powers[i]), bonus);
      }
    }
    forall i | 0 <= i < calcNum ensures powers[i].Finite? <==> i < topPos || oneTime != 0 {
      ScoredFinite(f, old(powers[i]).value, algo[i], i < topPos, times[i], oneTime);
    }
    forall i | 0 <= i < calcNum
      ensures IsScore(f, old(powers[i]).value, algo[i], i < topPos, times[i], oneTime, powers[i])
    {
      ScoredIs(f, old(powers[i]).value, algo[i], i < topPos, times[i], oneTime);
    }
    if topPos < calcNum {
      assert powers[topPos].Finite? <==> oneTime != 0;
    }
  }

  lemma ScoredFinite(f: Factors, base: real, algo: real, isTop: bool, time: int, oneTime: nat)
    ensures Scored(f, base, algo, isTop, time, oneTime).Finite? <==> isTop || oneTime != 0
  {
  }

  lemma ScoredIs(f: Factors, base: real, algo: real, isTop: bool, time: int, oneTime: nat)
    ensures IsScore(f, base, algo, isTop, time, oneTime, Scored(f, base, algo, isTop, time, oneTime))
  {
    if oneTime != 0 {
      Scaled(0.0, f.time * time as real, oneTime as real);
      assert f.time * time as real / oneTime as real * oneTime as real == f.time * time as real;
    }
  }

  /** The code's operations on one row. */
  lemma ScoredRow(f: Factors, base: real, algo: real, time: int, oneTime: nat)
    ensures var first := Plus(Mul(Finite(f.filter), Finite(base)), Finite(algo));
            && first == Scored(f, base, algo, true, time, oneTime)
            && Plus(Mul(Finite(f.algorithm), first),
                    Div(Mul(Finite(f.time), Finite(time as real)), Finite(oneTime as real)))
               == Scored(f, base, algo, false, time, oneTime)
  {
  }

  ghost function Bonus(factor: real, oneTime: nat): Row -> real
    requires oneTime > 0
  {
    (r: Row) => factor * r.time as real / oneTime as real
  }

  /** After the partition pass the time bonuses of the rows past the tops add up to exactly the time factor. */
  lemma BonusesTotalFactor(before: seq<Row>, after: seq<Row>, topPos: nat, factor: real, oneTime: nat)
    requires Partitioned(before, after, |before|, topPos) && oneTime as real == OtherTime(before) && oneTime > 0
    ensures SeqSum(after[topPos..], Bonus(factor, oneTime)) == factor
  {
    hide Partitioned, Bonus, LateTime;
    OthersAreLate(before, after, topPos);
    OthersKeepTheirTime(before, after, topPos);
    var others := after[topPos..];
    BonusesAreShares(others, factor, oneTime, oneTime as real);
    Cancel(SeqSum(others, Bonus(factor, oneTime)), factor, oneTime as real);
  }

  /** What the rows from some place on are given beyond the combined powers. */
  ghost function Extras(f: Factors, rows: seq<Row>, algo: seq<real>, scores: seq<Number>, from: nat): seq<real>
    requires from <= |rows| == |algo| == |scores|
    requires forall i :: from <= i < |rows| ==> rows[i].power.Finite? && scores[i].Finite?
  {
    seq(|rows| - from, i requires 0 <= i < |rows| - from =>
      Extra(f, rows[from + i].power.value, algo[from + i], scores[from + i].value))
  }

  /** After both passes the scores of the rows past the tops hold, besides the combined powers, just the time factor. */
  lemma ScoresTotalFactor(f: Factors, before: seq<Row>, after: seq<Row>, topPos: nat, oneTime: nat,
                          algo: seq<real>, scores: seq<Number>)
    requires Partitioned(before, after, |before|, topPos) && oneTime as real == OtherTime(before) && oneTime > 0
    requires |algo| == |scores| == |after|
    requires forall i :: topPos <= i < |after| ==>
               && after[i].power.Finite? && scores[i].Finite?
               && IsScore(f, after[i].power.value, algo[i], false, after[i].time, oneTime, scores[i])
    ensures SeqSum(Extras(f, after, algo, scores, topPos), x => x) == f.time
  {
    hide SeqSum, Bonus, Extra;
    BonusesTotalFactor(before, after, topPos, f.time, oneTime);
    var rows, extras := after[topPos..], Extras(f, after, algo, scores, topPos);
    forall i | 0 <= i < |rows| ensures extras[i] == Bonus(f.time, oneTime)(rows[i]) {
      BonusIsShare(rows[i], f.time, oneTime);
      Cancel(extras[i], Bonus(f.time, oneTime)(rows[i]), oneTime as real);
    }
    SameSums(extras, rows, Bonus(f.time, oneTime));
  }

  lemma {:induction false} SameSums(a: seq<real>, rows: seq<Row>, g: Row -> real)
    requires |a| == |rows| && forall i :: 0 <= i < |a| ==> a[i] == g(rows[i])
    ensures SeqSum(a, x => x) == SeqSum(rows, g)
  {
    if a != [] {
      SameSums(a[..|a| - 1], rows[..|a| - 1], g);
    }
  }

  lemma {:induction false} BonusesAreShares(rows: seq<Row>, factor: real, oneTime: nat, time: real)
    requires oneTime > 0 && forall i :: 0 <= i < |rows| ==> rows[i].time >= 0
    requires time == OtherTime(rows)
    ensures SeqSum(rows, Bonus(factor, oneTime)) * oneTime as real == factor * time
  {
    hide Bonus;
    if rows != [] {
      var init, last := rows[..|rows| - 1], rows[|rows| - 1];
      BonusesAreShares(init, factor, oneTime, OtherTime(init));
      BonusIsShare(last, factor, oneTime);
      SumOfShares(SeqSum(init, Bonus(factor, oneTime)), Bonus(factor, oneTime)(last), oneTime as real,
                  factor, OtherTime(init), last.time as real);
    }
  }

  lemma BonusIsShare(row: Row, factor: real, oneTime: nat)
    requires oneTime > 0
    ensures Bonus(factor, oneTime)(row) * oneTime as real == factor * row.time as real
  {
    Scaled(0.0, factor * row.time as real, oneTime as real);
  }

  lemma SumOfShares(a: real, b: real, t: real, factor: real, x: real, y: real)
    requires a * t == factor * x && b * t == factor * y
    ensures (a + b) * t == factor * (x + y)
  {
  }

  lemma OthersAreLate(before: seq<Row>, after: seq<Row>, topPos: nat)
    requires Partitioned(before, after, |before|, topPos)
    ensures topPos <= |after| && forall i :: 0 <= i < |after[topPos..]| ==> after[topPos..][i].time >= 0
  {
  }

  lemma OthersKeepTheirTime(before: seq<Row>, after: seq<Row>, topPos: nat)
    requires Partitioned(before, after, |before|, topPos)
    ensures topPos <= |after| && OtherTime(after[topPos..]) == OtherTime(before)
  {
    hide Tops, SeqSum;
    var tops, others := after[..topPos], after[topPos..];
    assert before[..|before|] == before;
    assert tops + others == after;
    SeqSumPermuted(tops + others, before, LateTime());
    SeqSumJoin(tops, others, LateTime());
    TopsHaveNoOtherTime(before);
  }
}
