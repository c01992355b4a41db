// The category marshaler of src/core/marshaler.cpp: a top-weighted head followed by weighted draws, kept apart by a
// ring buffer over the last N picks and by "already drawn" flags that are cleared once per epoch.

module Marshaling {
  import opened Reals
  import opened WeightedDraw
  import opened CategoryLottery

  // ----- The ring buffer -----

  ghost predicate Ring(mask: seq<int>, picks: seq<nat>, n: nat) {
    && |mask| == n
    && (forall j :: 0 <= j < |picks| && |picks| - n <= j ==> mask[j % n] == picks[j])
    && (forall j :: |picks| <= j < n ==> mask[j] == 0)
  }

  lemma DivMod(x: int, q: int, n: nat, s: nat)
    requires s < n && x == q * n + s
    ensures x % n == s
  {
    assert x - n * (x / n) == x % n;
    var d := x / n - q;
    assert s - x % n == d * n;
    Multiple(d, n);
  }

  lemma Multiple(d: int, n: nat)
    ensures d >= 1 ==> d * n >= n
    ensures d <= -1 ==> d * n <= -(n as int)
  {
    if d >= 1 {
      assert (d - 1) * n >= 0;
    } else if d <= -1 {
      assert (-1 - d) * n >= 0;
    }
  }

  lemma ModApart(i: nat, j: nat, n: nat)
    requires i < j < i + n
    ensures i % n != j % n
  {
    var q, s := i / n, i % n + (j - i);
    if s < n {
      DivMod(j, q, n, s);
    } else {
      DivMod(j, q + 1, n, s - n);
    }
  }

  lemma RingPush(mask: seq<int>, picks: seq<nat>, n: nat, x: nat)
    requires n > 0 && Ring(mask, picks, n)
    ensures Ring(mask[|picks| % n := x], picks + [x], n)
  {
    var g := |picks|;
    forall j | 0 <= j < g && g + 1 - n <= j ensures mask[g % n := x][j % n] == picks[j] {
      ModApart(j, g, n);
    }
  }

  /** Each slot of a full ring holds one of the last n picks. */
  lemma RingSlot(g: nat, n: nat, s: nat) returns (j: nat)
    requires s < n <= g
    ensures g - n <= j < g && j % n == s
  {
    var q := if s < g % n then g / n else g / n - 1;
    j := q * n + s;
    DivMod(j, q, n, s);
  }

  lemma RingIsRecent(mask: seq<int>, picks: seq<nat>, n: nat)
    requires n > 0 && Ring(mask, picks, n)
    ensures (set i | 0 <= i < |mask| :: mask[i]) == (set x: nat | x in Recent(picks, n) :: x as int)
  {
    var held := set i | 0 <= i < |mask| :: mask[i];
    forall i | 0 <= i < n ensures mask[i] >= 0 && mask[i] in Recent(picks, n) {
      if |picks| < n {
        if i < |picks| { Small(i, n); }
      } else {
        var j := RingSlot(|picks|, n, i);
        assert mask[j % n] == picks[j];
      }
    }
    forall x | x in Recent(picks, n) ensures x in held {
      if j :| 0 <= j < |picks| && |picks| - n <= j && picks[j] == x {
        assert mask[j % n] == x;
      } else {
        assert mask[n - 1] == 0;
      }
    }
  }

  lemma Small(i: nat, n: nat)
    requires i < n
    ensures i % n == i
  {
  }

  // ----- The marshaler -----

  /** The least j >= i whose trend makes the prefix weight exceed r, or the number of trends when there is none. */
  ghost function FirstOver(trends: seq<Trend>, r: real, i: nat): nat
    requires i <= |trends|
    decreases |trends| - i
  {
    if i == |trends| || OpenMass(trends, {}, i + 1) > r then i else FirstOver(trends, r, i + 1)
  }

  lemma {:induction false} FirstOverIs(trends: seq<Trend>, r: real, i: nat)
    requires i <= |trends|
    ensures var f := FirstOver(trends, r, i);
            && i <= f <= |trends|
            && (forall j :: i < j <= f ==> OpenMass(trends, {}, j) <= r)
            && (f < |trends| ==> OpenMass(trends, {}, f + 1) > r)
    decreases |trends| - i
  {
    if i < |trends| && OpenMass(trends, {}, i + 1) <= r {
      FirstOverIs(trends, r, i + 1);
    }
  }

  /** How many trends an option value keeps: at least the option, and enough for the prefix weight to exceed r. */
  ghost function Reach(trends: seq<Trend>, r: real, option: nat): (m: nat)
    ensures m >= 1 && m >= option
  {
    Max(FirstOver(trends, r, 0) + 1, option)
  }

  function Max(a: int, b: int): (m: int)
    ensures m >= a && m >= b && (m == a || m == b)
  {
    if a > b then a else b
  }

  /** The first m trends weigh more than r; one more than there are trends counts as enough. */
  ghost predicate Exceeds(trends: seq<Trend>, r: real, m: nat) {
    m <= |trends| ==> OpenMass(trends, {}, m) > r
  }

  /** m is the least number, from the option and from 1 on, such that the first m trends weigh more than r. */
  ghost predicate IsReach(trends: seq<Trend>, r: real, option: nat, m: nat) {
    && option <= m && 1 <= m && Exceeds(trends, r, m)
    && forall k :: option <= k < m && 1 <= k ==> !Exceeds(trends, r, k)
  }

  lemma ReachIs(trends: seq<Trend>, r: real, option: nat, m: nat)
    requires NonNegative(trends)
    ensures IsReach(trends, r, option, m) <==> m == Reach(trends, r, option)
  {
    hide IsReach, Reach;
    ReachHolds(trends, r, option);
    if IsReach(trends, r, option, m) {
      NoneLess(trends, r, option, m, Reach(trends, r, option));
      NoneLess(trends, r, option, Reach(trends, r, option), m);
    }
  }

  lemma ReachHolds(trends: seq<Trend>, r: real, option: nat)
    requires NonNegative(trends)
    ensures IsReach(trends, r, option, Reach(trends, r, option))
  {
    var f, m := FirstOver(trends, r, 0), Reach(trends, r, option);
    FirstOverIs(trends, r, 0);
    if m <= |trends| {
      OpenMassMonotone(trends, {}, f + 1, m);
    }
  }

  lemma NoneLess(trends: seq<Trend>, r: real, option: nat, m: nat, k: nat)
    requires IsReach(trends, r, option, m) && IsReach(trends, r, option, k)
    ensures m <= k
  {
    hide Exceeds;
  }

  /** A limit below the whole weight is exceeded within the trends. */
  lemma ReachWithin(trends: seq<Trend>, r: real, option: nat)
    requires Normalised(trends) && r < 1.0 && option <= |trends|
    ensures Reach(trends, r, option) <= |trends|
  {
    FirstOverIs(trends, r, 0);
  }

  ghost function Count(m: nat): seq<nat> { seq(m, i => i) }

  ghost function Chosen(trends: seq<Trend>, picks: seq<nat>): seq<Trend>
    requires forall i :: 0 <= i < |picks| ==> picks[i] < |trends|
  {
    seq(|picks|, i requires 0 <= i < |picks| => trends[picks[i]])
  }

  ghost predicate IsFlags(flags: seq<int>) {
    forall i :: 0 <= i < |flags| ==> flags[i] == 0 || flags[i] == 1
  }

  ghost function Flagged(flags: seq<int>): set<nat> {
    set i: nat | i < |flags| && flags[i] == 1
  }

  /** The indices a mask holds; negative entries are skipped. */
  ghost function Masked(mask: seq<int>): set<nat> {
    set i | 0 <= i < |mask| && mask[i] >= 0 :: mask[i]
  }

  /**
   * What one call of the marshaler deals out: the head, then the picks of a run of the abstract lottery, with at most
   * two draws for each of its picks.
   */
  ghost predicate Dealt(rules: Rules, head: seq<nat>, before: seq<Trend>, results: seq<Trend>,
                        picks: seq<nat>, draws: seq<nat>)
    requires rules.p > 0
  {
    && Draws(draws) && |draws| <= 2 * (|picks| - |head|)
    && picks == Run(rules, Lottery(head, {}, 0), draws).picks
    && (forall i :: 0 <= i < |picks| ==> picks[i] < |rules.trends|)
    && results == before + Chosen(rules.trends, picks)
  }

  class Marshaler {
    const topt: nat
    const p: nat
    const n: nat
    const r1: real
    const r2: real

    constructor (topt: nat, p: nat, n: nat, r1: real, r2: real)
      ensures this.topt == topt && this.p == p && this.n == n && this.r1 == r1 && this.r2 == r2
    {
      this.topt, this.p, this.n, this.r1, this.r2 := topt, p, n, r1, r2;
    }

    /** Marks the flagged and the masked trends, each once, and sums the weight that stays open. */
    method CloseTrends(interests: seq<Trend>, flags: seq<int>, mask: seq<int>)
      returns (totalFlags: array<int>, tw: real)
      requires Normalised(interests) && |interests| == |flags| <= 100 && IsFlags(flags)
      requires forall i :: 0 <= i < |mask| ==> mask[i] < |interests|
      ensures totalFlags.Length == 100
      ensures forall j :: 0 <= j < |flags| ==> totalFlags[j] == if j in Flagged(flags) + Masked(mask) then 1 else 0
      ensures tw == OpenMass(interests, Flagged(flags) + Masked(mask), |interests|)
    {
      tw := 0.0;
      totalFlags := new int[100];
      ghost var barred: set<nat> := {};
      for i := 0 to |flags|
        invariant forall j :: 0 <= j < i ==> totalFlags[j] == flags[j] && (j in barred <==> flags[j] == 1)
        invariant forall j :: j in barred ==> j < i
        invariant tw == 1.0 - OpenMass(interests, barred, |interests|)
      {
        totalFlags[i] := flags[i];
        if totalFlags[i] == 1 {
          tw := tw + interests[i].weight;
          BarringOne(interests, barred, i, |interests|);
          barred := barred + {i};
        }
      }
      assert barred == Flagged(flags);
      assert Masked(mask[..0]) == {};
      for i := 0 to |mask|
        invariant barred == Flagged(flags) + Masked(mask[..i])
        invariant forall j :: 0 <= j < |flags| ==> totalFlags[j] == if j in barred then 1 else 0
        invariant tw == 1.0 - OpenMass(interests, barred, |interests|)
      {
        MaskedNext(mask, i);
        if mask[i] >= 0 && totalFlags[mask[i]] == 0 {
          totalFlags[mask[i]] := 1;
          tw := tw + interests[mask[i]].weight;
          BarringOne(interests, barred, mask[i], |interests|);
          barred := barred + {mask[i]};
        }
      }
      assert mask[..|mask|] == mask;
      tw := 1.0 - tw;
    }

    /** One draw over the trends that are neither flagged nor masked; r is what the generator returned. */
    method SelectInteresting(interests: seq<Trend>, flags: seq<int>, mask: seq<int>)
      returns (target: int, ghost r: nat)
      requires Normalised(interests) && |interests| == |flags| <= 100 && IsFlags(flags)
      requires forall i :: 0 <= i < |mask| ==> mask[i] < |interests|
      ensures r < 100 && target == Draw(interests, Flagged(flags) + Masked(mask), r)
      ensures target == -1 <==> Positive(interests) <= Flagged(flags) + Masked(mask)
      ensures target != -1 ==> 0 <= target < |interests| && interests[target].weight > 0.0
      ensures target != -1 ==> target !in Flagged(flags) + Masked(mask)
    {
      var totalFlags, tw := CloseTrends(interests, flags, mask);
      ghost var barred := Flagged(flags) + Masked(mask);
      var draw: nat :| draw < 100;
      r := draw;
      DrawTotality(interests, barred, r);
      OpenMassMonotone(interests, barred, 0, |interests|);
      Scanning0(interests, barred, draw, tw);
      var v := 0.0;
      for i := 0 to |interests|
        invariant forall j :: 0 <= j < |flags| ==> totalFlags[j] == if j in barred then 1 else 0
        invariant Scanning(interests, barred, draw, i, tw, v)
      {
        ScanningNext(interests, barred, draw, i, tw, v);
        // With nothing left open the quotient is 0/0, which no draw compares below.
        if totalFlags[i] != 1 && tw != 0.0 {
          v := v + interests[i].weight / tw;
          if draw as real < v * 100.0 {
            return i, r;
          }
        }
      }
      NoWinner(interests, barred, r);
      return -1, r;
    }

    /** The first index at which the running sum of the weights exceeds r. */
    method PrefixOver(trends: seq<Trend>, r: real) returns (i: nat)
      ensures i == FirstOver(trends, r, 0)
    {
      var pr := 0.0;
      i := 0;
      while i < |trends|
        invariant i <= |trends| && pr == OpenMass(trends, {}, i)
        invariant FirstOver(trends, r, i) == FirstOver(trends, r, 0)
      {
        pr := pr + trends[i].weight;
        if pr > r { break; }
        i := i + 1;
      }
    }

    /** The heaviest trends, in order, until results has top entries; each pick enters the mask. */
    method MarshalHead(trends: seq<Trend>, top: nat, before: seq<Trend>)
      returns (results: seq<Trend>, mask: seq<int>, ghost picks: seq<nat>)
      requires n > 0 && top <= |trends|
      ensures results == before + trends[..Max(0, top - |before|)]
      ensures picks == Count(Max(0, top - |before|)) && |results| == |before| + |picks|
      ensures results == before + Chosen(trends, picks) && Ring(mask, picks, n)
    {
      mask := seq(n, _ => 0);
      results := before;
      picks := [];
      var k, g := 0, 0;
      while |results| < top
        invariant k == g == |results| - |before| && (k > 0 ==> |results| <= top)
        invariant picks == Count(k) && results == before + Chosen(trends, picks)
        invariant Ring(mask, picks, n)
      {
        ChosenNext(trends, picks, k);
        RingPush(mask, picks, n, k);
        assert picks + [k] == Count(k + 1);
        results := results + [trends[k]];
        mask := mask[g % n := k];
        picks := picks + [k];
        k, g := k + 1, g + 1;
      }
      assert Chosen(trends, picks) == trends[..k];
    }

    /** The lottery proper: draws until results has T entries, clearing the flags after each period and each failure. */
    method MarshalDraws(trends: seq<Trend>, T: nat, period: nat, before: seq<Trend>, mask0: seq<int>, g0: nat,
                        ghost head: seq<nat>, ghost ante: seq<Trend>)
      returns (results: seq<Trend>, ghost picks: seq<nat>, ghost draws: seq<nat>)
      requires Normalised(trends) && n > 0 && period > 0
      requires T > |before| ==> |trends| <= 100 && |Positive(trends)| > n
      requires |head| == g0 && Ring(mask0, head, n)
      requires (forall i :: 0 <= i < |head| ==> head[i] < |trends|) && before == ante + Chosen(trends, head)
      ensures |results| == Max(|before|, T)
      ensures Dealt(Rules(trends, period, n), head, ante, results, picks, draws)
    {
      hide Spaced, Draw, Barred, Recent, Masked;
      ghost var rules := Rules(trends, period, n);
      ghost var start := Lottery(head, {}, 0);
      ghost var s := start;
      ghost var failed := false;
      results, draws := before, [];
      var k, g, mask := 0, g0, mask0;
      var flags: seq<int> := seq(|trends|, _ => 0);
      while |results| < T
        invariant |results| == |before| + |s.picks| - |head| && (k > 0 ==> |results| <= T)
        invariant g == |s.picks| && k == s.round == g - |head|
        invariant Linked(rules, s, mask, flags)
        invariant results == ante + Chosen(trends, s.picks)
        invariant Reached(rules, start, draws, s, failed)
        invariant failed ==> |results| < T
        decreases T - |results|, if failed then 0 else 1
      {
        LinkedBars(rules, s, mask, flags);
        if failed { FreshEpochSucceeds(rules, s); }
        var target, r := SelectInteresting(trends, flags, mask);
        ReachedNext(rules, start, draws, s, failed, r);
        LinkedNext(rules, s, mask, flags, r);
        if -1 != target {
          ChosenNext(trends, s.picks, target);
          results := results + [trends[target]];
          flags := flags[target := 1];
          mask := mask[g % n := target];
          k, g := k + 1, g + 1;
          if k % period == 0 {
            flags := seq(|flags|, _ => 0);
          }
        } else {
          flags := seq(|flags|, _ => 0);
        }
        draws, s, failed := draws + [r], Step(rules, s, r), -1 == target;
      }
      picks := s.picks;
    }

    /**
     * Fills results up to T: first the head, which has at least topt trends and weighs more than r1, then draws in
     * epochs of the least period from p on whose trends weigh more than r2. The ghost outputs are the indices picked in
     * this call and the draws that were made; the picks are those of a run of the abstract lottery after the head.
     */
    method Marshal(trends: seq<Trend>, T: nat, before: seq<Trend>)
      returns (results: seq<Trend>, ghost picks: seq<nat>, ghost draws: seq<nat>)
      requires Normalised(trends) && n > 0 && r1 < 1.0 && topt <= |trends|
      requires T > Max(|before|, Reach(trends, r1, topt)) ==> |trends| <= 100 && |Positive(trends)| > n
      ensures var h := Reach(trends, r1, topt);
              && IsReach(trends, r1, topt, h) && h <= |trends|
              && |results| == Max(|before|, Max(T, h))
              && before + trends[..Max(0, h - |before|)] <= results
      ensures var h, period := Reach(trends, r1, topt), Reach(trends, r2, p);
              IsReach(trends, r2, p, period) && FollowsSome(trends, period, n, Max(0, h - |before|), picks, draws)
      ensures Spaced(picks, n)
      ensures Dealt(Rules(trends, Reach(trends, r2, p), n), Count(Max(0, Reach(trends, r1, topt) - |before|)),
                    before, results, picks, draws)
    {
      hide Dealt, Spaced, Ring, Chosen, Positive, Run, IsReach, FollowsSome;
      FirstOverIs(trends, r1, 0);
      ReachIs(trends, r1, topt, Reach(trends, r1, topt));
      ReachIs(trends, r2, p, Reach(trends, r2, p));
      var over := PrefixOver(trends, r1);
      var top := if over + 1 > topt then over + 1 else topt;
      over := PrefixOver(trends, r2);
      var period := if over + 1 > p then over + 1 else p;

      var mask;
      ghost var head;
      results, mask, head := MarshalHead(trends, top, before);
      ghost var first := results;
      results, picks, draws := MarshalDraws(trends, T, period, results, mask, |results| - |before|, head, before);
      DealtIsSpaced(Rules(trends, period, n), |head|, before, results, picks, draws);
      DealtStarts(Rules(trends, period, n), |head|, before, results, picks, draws);
    }
  }

  /** A deal begins with its head and goes on as its draws decide. */
  lemma DealtStarts(rules: Rules, head: nat, before: seq<Trend>, results: seq<Trend>, picks: seq<nat>, draws: seq<nat>)
    requires rules.Sound() && head <= |rules.trends| && Dealt(rules, Count(head), before, results, picks, draws)
    ensures before + rules.trends[..head] <= results
    ensures FollowsSome(rules.trends, rules.p, rules.n, head, picks, draws)
  {
    hide Run, Follows, Draws, OpenMass;
    var s := Lottery(Count(head), {}, 0);
    RunFollows(rules, Count(head), draws);
    RunStartsWith(rules, Count(head), draws);
    assert Follows(rules.trends, rules.p, rules.n, head, picks, draws, Made(rules, s, draws));
    ChosenHead(rules.trends, head, picks);
  }

  lemma ChosenHead(trends: seq<Trend>, head: nat, picks: seq<nat>)
    requires head <= |trends| && Count(head) <= picks && forall i :: 0 <= i < |picks| ==> picks[i] < |trends|
    ensures trends[..head] <= Chosen(trends, picks)
  {
    forall i | 0 <= i < head ensures picks[i] == i {
      assert picks[i] == Count(head)[i];
    }
  }

  lemma DealtIsSpaced(rules: Rules, head: nat, before: seq<Trend>, results: seq<Trend>,
                      picks: seq<nat>, draws: seq<nat>)
    requires rules.Sound() && Dealt(rules, Count(head), before, results, picks, draws)
    ensures Spaced(picks, rules.n)
  {
    RunKeepsSpacing(rules, Lottery(Count(head), {}, 0), draws);
  }

  /** The arrays of the loop hold the abstract state of the lottery. */
  ghost predicate Linked(rules: Rules, s: Lottery, mask: seq<int>, flags: seq<int>) {
    && Ring(mask, s.picks, rules.n)
    && |flags| == |rules.trends| && IsFlags(flags) && Flagged(flags) == s.drawn
    && (forall i :: 0 <= i < |s.picks| ==> s.picks[i] < |rules.trends|)
  }

  ghost predicate Reached(rules: Rules, start: Lottery, draws: seq<nat>, s: Lottery, failed: bool)
    requires rules.p > 0
  {
    && Draws(draws) && s == Run(rules, start, draws)
    && |draws| <= 2 * (|s.picks| - |start.picks|) + (if failed then 1 else 0)
    && (failed ==> s.drawn == {})
  }

  lemma LinkedBars(rules: Rules, s: Lottery, mask: seq<int>, flags: seq<int>)
    requires rules.Sound() && |rules.trends| > 0 && Linked(rules, s, mask, flags)
    ensures Flagged(flags) + Masked(mask) == Barred(rules, s)
    ensures forall i :: 0 <= i < |mask| ==> mask[i] < |rules.trends|
  {
    MaskIsRecent(mask, s.picks, rules.n);
    forall i | 0 <= i < |mask| ensures mask[i] < |rules.trends| {
      assert mask[i] >= 0;
      assert mask[i] in Masked(mask);
    }
  }

  lemma LinkedNext(rules: Rules, s: Lottery, mask: seq<int>, flags: seq<int>, r: nat)
    requires rules.Sound() && r < 100 && Linked(rules, s, mask, flags)
    ensures var d := Draw(rules.trends, Barred(rules, s), r);
            var clear := seq(|flags|, _ => 0);
            var t := Step(rules, s, r);
            && (d == -1 ==> t == s.(drawn := {}) && Linked(rules, t, mask, clear))
            && (d != -1 ==> 0 <= d < |flags| && t.picks == s.picks + [d] && t.round == s.round + 1)
            && (d != -1 ==> Linked(rules, t, mask[|s.picks| % rules.n := d],
                                   if t.round % rules.p == 0 then clear else flags[d := 1]))
  {
    DrawTotality(rules.trends, Barred(rules, s), r);
    var d := Draw(rules.trends, Barred(rules, s), r);
    if d != -1 {
      FlagOne(flags, d);
      RingPush(mask, s.picks, rules.n, d);
    }
  }

  lemma ReachedNext(rules: Rules, start: Lottery, draws: seq<nat>, s: Lottery, failed: bool, r: nat)
    requires rules.Sound() && r < 100 && Reached(rules, start, draws, s, failed)
    requires failed ==> !(Positive(rules.trends) <= Barred(rules, s))
    ensures Reached(rules, start, draws + [r], Step(rules, s, r), Positive(rules.trends) <= Barred(rules, s))
  {
    assert (draws + [r])[..|draws|] == draws;
    StepCases(rules, s, r);
  }

  lemma MaskedNext(mask: seq<int>, i: nat)
    requires i < |mask|
    ensures Masked(mask[..i + 1]) == Masked(mask[..i]) + (if mask[i] >= 0 then {mask[i]} else {})
  {
  }

  lemma FlagOne(flags: seq<int>, t: nat)
    requires IsFlags(flags) && t < |flags|
    ensures IsFlags(flags[t := 1]) && Flagged(flags[t := 1]) == Flagged(flags) + {t}
  {
  }

  lemma ChosenNext(trends: seq<Trend>, picks: seq<nat>, x: nat)
    requires x < |trends| && forall i :: 0 <= i < |picks| ==> picks[i] < |trends|
    ensures Chosen(trends, picks + [x]) == Chosen(trends, picks) + [trends[x]]
  {
  }

  lemma NoWinner(trends: seq<Trend>, barred: set<nat>, r: nat)
    requires NonNegative(trends) && r < 100
    requires 100.0 * OpenMass(trends, barred, |trends|) <= Point(trends, barred, r)
    ensures Draw(trends, barred, r) == -1
  {
    hide Point;
    DrawTotality(trends, barred, r);
    PointInMass(trends, barred, r, r);
    OpenMassMonotone(trends, barred, 0, |trends|);
    MassOfPositive(trends, barred, |trends|);
    forall i | i in Positive(trends) ensures i in barred {}
  }

  lemma MaskIsRecent(mask: seq<int>, picks: seq<nat>, n: nat)
    requires n > 0 && Ring(mask, picks, n)
    ensures Masked(mask) == Recent(picks, n)
    ensures forall i :: 0 <= i < |mask| ==> mask[i] >= 0
  {
    RingIsRecent(mask, picks, n);
    var held := set i | 0 <= i < |mask| :: mask[i];
    var recent := set x: nat | x in Recent(picks, n) :: x as int;
    forall i | 0 <= i < n ensures mask[i] >= 0 && mask[i] in Recent(picks, n) {
      assert mask[i] in held;
      assert mask[i] in recent;
    }
    forall x | x in Recent(picks, n) ensures x in Masked(mask) {
      assert x as int in recent;
      assert x as int in held;
    }
  }

  /** The first i slices have been passed over: v is their share of the open mass and the draw lies beyond them. */
  ghost predicate Scanning(trends: seq<Trend>, barred: set<nat>, r: nat, i: nat, tw: real, v: real) {
    && i <= |trends| && tw == OpenMass(trends, barred, |trends|) >= 0.0
    && (tw > 0.0 ==> Product(v, tw) == OpenMass(trends, barred, i))
    && 100.0 * OpenMass(trends, barred, i) <= Point(trends, barred, r)
  }

  lemma Scanning0(trends: seq<Trend>, barred: set<nat>, r: nat, tw: real)
    requires NonNegative(trends) && tw == OpenMass(trends, barred, |trends|)
    ensures Scanning(trends, barred, r, 0, tw, 0.0)
  {
    OpenMassMonotone(trends, barred, 0, |trends|);
    ProductOrder(0.0, r as real, tw);
  }

  lemma ScanningNext(trends: seq<Trend>, barred: set<nat>, r: nat, i: nat, tw: real, v: real)
    requires NonNegative(trends) && i < |trends| && Scanning(trends, barred, r, i, tw, v)
    ensures i in barred || tw == 0.0 ==> Scanning(trends, barred, r, i + 1, tw, v)
    ensures i !in barred && tw != 0.0 ==>
              var u := v + trends[i].weight / tw;
              if r as real < u * 100.0 then Draw(trends, barred, r) == i && trends[i].weight > 0.0
              else Scanning(trends, barred, r, i + 1, tw, u)
  {
    hide Product, Draw;
    OpenMassMonotone(trends, barred, i, i + 1);
    OpenMassMonotone(trends, barred, i + 1, |trends|);
    if i !in barred && tw != 0.0 {
      var u := v + trends[i].weight / tw;
      SliceEnds(v, trends[i].weight, tw);
      Below(r as real, u, tw);
      if r as real < u * 100.0 {
        assert Wins(trends, barred, r, i);
        OneWinner(trends, barred, r, i);
      }
    }
  }

  lemma SliceEnds(v: real, w: real, tw: real)
    requires tw > 0.0
    ensures Product(v + w / tw, tw) == Product(v, tw) + w
  {
    assert w / tw * tw == w;
  }

  lemma Below(r: real, u: real, tw: real)
    requires tw > 0.0
    ensures r < u * 100.0 <==> Product(r, tw) < 100.0 * Product(u, tw)
  {
    assert 100.0 * (u * tw) - r * tw == (u * 100.0 - r) * tw;
    if u * 100.0 > r {
      assert (u * 100.0 - r) * tw > 0.0;
    } else {
      assert (r - u * 100.0) * tw >= 0.0;
    }
  }
}
