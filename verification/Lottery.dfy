// The lottery of src/core/marshaler.cpp as an abstract machine: the picks so far, the trends drawn in the current
// epoch, and a mask over the last n picks.

module CategoryLottery {
  import opened WeightedDraw

  /** picks: the indices chosen so far; drawn: those chosen in the current epoch; round: the lottery's own count. */
  datatype Lottery = Lottery(picks: seq<nat>, drawn: set<nat>, round: nat)

  datatype Rules = Rules(trends: seq<Trend>, p: nat, n: nat) {
    ghost predicate Sound() { NonNegative(trends) && p > 0 && n > 0 }
  }

  /** The last n picks; a slot of the mask that was never written still bars trend 0. */
  ghost function Recent(picks: seq<nat>, n: nat): set<nat> {
    if |picks| < n then Elements(picks) + {0} else Elements(picks[|picks| - n..])
  }

  ghost function Elements(s: seq<nat>): set<nat> { set x | x in s }

  ghost function Barred(rules: Rules, s: Lottery): set<nat> {
    s.drawn + Recent(s.picks, rules.n)
  }

  ghost function Step(rules: Rules, s: Lottery, r: nat): Lottery
    requires rules.p > 0
  {
    var d := Draw(rules.trends, Barred(rules, s), r);
    if d < 0 then s.(drawn := {})
    else Lottery(s.picks + [d], if (s.round + 1) % rules.p == 0 then {} else s.drawn + {d}, s.round + 1)
  }

  ghost function Run(rules: Rules, s: Lottery, draws: seq<nat>): Lottery
    requires rules.p > 0
  {
    if draws == [] then s else Step(rules, Run(rules, s, draws[..|draws| - 1]), draws[|draws| - 1])
  }

  ghost predicate Draws(draws: seq<nat>) { forall i :: 0 <= i < |draws| ==> draws[i] < 100 }

  /** Any n + 1 consecutive picks are pairwise distinct. */
  ghost predicate Spaced(picks: seq<nat>, n: nat) {
    forall i, j :: 0 <= i < j < |picks| && j - i <= n ==> picks[i] != picks[j]
  }

  lemma StepCases(rules: Rules, s: Lottery, r: nat)
    requires rules.Sound() && r < 100
    ensures var t := Step(rules, s, r);
            && (Positive(rules.trends) <= Barred(rules, s) ==> t == s.(drawn := {}))
            && (!(Positive(rules.trends) <= Barred(rules, s)) ==>
                  && |t.picks| == |s.picks| + 1 && s.picks <= t.picks && t.round == s.round + 1
                  && t.picks[|s.picks|] in Positive(rules.trends) - Barred(rules, s)
                  && (t.drawn == {} || t.drawn == s.drawn + {t.picks[|s.picks|]}))
  {
    DrawTotality(rules.trends, Barred(rules, s), r);
  }

  /** Spacing survives every run, whatever is drawn. */
  lemma {:induction false} RunKeepsSpacing(rules: Rules, s: Lottery, draws: seq<nat>)
    requires rules.Sound() && Draws(draws) && Spaced(s.picks, rules.n)
    ensures s.picks <= Run(rules, s, draws).picks
    ensures Spaced(Run(rules, s, draws).picks, rules.n)
  {
    if draws != [] {
      var before := draws[..|draws| - 1];
      RunKeepsSpacing(rules, s, before);
      StepCases(rules, Run(rules, s, before), draws[|draws| - 1]);
    }
  }

  lemma {:induction false} ElementsSize(s: seq<nat>)
    ensures |Elements(s)| <= |s|
    ensures (forall i, j :: 0 <= i < j < |s| ==> s[i] != s[j]) ==> |Elements(s)| == |s|
  {
    if s != [] {
      ElementsSize(s[1..]);
      assert Elements(s) == Elements(s[1..]) + {s[0]};
    }
  }

  lemma RecentSize(picks: seq<nat>, n: nat)
    requires n > 0
    ensures |Recent(picks, n)| <= n
  {
    ElementsSize(if |picks| < n then picks else picks[|picks| - n..]);
  }

  /** With nothing drawn in the epoch and more than n positive weights, no draw can fail. */
  lemma FreshEpochSucceeds(rules: Rules, s: Lottery)
    requires rules.Sound() && s.drawn == {} && |Positive(rules.trends)| > rules.n
    ensures !(Positive(rules.trends) <= Barred(rules, s))
  {
    RecentSize(s.picks, rules.n);
    if Positive(rules.trends) <= Recent(s.picks, rules.n) {
      SubsetSize(Positive(rules.trends), Recent(s.picks, rules.n));
    }
  }

  lemma {:induction false} SubsetSize<T>(a: set<T>, b: set<T>)
    requires a <= b
    ensures |a| <= |b|
  {
    assert b == a + (b - a);
  }

  /** More than n positive weights: at most every other draw fails, so the number of draws is bounded by the picks. */
  lemma {:induction false} RunProgress(rules: Rules, s: Lottery, draws: seq<nat>)
    requires rules.Sound() && Draws(draws) && |Positive(rules.trends)| > rules.n
    ensures var t := Run(rules, s, draws);
            && |s.picks| <= |t.picks|
            && (|draws| <= 2 * (|t.picks| - |s.picks|)
                || (t.drawn == {} && |draws| == 2 * (|t.picks| - |s.picks|) + 1))
  {
    if draws != [] {
      var before := draws[..|draws| - 1];
      var t := Run(rules, s, before);
      RunProgress(rules, s, before);
      StepCases(rules, t, draws[|draws| - 1]);
      if t.drawn == {} {
        FreshEpochSucceeds(rules, t);
      }
    }
  }

  /** At most n positive weights: the lottery gives out each of them at most once more and then stalls for ever. */
  lemma {:induction false} RunStalls(rules: Rules, s: Lottery, draws: seq<nat>)
    requires rules.Sound() && Draws(draws) && |Positive(rules.trends)| <= rules.n
    ensures var t := Run(rules, s, draws);
            && s.picks <= t.picks
            && |t.picks| - |s.picks| <= |Positive(rules.trends)|
            && (forall i :: |s.picks| <= i < |t.picks| ==> t.picks[i] in Positive(rules.trends))
            && (forall i, j :: |s.picks| <= i < j < |t.picks| ==> t.picks[i] != t.picks[j])
  {
    if draws != [] {
      var before := draws[..|draws| - 1];
      var t, t' := Run(rules, s, before), Run(rules, s, draws);
      RunStalls(rules, s, before);
      StepCases(rules, t, draws[|draws| - 1]);
      if t'.picks != t.picks {
        ElementsSize(t'.picks[|s.picks|..]);
        SubsetSize(Elements(t'.picks[|s.picks|..]), Positive(rules.trends));
      }
    }
  }

  ghost predicate AlwaysFills(rules: Rules, s: Lottery)
    requires rules.p > 0
  {
    forall draws :: Draws(draws) ==> |draws| <= 2 * (|Run(rules, s, draws).picks| - |s.picks|) + 1
  }

  /** From any state the lottery fills every request, for all draws, if and only if more than n weights are positive. */
  lemma LotteryTerminates(rules: Rules, s: Lottery)
    requires rules.Sound()
    ensures AlwaysFills(rules, s) <==> |Positive(rules.trends)| > rules.n
  {
    if |Positive(rules.trends)| > rules.n {
      forall draws | Draws(draws)
        ensures |draws| <= 2 * (|Run(rules, s, draws).picks| - |s.picks|) + 1
      {
        RunProgress(rules, s, draws);
      }
    } else {
      var draws: seq<nat> := seq(2 * |Positive(rules.trends)| + 2, i => 0);
      assert Draws(draws);
      RunStalls(rules, s, draws);
    }
  }

  /** The picks from s to t are new to the epoch, and exactly they have been flagged. */
  ghost predicate NewPicks(s: Lottery, t: Lottery) {
    && s.picks <= t.picks && t.drawn == s.drawn + Elements(t.picks[|s.picks|..])
    && (forall i :: |s.picks| <= i < |t.picks| ==> t.picks[i] !in s.drawn)
    && (forall i, j :: |s.picks| <= i < j < |t.picks| ==> t.picks[i] != t.picks[j])
  }

  lemma NewPicksNext(s: Lottery, t: Lottery, t': Lottery, x: nat)
    requires NewPicks(s, t) && x !in t.drawn && t'.picks == t.picks + [x] && t'.drawn == t.drawn + {x}
    ensures NewPicks(s, t')
  {
    var since := t.picks[|s.picks|..];
    assert t'.picks[|s.picks|..] == since + [x];
    assert Elements(since + [x]) == Elements(since) + {x};
    forall i | |s.picks| <= i < |t.picks| ensures t.picks[i] in t.drawn {
      assert since[i - |s.picks|] in Elements(since);
    }
  }

  /** As long as no epoch ends, every pick is new to the epoch. */
  lemma {:induction false} EpochNeverRepeats(rules: Rules, s: Lottery, draws: seq<nat>)
    requires rules.Sound() && Draws(draws)
    requires forall k :: 0 < k <= |draws| ==> Run(rules, s, draws[..k]).drawn != {}
    ensures NewPicks(s, Run(rules, s, draws)) && |Run(rules, s, draws).picks| == |s.picks| + |draws|
  {
    hide NewPicks, Positive, Recent, Step;
    if draws == [] {
      NothingPicked(s);
    } else {
      var before := draws[..|draws| - 1];
      var t := Run(rules, s, before);
      forall k | 0 < k <= |before| ensures Run(rules, s, before[..k]).drawn != {} {
        assert before[..k] == draws[..k];
      }
      EpochNeverRepeats(rules, s, before);
      assert draws[..|draws|] == draws;
      StepCases(rules, t, draws[|draws| - 1]);
      var t' := Run(rules, s, draws);
      assert t'.picks == t.picks + [t'.picks[|t.picks|]];
      NewPicksNext(s, t, t', t'.picks[|t.picks|]);
    }
  }

  lemma NothingPicked(s: Lottery)
    ensures NewPicks(s, s)
  {
  }

  // ----- A deal told from its picks and draws alone -----

  /**
   * The number of picks at which the epoch of the next draw began, where made[k] picks exist after k draws: it begins
   * anew at every failed draw and after every p-th pick of the lottery.
   */
  ghost function EpochStart(p: nat, from: nat, made: seq<nat>, t: nat): nat
    requires p > 0 && t < |made|
  {
    if t == 0 then from
    else if made[t] == made[t - 1] || (made[t] - from) % p == 0 then made[t]
    else EpochStart(p, from, made, t - 1)
  }

  /** Draw t is made among the trends picked neither in the last n places nor since its epoch began. */
  ghost predicate Outcome(trends: seq<Trend>, p: nat, n: nat, from: nat, picks: seq<nat>, made: seq<nat>, t: nat,
                          r: nat)
    requires p > 0 && t + 1 < |made|
  {
    var start := EpochStart(p, from, made, t);
    && start <= made[t] <= |picks|
    && var d := Draw(trends, Elements(picks[start..made[t]]) + Recent(picks[..made[t]], n), r);
       if d < 0 then made[t + 1] == made[t]
       else made[t + 1] == made[t] + 1 <= |picks| && picks[made[t]] == d
  }

  ghost predicate Follows(trends: seq<Trend>, p: nat, n: nat, from: nat, picks: seq<nat>, draws: seq<nat>,
                          made: seq<nat>)
    requires p > 0
  {
    && |made| == |draws| + 1 && made[0] == from && made[|draws|] == |picks|
    && forall t :: 0 <= t < |draws| ==> Outcome(trends, p, n, from, picks, made, t, draws[t])
  }

  ghost predicate FollowsSome(trends: seq<Trend>, p: nat, n: nat, from: nat, picks: seq<nat>, draws: seq<nat>)
    requires p > 0
  {
    exists made :: Follows(trends, p, n, from, picks, draws, made)
  }

  /** The number of picks after each draw of a run. */
  ghost function Made(rules: Rules, s: Lottery, draws: seq<nat>): seq<nat>
    requires rules.p > 0
  {
    seq(|draws| + 1, t requires 0 <= t <= |draws| => |Run(rules, s, draws[..t]).picks|)
  }

  lemma {:induction false} EpochStartAgrees(p: nat, from: nat, a: seq<nat>, b: seq<nat>, t: nat)
    requires p > 0 && t < |a| && t < |b| && forall k :: 0 <= k <= t ==> a[k] == b[k]
    ensures EpochStart(p, from, a, t) == EpochStart(p, from, b, t)
  {
    if t > 0 {
      EpochStartAgrees(p, from, a, b, t - 1);
    }
  }

  lemma MadeAgrees(rules: Rules, s: Lottery, draws: seq<nat>, t: nat)
    requires rules.p > 0 && t <= |draws|
    ensures EpochStart(rules.p, |s.picks|, Made(rules, s, draws[..t]), t)
         == EpochStart(rules.p, |s.picks|, Made(rules, s, draws), t)
  {
    forall k | 0 <= k <= t ensures Made(rules, s, draws[..t])[k] == Made(rules, s, draws)[k] {
      assert draws[..t][..k] == draws[..k];
    }
    EpochStartAgrees(rules.p, |s.picks|, Made(rules, s, draws[..t]), Made(rules, s, draws), t);
  }

  /** What a state after head has, for an epoch that began with the pick at start. */
  ghost predicate EpochFrom(head: seq<nat>, start: nat, s: Lottery) {
    && head <= s.picks && s.round == |s.picks| - |head|
    && start <= |s.picks| && s.drawn == Elements(s.picks[start..])
  }

  lemma StepEpoch(rules: Rules, head: seq<nat>, start: nat, s: Lottery, r: nat)
    requires rules.p > 0 && EpochFrom(head, start, s)
    ensures var t := Step(rules, s, r);
            && |t.picks| >= |head|
            && var begins := |t.picks| == |s.picks| || (|t.picks| - |head|) % rules.p == 0;
               EpochFrom(head, if begins then |t.picks| else start, t)
  {
    hide Draw, Recent;
    var t := Step(rules, s, r);
    if t.picks != s.picks {
      assert t.picks[start..] == s.picks[start..] + [t.picks[|s.picks|]];
      assert Elements(t.picks[start..]) == Elements(s.picks[start..]) + {t.picks[|s.picks|]};
    }
    assert t.picks[|t.picks|..] == [];
  }

  /** The flags are the picks since the epoch began, and the count is the number of the lottery's own picks. */
  lemma {:induction false} RunState(rules: Rules, head: seq<nat>, draws: seq<nat>)
    requires rules.p > 0
    ensures EpochFrom(head, EpochStart(rules.p, |head|, Made(rules, Lottery(head, {}, 0), draws), |draws|),
                      Run(rules, Lottery(head, {}, 0), draws))
  {
    hide Step;
    var s := Lottery(head, {}, 0);
    var made := Made(rules, s, draws);
    assert draws[..|draws|] == draws;
    if draws == [] {
      assert head[|head|..] == [];
    } else {
      hide EpochFrom;
      var before := draws[..|draws| - 1];
      RunState(rules, head, before);
      MadeAgrees(rules, s, draws, |before|);
      StepEpoch(rules, head, EpochStart(rules.p, |head|, made, |before|), Run(rules, s, before), draws[|before|]);
    }
  }

  lemma RunStartsWith(rules: Rules, head: seq<nat>, draws: seq<nat>)
    requires rules.p > 0
    ensures head <= Run(rules, Lottery(head, {}, 0), draws).picks
  {
    RunState(rules, head, draws);
  }

  lemma {:induction false} RunExtends(rules: Rules, s: Lottery, draws: seq<nat>, t: nat)
    requires rules.p > 0 && t <= |draws|
    ensures Run(rules, s, draws[..t]).picks <= Run(rules, s, draws).picks
    decreases |draws|
  {
    hide Draw;
    if t < |draws| {
      var before := draws[..|draws| - 1];
      RunExtends(rules, s, before, t);
      assert before[..t] == draws[..t];
    } else {
      assert draws[..t] == draws;
    }
  }

  /** A run that starts with cleared flags and a count of zero deals what its draws decide, epoch by epoch. */
  lemma RunFollows(rules: Rules, head: seq<nat>, draws: seq<nat>)
    requires rules.p > 0
    ensures var s := Lottery(head, {}, 0);
            Follows(rules.trends, rules.p, rules.n, |head|, Run(rules, s, draws).picks, draws, Made(rules, s, draws))
  {
    hide Draw, Recent, EpochStart;
    var s := Lottery(head, {}, 0);
    var picks, made := Run(rules, s, draws).picks, Made(rules, s, draws);
    assert draws[..0] == [] && draws[..|draws|] == draws;
    forall t | 0 <= t < |draws| ensures Outcome(rules.trends, rules.p, rules.n, |head|, picks, made, t, draws[t]) {
      RunExtends(rules, s, draws, t);
      RunExtends(rules, s, draws, t + 1);
      RunOutcome(rules, head, draws, t, picks);
    }
  }

  lemma RunOutcome(rules: Rules, head: seq<nat>, draws: seq<nat>, t: nat, picks: seq<nat>)
    requires rules.p > 0 && t < |draws|
    requires Run(rules, Lottery(head, {}, 0), draws[..t]).picks <= picks
    requires Run(rules, Lottery(head, {}, 0), draws[..t + 1]).picks <= picks
    ensures var made := Made(rules, Lottery(head, {}, 0), draws);
            Outcome(rules.trends, rules.p, rules.n, |head|, picks, made, t, draws[t])
  {
    hide Draw, Recent, EpochStart;
    var s := Lottery(head, {}, 0);
    var made := Made(rules, s, draws);
    RunState(rules, head, draws[..t]);
    MadeAgrees(rules, s, draws, t);
    var u := Run(rules, s, draws[..t]);
    assert draws[..t + 1][..t] == draws[..t];
    assert Run(rules, s, draws[..t + 1]) == Step(rules, u, draws[t]);
    assert picks[..made[t]] == u.picks;
    assert picks[EpochStart(rules.p, |head|, made, t)..made[t]] == u.picks[EpochStart(rules.p, |head|, made, t)..];
  }

  /**
   * As long as no draw has failed, the first p picks of the lottery are pairwise distinct, and the flags are cleared
   * for the first time with the p-th.
   */
  lemma {:induction false} FirstEpoch(trends: seq<Trend>, p: nat, n: nat, from: nat, picks: seq<nat>, draws: seq<nat>,
                                      made: seq<nat>, k: nat)
    requires p > 0 && NonNegative(trends) && Draws(draws) && Follows(trends, p, n, from, picks, draws, made)
    requires k <= p && k <= |draws| && forall t :: 0 <= t <= k ==> made[t] == from + t
    ensures from + k <= |picks| && EpochStart(p, from, made, k) == if k < p then from else from + p
    ensures forall i, j :: from <= i < j < from + k ==> picks[i] != picks[j]
  {
    hide Draw, Recent;
    if k > 0 {
      FirstEpoch(trends, p, n, from, picks, draws, made, k - 1);
      assert Outcome(trends, p, n, from, picks, made, k - 1, draws[k - 1]);
      SmallRemainder(k, p);
      var barred := Elements(picks[from..from + k - 1]) + Recent(picks[..from + k - 1], n);
      DrawTotality(trends, barred, draws[k - 1]);
      forall i | from <= i < from + k - 1 ensures picks[i] != picks[from + k - 1] {
        assert picks[i] == picks[from..from + k - 1][i - from];
      }
    } else if draws != [] {
      assert Outcome(trends, p, n, from, picks, made, 0, draws[0]);
    }
  }

  lemma SmallRemainder(k: nat, p: nat)
    requires 0 < k <= p
    ensures k % p == 0 <==> k == p
  {
  }
}
