// The prediction pipeline of src/core/content_based.cpp as code: mix the available distributions, reweight, sort, and
// deal the result out through the marshaler.

module ContentBasedModel {
  import opened Sums
  import opened WeightedDraw
  import opened CategoryLottery
  import opened Marshaling
  import opened Predictions
  import opened PredictionLaws

  datatype Result<+T> = Ok(value: T) | Corruption

  /** The library sort: some descending permutation; which one among ties is left open. */
  method SortTrends(s: seq<Trend>) returns (r: seq<Trend>)
    ensures Descending(r) && multiset(r) == multiset(s)
  {
    SortedIs(s);
    r := Sorted(s);
  }

  // ----- What a request is dealt -----

  /** The head of the trends, then the picks of a run of the lottery. */
  ghost predicate DealtPicks(m: Marshaler, trends: seq<Trend>, head: nat, period: nat, picks: seq<nat>, draws: seq<nat>)
    requires period > 0
  {
    && IsReach(trends, m.r1, m.topt, head) && IsReach(trends, m.r2, m.p, period)
    && Count(head) <= picks && (forall i :: 0 <= i < |picks| ==> picks[i] < |trends|)
    && Draws(draws) && |draws| <= 2 * (|picks| - head)
    && FollowsSome(trends, period, m.n, head, picks, draws)
  }

  ghost predicate DealtBy(m: Marshaler, mixed: map<int, real>, head: nat, ids: seq<int>, trends: seq<Trend>,
                          period: nat, picks: seq<nat>, draws: seq<nat>)
  {
    && Predicts(mixed, trends) && WeightedDraw.Normalised(trends)
    && period > 0 && DealtPicks(m, trends, head, period, picks, draws)
    && |ids| == |picks| && forall i :: 0 <= i < |ids| ==> picks[i] < |trends| && ids[i] == trends[picks[i]].id
  }

  /** The categories are those of a deal over a prediction of the mix, with this many in its head. */
  ghost predicate DealtFrom(m: Marshaler, mixed: map<int, real>, head: nat, ids: seq<int>) {
    exists trends, period, picks, draws :: DealtBy(m, mixed, head, ids, trends, period, picks, draws)
  }

  class ContentBased {
    const alpha: real
    const marshaler: Marshaler
    var categories: set<int>

    constructor (alpha: real, marshaler: Marshaler, categories: set<int>)
      ensures this.alpha == alpha && this.marshaler == marshaler && this.categories == categories
    {
      this.alpha, this.marshaler, this.categories := alpha, marshaler, categories;
    }

    method TotalDistribution(trends: map<int, real>) returns (total: real)
      ensures total == OneIfNone(Total(trends))
    {
      total := SumValues(trends);
      if total <= 0.0 { total := 1.0; }
    }

    /** The mixed distribution as a list; the order of the categories is left open. */
    method PredictMix(user: map<int, real>, current: map<int, real>, news: map<int, real>) returns (dist: seq<Trend>)
      ensures Lists(dist, MixMap(user, current, news, categories, alpha))
      ensures Mixes(dist, user, current, news, categories, alpha)
      ensures user.Keys == current.Keys <= categories && Total(user) > 0.0 && Total(current) > 0.0 ==>
                PowerSum(dist) == 1.0
    {
      hide Total, MixMap, Blend, Mixes;
      var totalUser := TotalDistribution(user);
      var totalCurrent := TotalDistribution(current);
      if user != map[] && current != map[] {
        var mixed: map<int, real> := map c | c in categories && c in user && c in current ::
          Blend(alpha, user[c], totalUser, current[c], totalCurrent);
        dist := ListOf(mixed);
      } else if current != map[] {
        dist := ListOf(map c | c in categories && c in current :: current[c]);
      } else if user != map[] {
        dist := ListOf(map c | c in categories && c in user :: user[c]);
      } else {
        dist := ListOf(news);
      }
      MixIs(user, current, news, categories, alpha);
      ListMixes(dist, user, current, news, categories, alpha);
      if user.Keys == current.Keys <= categories && Total(user) > 0.0 && Total(current) > 0.0 {
        FullMixSums(dist, user, current, news, categories, alpha);
      }
    }

    method ListOf(m: map<int, real>) returns (s: seq<Trend>)
      ensures Lists(s, m)
    {
      s := [];
      var rest := m.Keys;
      while rest != {}
        invariant rest <= m.Keys && |s| + |rest| == |m| && DistinctIds(s)
        invariant forall i :: 0 <= i < |s| ==> s[i].id in m && s[i].id !in rest && s[i].weight == m[s[i].id]
        decreases |rest|
      {
        ghost var member := Member(rest);
        var c :| c in rest;
        s := s + [Trend(c, m[c])];
        rest := rest - {c};
      }
    }

    /** Category 13 gets the least power, category 10 is damped; the result is normalised and sorted. */
    method PredictUserInterests(dist: seq<Trend>) returns (result: Result<seq<Trend>>, ghost least: real)
      ensures result.Corruption? <==> dist == []
      ensures result.Ok? ==> IsLeast(dist, least) && Descending(result.value)
      ensures result.Ok? ==> multiset(result.value) == multiset(Reweighted(dist, least))
      ensures result.Ok? ==> exists total :: Reflects(dist, least, total, result.value)
      ensures result.Ok? && PositivePowers(dist) ==> PowerSum(result.value) == 1.0
    {
      hide Reflects;
      least := 0.0;
      if |dist| <= 0 { return Corruption, least; }
      var mix := dist;
      var minPower := dist[0].weight;
      for i := 0 to |mix|
        invariant |mix| == |dist|
        invariant forall j :: 0 <= j < i ==> minPower <= dist[j].weight
        invariant exists j :: 0 <= j < |dist| && dist[j].weight == minPower
        invariant forall j :: 0 <= j < |mix| ==> mix[j] == if j < i then Damp(dist[j]) else dist[j]
      {
        if mix[i].weight < minPower {
          minPower := mix[i].weight;
        }
        if mix[i].id == DAMPED {
          mix := mix[i := Trend(mix[i].id, mix[i].weight * 0.6)];
        }
      }
      least := minPower;

      ghost var adjusted := AdjustAll(dist, least);
      var total := 0.0;
      for i := 0 to |mix|
        invariant total == PowerSum(adjusted[..i])
      {
        assert adjusted[..i + 1][..i] == adjusted[..i];
        if mix[i].id == OVERRIDDEN {
          total := total + minPower;
        } else {
          total := total + mix[i].weight;
        }
      }
      assert adjusted[..|adjusted|] == adjusted;
      if total <= 0.0 { total := 1.0; }

      var trends: seq<Trend> := [];
      for i := 0 to |mix|
        invariant |trends| == i
        invariant forall j :: 0 <= j < i ==> trends[j] == Over(adjusted[j], total)
      {
        if mix[i].id == OVERRIDDEN {
          trends := trends + [Over(Trend(mix[i].id, minPower), total)];
        } else {
          trends := trends + [Over(mix[i], total)];
        }
      }
      assert trends == Reweighted(dist, least);
      trends := SortTrends(trends);
      ghost var sum := ReweightedReflects(dist, least, trends);
      if PositivePowers(dist) {
        PredictionSums(dist, least, trends);
      }
      result := Ok(trends);
    }

    /**
     * With positive powers and more than n (at most 100) categories the marshaler's demands are met: the call succeeds
     * and returns exactly as many categories as asked for, or as the head has, which comes first; it never repeats one
     * within n places.
     */
    method MarshalUserInterests(user: map<int, real>, current: map<int, real>, news: map<int, real>, requestNum: nat)
      returns (result: Result<seq<int>>)
      requires PositiveMap(user) && PositiveMap(current) && PositiveMap(news) && 0.0 <= alpha <= 1.0
      requires var mixed := MixMap(user, current, news, categories, alpha);
               mixed != map[] ==> 0 < marshaler.n < |mixed| <= 100 && marshaler.r1 < 1.0 && marshaler.topt <= |mixed|
      ensures var mixed := MixMap(user, current, news, categories, alpha);
              && (result.Corruption? <==> mixed == map[])
              && (result.Ok? ==>
                   && |result.value| == Max(requestNum, HeadOf(mixed, marshaler.r1, marshaler.topt))
                   && DealtFrom(marshaler, mixed, HeadOf(mixed, marshaler.r1, marshaler.topt), result.value)
                   && (forall i :: 0 <= i < |result.value| ==> result.value[i] in mixed)
                   && (forall i, j :: 0 <= i < j < |result.value| && j - i <= marshaler.n ==>
                         result.value[i] != result.value[j]))
    {
      hide MixMap, Reweighted, Reach, Run, Normalised, Spaced, Descending, IsLeast, DistinctIds, Lists, Positive,
        PositivePowers, Draws, Mixes, Reflects, Total, PowerSum, DealtPicks;
      MixIsPositive(user, current, news, categories, alpha);
      var dist := PredictMix(user, current, news);
      ghost var mixed := MixMap(user, current, news, categories, alpha);
      ListIsEmpty(dist, mixed);
      var predicted, least := PredictUserInterests(dist);
      if predicted.Corruption? {
        return Corruption;
      }
      ListIsPositive(dist, mixed);
      MeetsMarshal(dist, least, predicted.value);
      var trends := predicted.value;
      PredictsMix(mixed, dist, least, trends);
      HeadIsReach(mixed, trends, marshaler.r1, marshaler.topt);
      var ids, picks, draws := DealCategories(trends, requestNum);
      DealtIds(dist, mixed, least, trends, picks, marshaler.n);
      assert DealtBy(marshaler, mixed, HeadOf(mixed, marshaler.r1, marshaler.topt), ids, trends,
                     Reach(trends, marshaler.r2, marshaler.p), picks, draws);
      result := Ok(ids);
    }

    method DealCategories(trends: seq<Trend>, requestNum: nat)
      returns (ids: seq<int>, ghost picks: seq<nat>, ghost draws: seq<nat>)
      requires WeightedDraw.Normalised(trends) && |trends| == |Positive(trends)|
      requires 0 < marshaler.n < |trends| <= 100 && marshaler.r1 < 1.0 && marshaler.topt <= |trends|
      ensures |ids| == |picks| == Max(requestNum, Reach(trends, marshaler.r1, marshaler.topt))
      ensures forall i :: 0 <= i < |picks| ==> picks[i] < |trends| && ids[i] == trends[picks[i]].id
      ensures Spaced(picks, marshaler.n)
      ensures DealtPicks(marshaler, trends, Reach(trends, marshaler.r1, marshaler.topt),
                         Reach(trends, marshaler.r2, marshaler.p), picks, draws)
    {
      hide WeightedDraw.Normalised, Positive, Reach, Run, Spaced;
      var interests;
      interests, picks, draws := marshaler.Marshal(trends, requestNum, []);
      assert interests == Chosen(trends, picks);
      DealtHead(marshaler, trends, Reach(trends, marshaler.r1, marshaler.topt), interests, picks, draws);
      ids := seq(|interests|, i requires 0 <= i < |interests| => interests[i].id);
    }
  }

  /** The mix by the cases in which the code forms it. */
  lemma MixIs(user: map<int, real>, current: map<int, real>, news: map<int, real>, categories: set<int>, alpha: real)
    ensures MixMap(user, current, news, categories, alpha)
         == if user != map[] && current != map[] then
              map c | c in categories && c in user && c in current ::
                Blend(alpha, user[c], OneIfNone(Total(user)), current[c], OneIfNone(Total(current)))
            else if current != map[] then map c | c in categories && c in current :: current[c]
            else if user != map[] then map c | c in categories && c in user :: user[c]
            else news
  {
    hide Total, Blend;
  }

  lemma FullMixSums(dist: seq<Trend>, user: map<int, real>, current: map<int, real>, news: map<int, real>,
                    categories: set<int>, alpha: real)
    requires Mixes(dist, user, current, news, categories, alpha)
    requires user.Keys == current.Keys <= categories && Total(user) > 0.0 && Total(current) > 0.0
    ensures PowerSum(dist) == 1.0
  {
    hide Names, Between, ShareIn;
    EmptyTotal(user);
    EmptyTotal(current);
    assert categories * user.Keys * current.Keys == user.Keys;
    MixSumsToOne(dist, user, current, alpha);
  }

  lemma EmptyTotal(m: map<int, real>)
    ensures m == map[] ==> Total(m) == 0.0
  {
  }

  lemma PredictionSums(dist: seq<Trend>, least: real, trends: seq<Trend>)
    requires dist != [] && PositivePowers(dist) && IsLeast(dist, least)
    requires multiset(trends) == multiset(Reweighted(dist, least))
    ensures PowerSum(trends) == 1.0
  {
    hide SeqSum, Reweighted;
    AdjustKeepsPositive(dist, least);
    PositiveSum(AdjustAll(dist, least));
    SumsToOne(dist, least);
    SeqSumPermuted(trends, Reweighted(dist, least), Weight());
  }

  lemma ListIsEmpty(dist: seq<Trend>, mixed: map<int, real>)
    requires Lists(dist, mixed)
    ensures |dist| == |mixed| && (dist == [] <==> mixed == map[])
  {
  }

  lemma ListIsPositive(dist: seq<Trend>, mixed: map<int, real>)
    requires Lists(dist, mixed) && PositiveMap(mixed)
    ensures PositivePowers(dist) && DistinctIds(dist)
  {
  }

  lemma PredictsMix(mixed: map<int, real>, dist: seq<Trend>, least: real, trends: seq<Trend>)
    requires PredictsFrom(mixed, dist, least, trends)
    ensures Predicts(mixed, trends)
  {
  }

  /** The lottery only adds picks after the head. */
  lemma DealtHead(m: Marshaler, trends: seq<Trend>, head: nat, results: seq<Trend>, picks: seq<nat>, draws: seq<nat>)
    requires WeightedDraw.Normalised(trends) && m.n > 0
    requires Dealt(Rules(trends, Reach(trends, m.r2, m.p), m.n), Count(head), [], results, picks, draws)
    ensures Count(head) <= picks
  {
    RunKeepsSpacing(Rules(trends, Reach(trends, m.r2, m.p), m.n), Lottery(Count(head), {}, 0), draws);
  }

  /** Distinct picks are distinct categories, and every pick is a category of the mix. */
  lemma DealtIds(dist: seq<Trend>, mixed: map<int, real>, least: real, trends: seq<Trend>, picks: seq<nat>, n: nat)
    requires Lists(dist, mixed) && multiset(trends) == multiset(Reweighted(dist, least)) && DistinctIds(trends)
    requires Spaced(picks, n) && forall i :: 0 <= i < |picks| ==> picks[i] < |trends|
    ensures forall i :: 0 <= i < |picks| ==> trends[picks[i]].id in mixed
    ensures forall i, j :: 0 <= i < j < |picks| && j - i <= n ==> trends[picks[i]].id != trends[picks[j]].id
  {
    var w := Reweighted(dist, least);
    forall k | 0 <= k < |trends| ensures trends[k].id in mixed {
      assert trends[k] in multiset(w);
      var l :| 0 <= l < |w| && w[l] == trends[k];
      assert w[l].id == dist[l].id;
    }
    forall i, j | 0 <= i < j < |picks| && j - i <= n ensures trends[picks[i]].id != trends[picks[j]].id {
      assert picks[i] != picks[j];
    }
  }

  function Damp(t: Trend): Trend {
    if t.id == DAMPED then Trend(t.id, t.weight * 0.6) else t
  }
}
