// What the prediction of src/core/content_based.cpp means for a user: how the powers of the two distributions enter the
// mix, and how the powers of the mix enter the predicted list.

module PredictionLaws {
  import opened Reals
  import opened Sums
  import opened WeightedDraw
  import opened Predictions

  // ----- Mixing -----

  /** The list holds these categories, each once. */
  ghost predicate Names(s: seq<Trend>, ids: set<int>) {
    && DistinctIds(s)
    && (forall i :: 0 <= i < |s| ==> s[i].id in ids)
    && (forall c :: c in ids ==> exists i :: 0 <= i < |s| && s[i].id == c)
  }

  lemma ListNames(s: seq<Trend>, m: map<int, real>, ids: set<int>)
    requires Lists(s, m) && m.Keys == ids
    ensures Names(s, ids)
  {
    ListsAll(s, m);
    forall c | c in ids ensures exists i :: 0 <= i < |s| && s[i].id == c {
      assert c in m;
    }
  }

  /** A category's share of all there is; of nothing positive, its own power. */
  ghost function ShareIn(m: map<int, real>, c: int): real {
    At(m, c) / OneIfNone(Total(m))
  }

  /**
   * The mixed power w lies between the shares of the two distributions: at the current share for alpha 0, at the
   * long-term share for alpha 1, and in proportion to alpha in between.
   */
  ghost predicate Between(alpha: real, longTerm: real, current: real, w: real) {
    && w - current == alpha * (longTerm - current)
    && (alpha == 0.0 ==> w == current) && (alpha == 1.0 ==> w == longTerm)
  }

  lemma BlendBetween(alpha: real, x: real, tx: real, y: real, ty: real)
    requires tx > 0.0 && ty > 0.0
    ensures Between(alpha, x / tx, y / ty, Blend(alpha, x, tx, y, ty))
  {
    var a, b := x / tx, y / ty;
    Scaled(0.0, x, tx);
    Scaled(0.0, y, ty);
    TimesQuotient(alpha, a, x, tx);
    TimesQuotient(1.0 - alpha, b, y, ty);
    assert (1.0 - alpha) * b == b - alpha * b;
  }

  lemma TimesQuotient(c: real, a: real, x: real, t: real)
    requires t > 0.0 && a * t == x
    ensures c * x / t == c * a
  {
    assert t * (c * a) == c * x;
    QuotientIs(c * a, c * x, t);
  }

  /** The sum along a list of a map is the sum over the map. */
  lemma {:induction false} ListSum(s: seq<Trend>, m: map<int, real>)
    requires Lists(s, m)
    ensures PowerSum(s) == Total(m)
  {
    ListsAll(s, m);
    SumAlong(s, m.Keys, Entries(m));
  }

  lemma {:induction false} SumAlong(s: seq<Trend>, ids: set<int>, f: int -> real)
    requires Names(s, ids) && forall i :: 0 <= i < |s| ==> s[i].weight == f(s[i].id)
    ensures PowerSum(s) == Sum(ids, f)
    decreases |s|
  {
    if s == [] {
      forall c ensures c !in ids {}
      assert ids == {};
    } else {
      var n := |s| - 1;
      SumPick(ids, f, s[n].id);
      forall c | c in ids - {s[n].id} ensures exists i :: 0 <= i < n && s[..n][i].id == c {
        var i :| 0 <= i < |s| && s[i].id == c;
        assert s[..n][i].id == c;
      }
      SumAlong(s[..n], ids - {s[n].id}, f);
    }
  }

  ghost function Shares(m: map<int, real>): int -> real {
    c => ShareIn(m, c)
  }

  lemma SharesSum(m: map<int, real>)
    requires Total(m) > 0.0
    ensures Sum(m.Keys, Shares(m)) == 1.0
  {
    hide Sum;
    var t := Total(m);
    forall c | c in m.Keys ensures Times(t, Shares(m))(c) == Entries(m)(c) {
      Scaled(0.0, At(m, c), t);
    }
    SumSame(m.Keys, Times(t, Shares(m)), Entries(m));
    SumTimes(m.Keys, t, Shares(m));
    CancelOne(Sum(m.Keys, Shares(m)), t, Sum(m.Keys, Times(t, Shares(m))));
  }

  /** Over the same categories the shares of two distributions mix to shares again. */
  lemma MixSumsToOne(dist: seq<Trend>, user: map<int, real>, current: map<int, real>, alpha: real)
    requires Names(dist, user.Keys) && user.Keys == current.Keys && Total(user) > 0.0 && Total(current) > 0.0
    requires forall i :: 0 <= i < |dist| ==>
               Between(alpha, ShareIn(user, dist[i].id), ShareIn(current, dist[i].id), dist[i].weight)
    ensures PowerSum(dist) == 1.0
  {
    hide PowerSum, Total, Names, ShareIn, Sum;
    var ks := user.Keys;
    var f, g := Times(alpha, Shares(user)), Times(1.0 - alpha, Shares(current));
    var h: int -> real := c => alpha * ShareIn(user, c) + (1.0 - alpha) * ShareIn(current, c);
    forall i | 0 <= i < |dist| ensures dist[i].weight == h(dist[i].id) {
      Weigh(alpha, ShareIn(user, dist[i].id), ShareIn(current, dist[i].id), dist[i].weight);
    }
    SumAlong(dist, ks, h);
    SumAdd(ks, f, g, h);
    SumTimes(ks, alpha, Shares(user));
    SumTimes(ks, 1.0 - alpha, Shares(current));
    SharesSum(user);
    SharesSum(current);
  }

  lemma Weigh(alpha: real, x: real, y: real, w: real)
    requires Between(alpha, x, y, w)
    ensures w == alpha * x + (1.0 - alpha) * y
  {
    assert alpha * (x - y) == alpha * x - alpha * y;
    assert (1.0 - alpha) * y == y - alpha * y;
  }

  /** What the mix holds, case by case. */
  ghost predicate Mixes(dist: seq<Trend>, user: map<int, real>, current: map<int, real>, news: map<int, real>,
                        categories: set<int>, alpha: real)
  {
    && (user != map[] && current != map[] ==>
         && Names(dist, categories * user.Keys * current.Keys)
         && (forall i :: 0 <= i < |dist| ==>
               Between(alpha, ShareIn(user, dist[i].id), ShareIn(current, dist[i].id), dist[i].weight)))
    && (user == map[] && current != map[] ==>
         && Names(dist, categories * current.Keys)
         && (forall i :: 0 <= i < |dist| ==> dist[i].weight == At(current, dist[i].id)))
    && (user != map[] && current == map[] ==>
         && Names(dist, categories * user.Keys)
         && (forall i :: 0 <= i < |dist| ==> dist[i].weight == At(user, dist[i].id)))
    && (user == map[] && current == map[] ==>
         && Names(dist, news.Keys)
         && (forall i :: 0 <= i < |dist| ==> dist[i].weight == At(news, dist[i].id)))
  }

  lemma ListMixes(dist: seq<Trend>, user: map<int, real>, current: map<int, real>, news: map<int, real>,
                  categories: set<int>, alpha: real)
    requires Lists(dist, MixMap(user, current, news, categories, alpha))
    ensures Mixes(dist, user, current, news, categories, alpha)
  {
    hide Names, Between, Blend, Total;
    var m := MixMap(user, current, news, categories, alpha);
    var ids := if user != map[] && current != map[] then categories * user.Keys * current.Keys
               else if current != map[] then categories * current.Keys
               else if user != map[] then categories * user.Keys else news.Keys;
    assert m.Keys == ids;
    ListNames(dist, m, ids);
    if user != map[] && current != map[] {
      forall i | 0 <= i < |dist|
        ensures Between(alpha, ShareIn(user, dist[i].id), ShareIn(current, dist[i].id), dist[i].weight)
      {
        var c := dist[i].id;
        BlendBetween(alpha, user[c], OneIfNone(Total(user)), current[c], OneIfNone(Total(current)));
      }
    }
  }

  // ----- Reweighting -----

  /**
   * The entry w of the predicted list for the entry t of the mix: up to the common total, category 13 has the least
   * power of the mix, category 10 0.6 of its own power, and every other category its own power.
   */
  ghost predicate EntersAs(t: Trend, least: real, total: real, w: Trend) {
    w.id == t.id && w.weight * total == if t.id == 13 then least else if t.id == 10 then 0.6 * t.weight else t.weight
  }

  ghost predicate HasEntryFor(t: Trend, least: real, total: real, trends: seq<Trend>) {
    exists k :: 0 <= k < |trends| && EntersAs(t, least, total, trends[k])
  }

  ghost predicate IsEntryOf(dist: seq<Trend>, least: real, total: real, w: Trend) {
    exists i :: 0 <= i < |dist| && EntersAs(dist[i], least, total, w)
  }

  /** The predicted list holds an entry for every entry of the mix and no others. */
  ghost predicate Reflects(dist: seq<Trend>, least: real, total: real, trends: seq<Trend>) {
    && total > 0.0 && |trends| == |dist|
    && (forall i :: 0 <= i < |dist| ==> HasEntryFor(dist[i], least, total, trends))
    && (forall k :: 0 <= k < |trends| ==> IsEntryOf(dist, least, total, trends[k]))
  }

  lemma OverEnters(t: Trend, least: real, total: real)
    requires total > 0.0
    ensures EntersAs(t, least, total, Over(Adjusted(t, least), total))
  {
    Scaled(0.0, Adjusted(t, least).weight, total);
  }

  lemma ReweightedReflects(dist: seq<Trend>, least: real, trends: seq<Trend>) returns (total: real)
    requires multiset(trends) == multiset(Reweighted(dist, least))
    ensures Reflects(dist, least, total, trends)
  {
    hide EntersAs, Adjusted, Over, PowerSum;
    var w := Reweighted(dist, least);
    total := OneIfNone(PowerSum(AdjustAll(dist, least)));
    assert |multiset(trends)| == |multiset(w)|;
    forall i | 0 <= i < |dist| ensures EntersAs(dist[i], least, total, w[i]) {
      OverEnters(dist[i], least, total);
    }
    forall i | 0 <= i < |dist| ensures HasEntryFor(dist[i], least, total, trends) {
      assert w[i] in multiset(trends);
      var k :| 0 <= k < |trends| && trends[k] == w[i];
    }
    forall k | 0 <= k < |trends| ensures IsEntryOf(dist, least, total, trends[k]) {
      assert trends[k] in multiset(w);
      var i :| 0 <= i < |w| && w[i] == trends[k];
    }
  }

  /**
   * Weights of the prediction are in the ratio of the powers: two categories other than 10 and 13 as their own powers,
   * category 10 with 0.6 of its power, category 13 with the least power.
   */
  lemma WeightsInRatio(dist: seq<Trend>, least: real, total: real, trends: seq<Trend>, i: nat, j: nat, k: nat, l: nat)
    requires Reflects(dist, least, total, trends) && DistinctIds(dist)
    requires i < |dist| && j < |dist| && k < |trends| && l < |trends|
    requires dist[i].id == trends[k].id && dist[j].id == trends[l].id && dist[j].id != 10 && dist[j].id != 13
    ensures dist[i].id != 10 && dist[i].id != 13 ==>
              trends[k].weight * dist[j].weight == trends[l].weight * dist[i].weight
    ensures dist[i].id == 10 ==> trends[k].weight * dist[j].weight == trends[l].weight * (0.6 * dist[i].weight)
    ensures dist[i].id == 13 ==> trends[k].weight * dist[j].weight == trends[l].weight * least
  {
    hide EntersAs, Reflects, DistinctIds;
    Enters(dist, least, total, trends, i, k);
    Enters(dist, least, total, trends, j, l);
    Cross(dist[i], dist[j], least, total, trends[k], trends[l]);
  }

  lemma Enters(dist: seq<Trend>, least: real, total: real, trends: seq<Trend>, i: nat, k: nat)
    requires Reflects(dist, least, total, trends) && DistinctIds(dist)
    requires i < |dist| && k < |trends| && dist[i].id == trends[k].id
    ensures EntersAs(dist[i], least, total, trends[k])
  {
    assert IsEntryOf(dist, least, total, trends[k]);
    var i' :| 0 <= i' < |dist| && EntersAs(dist[i'], least, total, trends[k]);
    assert i' == i;
  }

  lemma Cross(t: Trend, u: Trend, least: real, total: real, v: Trend, w: Trend)
    requires EntersAs(t, least, total, v) && EntersAs(u, least, total, w) && u.id != 10 && u.id != 13
    ensures t.id != 10 && t.id != 13 ==> v.weight * u.weight == w.weight * t.weight
    ensures t.id == 10 ==> v.weight * u.weight == w.weight * (0.6 * t.weight)
    ensures t.id == 13 ==> v.weight * u.weight == w.weight * least
  {
    assert v.weight * (w.weight * total) == w.weight * (v.weight * total);
  }

  /** The same of every prediction of a mix: what becomes of each of its categories. */
  lemma PredictionReflects(mixed: map<int, real>, trends: seq<Trend>) returns (least: real, total: real)
    requires Predicts(mixed, trends)
    ensures total > 0.0 && |trends| == |mixed|
    ensures (forall c :: c in mixed ==> least <= mixed[c]) && (exists c :: c in mixed && mixed[c] == least)
    ensures forall c :: c in mixed ==> HasEntryFor(Trend(c, mixed[c]), least, total, trends)
  {
    hide HasEntryFor, IsEntryOf, Reweighted;
    var dist: seq<Trend>;
    dist, least :| PredictsFrom(mixed, dist, least, trends);
    total := ReweightedReflects(dist, least, trends);
    ListsAll(dist, mixed);
    forall c | c in mixed ensures least <= mixed[c] && HasEntryFor(Trend(c, mixed[c]), least, total, trends) {
      var i :| 0 <= i < |dist| && dist[i] == Trend(c, mixed[c]);
    }
    var i :| 0 <= i < |dist| && dist[i].weight == least;
    assert mixed[dist[i].id] == least;
  }
}
