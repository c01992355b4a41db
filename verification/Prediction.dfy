// What src/core/content_based.cpp predicts for a user: the mixed distributions with category 13 overridden and category
// 10 damped, normalised and sorted.

module Predictions {
  import opened Reals
  import opened Sums
  import opened WeightedDraw
  import opened Marshaling

  const OVERRIDDEN := 13
  const DAMPED := 10

  // ----- Sums over lists -----

  ghost function Weight(): Trend -> real {
    (t: Trend) => t.weight
  }

  ghost function PowerSum(s: seq<Trend>): real {
    SeqSum(s, Weight())
  }

  lemma {:induction false} OpenMassIsSum(s: seq<Trend>, m: nat)
    requires m <= |s|
    ensures OpenMass(s, {}, m) == PowerSum(s[..m])
  {
    if m > 0 {
      OpenMassIsSum(s, m - 1);
      assert s[..m][..m - 1] == s[..m - 1];
    }
  }

  // ----- std::sort with trends_sorter -----

  ghost predicate Descending(s: seq<Trend>) {
    forall i, j :: 0 <= i < j < |s| ==> s[i].weight >= s[j].weight
  }

  function Insert(s: seq<Trend>, t: Trend): seq<Trend> {
    if s == [] || s[|s| - 1].weight >= t.weight then s + [t] else Insert(s[..|s| - 1], t) + [s[|s| - 1]]
  }

  function Sorted(s: seq<Trend>): seq<Trend> {
    if s == [] then [] else Insert(Sorted(s[..|s| - 1]), s[|s| - 1])
  }

  lemma {:induction false} InsertKeepsItems(s: seq<Trend>, t: Trend)
    ensures multiset(Insert(s, t)) == multiset(s) + multiset{t}
  {
    if s != [] && s[|s| - 1].weight < t.weight {
      InsertKeepsItems(s[..|s| - 1], t);
      assert s == s[..|s| - 1] + [s[|s| - 1]];
    }
  }

  lemma {:induction false} InsertKeepsOrder(s: seq<Trend>, t: Trend)
    requires Descending(s)
    ensures Descending(Insert(s, t))
  {
    if s != [] && s[|s| - 1].weight < t.weight {
      var n := |s| - 1;
      var r := Insert(s[..n], t);
      InsertKeepsOrder(s[..n], t);
      InsertKeepsItems(s[..n], t);
      assert Insert(s, t) == r + [s[n]];
      forall i | 0 <= i < |r| ensures r[i].weight >= s[n].weight {
        assert r[i] in multiset(r);
        assert r[i] == t || r[i] in s[..n];
      }
    }
  }

  lemma {:induction false} SortedIs(s: seq<Trend>)
    ensures Descending(Sorted(s)) && multiset(Sorted(s)) == multiset(s)
  {
    if s != [] {
      var init, last := s[..|s| - 1], s[|s| - 1];
      SortedIs(init);
      InsertKeepsOrder(Sorted(init), last);
      SortedItems(s, init, last);
    }
  }

  lemma SortedItems(s: seq<Trend>, init: seq<Trend>, last: Trend)
    requires s == init + [last] && multiset(Sorted(init)) == multiset(init)
    ensures multiset(Insert(Sorted(init), last)) == multiset(s)
  {
    InsertKeepsItems(Sorted(init), last);
  }

  // ----- Reweighting -----

  ghost predicate IsLeast(mix: seq<Trend>, least: real) {
    && (forall i :: 0 <= i < |mix| ==> least <= mix[i].weight)
    && (exists i :: 0 <= i < |mix| && mix[i].weight == least)
  }

  /** The power a category enters with: the least power for category 13, 0.6 of its own for category 10. */
  function Adjusted(t: Trend, least: real): Trend {
    Trend(t.id, if t.id == OVERRIDDEN then least else if t.id == DAMPED then t.weight * 0.6 else t.weight)
  }

  function AdjustAll(mix: seq<Trend>, least: real): seq<Trend> {
    seq(|mix|, i requires 0 <= i < |mix| => Adjusted(mix[i], least))
  }

  function Over(t: Trend, total: real): Trend
    requires total > 0.0
  {
    Trend(t.id, t.weight / total)
  }

  function OverAll(s: seq<Trend>, total: real): seq<Trend>
    requires total > 0.0
  {
    seq(|s|, i requires 0 <= i < |s| => Over(s[i], total))
  }

  /** The normalised list before it is sorted. */
  ghost function Reweighted(mix: seq<Trend>, least: real): seq<Trend> {
    OverAll(AdjustAll(mix, least), OneIfNone(PowerSum(AdjustAll(mix, least))))
  }

  ghost predicate PositivePowers(mix: seq<Trend>) {
    forall i :: 0 <= i < |mix| ==> mix[i].weight > 0.0
  }

  ghost predicate DistinctIds(s: seq<Trend>) {
    forall i, j :: 0 <= i < j < |s| ==> s[i].id != s[j].id
  }

  lemma SumOver(s: seq<Trend>, total: real)
    requires total > 0.0
    ensures PowerSum(OverAll(s, total)) == PowerSum(s) / total
  {
    forall i | 0 <= i < |s| ensures total * Weight()(OverAll(s, total)[i]) == Weight()(s[i]) {
      Scaled(0.0, s[i].weight, total);
    }
    SeqSumScaled(s, OverAll(s, total), Weight(), total);
    QuotientIs(PowerSum(OverAll(s, total)), PowerSum(s), total);
  }

  lemma {:induction false} PositiveSum(s: seq<Trend>)
    requires PositivePowers(s) && s != []
    ensures PowerSum(s) > 0.0
  {
    assert PowerSum(s) == PowerSum(s[..|s| - 1]) + s[|s| - 1].weight;
    if |s| > 1 {
      PositiveSum(s[..|s| - 1]);
    } else {
      assert s[..0] == [] && PowerSum([]) == 0.0;
    }
  }

  /** The weights sum to one exactly when the adjusted powers have a positive sum. */
  lemma SumsToOne(mix: seq<Trend>, least: real)
    ensures PowerSum(Reweighted(mix, least)) == 1.0 <==> PowerSum(AdjustAll(mix, least)) > 0.0
  {
    var s := AdjustAll(mix, least);
    SumOver(s, OneIfNone(PowerSum(s)));
    Scaled(1.0, PowerSum(s), OneIfNone(PowerSum(s)));
  }

  lemma AdjustKeepsPositive(mix: seq<Trend>, least: real)
    requires PositivePowers(mix) && IsLeast(mix, least)
    ensures PositivePowers(AdjustAll(mix, least))
  {
  }

  /**
   * Category 13 ends up no heavier than any category other than 10; against category 10 exactly when the least power
   * is at most 0.6 of category 10's own.
   */
  lemma OverriddenIsLight(mix: seq<Trend>, least: real, i: nat, j: nat)
    requires IsLeast(mix, least) && i < |mix| && j < |mix| && mix[i].id == OVERRIDDEN
    ensures var w := Reweighted(mix, least);
            && (mix[j].id != DAMPED ==> w[i].weight <= w[j].weight)
            && (mix[j].id == DAMPED ==> (w[i].weight <= w[j].weight <==> least <= 0.6 * mix[j].weight))
  {
  }

  /** So category 13 can outweigh category 10: both at the same power is enough. */
  lemma OverriddenMayExceedDamped()
    ensures var mix := [Trend(OVERRIDDEN, 1.0), Trend(DAMPED, 1.0)];
            IsLeast(mix, 1.0) && Reweighted(mix, 1.0)[0].weight > Reweighted(mix, 1.0)[1].weight
  {
    var mix := [Trend(OVERRIDDEN, 1.0), Trend(DAMPED, 1.0)];
    assert mix[0].weight == 1.0;
    OverriddenIsLight(mix, 1.0, 0, 1);
  }

  lemma ReweightedIs(mix: seq<Trend>, least: real)
    requires mix != [] && PositivePowers(mix) && IsLeast(mix, least) && DistinctIds(mix)
    ensures PowerSum(Reweighted(mix, least)) == 1.0 && |Reweighted(mix, least)| == |mix|
    ensures PositivePowers(Reweighted(mix, least)) && DistinctIds(Reweighted(mix, least))
  {
    hide PowerSum;
    var s := AdjustAll(mix, least);
    AdjustKeepsPositive(mix, least);
    PositiveSum(s);
    SumsToOne(mix, least);
    forall i | 0 <= i < |s| ensures Over(s[i], PowerSum(s)).weight > 0.0 {
      Scaled(0.0, s[i].weight, PowerSum(s));
    }
  }

  /** A sorted permutation of the reweighted list meets every demand of the marshaler. */
  lemma MeetsMarshal(mix: seq<Trend>, least: real, trends: seq<Trend>)
    requires mix != [] && PositivePowers(mix) && IsLeast(mix, least) && DistinctIds(mix)
    requires multiset(trends) == multiset(Reweighted(mix, least))
    ensures WeightedDraw.Normalised(trends) && PositivePowers(trends) && DistinctIds(trends)
    ensures |trends| == |mix| == |Positive(trends)|
  {
    hide Reweighted, SeqSum, DistinctIds, Positive, IsLeast;
    var w := Reweighted(mix, least);
    ReweightedIs(mix, least);
    SeqSumPermuted(trends, w, Weight());
    OpenMassIsSum(trends, |trends|);
    assert trends[..|trends|] == trends;
    assert |multiset(trends)| == |multiset(w)|;
    forall i | 0 <= i < |trends| ensures trends[i].weight > 0.0 {
      assert trends[i] in multiset(w);
    }
    DistinctPermuted(w, trends);
    AllPositive(trends, |trends|);
  }

  lemma DistinctPermuted(a: seq<Trend>, b: seq<Trend>)
    requires DistinctIds(a) && multiset(a) == multiset(b)
    ensures DistinctIds(b)
  {
    forall i, j | 0 <= i < j < |b| ensures b[i].id != b[j].id {
      assert b[i] in multiset(a) && b[j] in multiset(a);
      var k :| 0 <= k < |a| && a[k] == b[i];
      var l :| 0 <= l < |a| && a[l] == b[j];
      OccursOnce(a, k);
      OccursTwice(b, i, j);
    }
  }

  lemma OccursOnce(a: seq<Trend>, k: nat)
    requires DistinctIds(a) && k < |a|
    ensures multiset(a)[a[k]] == 1
  {
    assert a == a[..k] + [a[k]] + a[k + 1..];
    assert a[k] !in a[..k] && a[k] !in a[k + 1..];
  }

  lemma OccursTwice(b: seq<Trend>, i: nat, j: nat)
    requires i < j < |b|
    ensures b[i] == b[j] ==> multiset(b)[b[i]] >= 2
  {
    assert b == b[..i] + [b[i]] + b[i + 1..j] + [b[j]] + b[j + 1..];
  }

  lemma {:induction false} AllPositive(trends: seq<Trend>, m: nat)
    requires PositivePowers(trends) && m == |trends|
    ensures |Positive(trends)| == m
  {
    if m == 0 {
      assert Positive(trends) == {};
    } else {
      AllPositive(trends[..m - 1], m - 1);
      assert Positive(trends) == Positive(trends[..m - 1]) + {m - 1};
    }
  }

  // ----- Mixing the distributions -----

  /** Long-term and current interests when both exist, else the one that does, else the news trends. */
  ghost function MixMap(user: map<int, real>, current: map<int, real>, news: map<int, real>, categories: set<int>,
                        alpha: real): map<int, real> {
    if user != map[] && current != map[] then
      map c | c in categories && c in user && c in current ::
        Blend(alpha, user[c], OneIfNone(Total(user)), current[c], OneIfNone(Total(current)))
    else if current != map[] then map c | c in categories && c in current :: current[c]
    else if user != map[] then map c | c in categories && c in user :: user[c]
    else news
  }

  function Blend(alpha: real, x: real, tx: real, y: real, ty: real): real
    requires tx > 0.0 && ty > 0.0
  {
    alpha * x / tx + (1.0 - alpha) * y / ty
  }

  ghost predicate PositiveMap(m: map<int, real>) {
    forall c :: c in m ==> m[c] > 0.0
  }

  /** The list holds the entries of the map, each once. */
  ghost predicate Lists(s: seq<Trend>, m: map<int, real>) {
    && DistinctIds(s) && |s| == |m|
    && (forall i :: 0 <= i < |s| ==> s[i].id in m && s[i].weight == m[s[i].id])
  }

  lemma MixIsPositive(user: map<int, real>, current: map<int, real>, news: map<int, real>, categories: set<int>,
                      alpha: real)
    requires PositiveMap(user) && PositiveMap(current) && PositiveMap(news) && 0.0 <= alpha <= 1.0
    ensures PositiveMap(MixMap(user, current, news, categories, alpha))
  {
    var tu, tc := OneIfNone(Total(user)), OneIfNone(Total(current));
    forall c | c in user && c in current ensures Blend(alpha, user[c], tu, current[c], tc) > 0.0 {
      BlendPositive(alpha, user[c], tu, current[c], tc);
    }
  }

  lemma BlendPositive(alpha: real, x: real, tx: real, y: real, ty: real)
    requires 0.0 <= alpha <= 1.0 && x > 0.0 && y > 0.0 && tx > 0.0 && ty > 0.0
    ensures Blend(alpha, x, tx, y, ty) > 0.0
  {
    Stretch(0.0, alpha, x);
    Stretch(0.0, 1.0 - alpha, y);
    Scaled(0.0, alpha * x, tx);
    Scaled(0.0, (1.0 - alpha) * y, ty);
    if alpha > 0.0 {
      assert alpha * x > 0.0;
    } else {
      assert (1.0 - alpha) * y == y;
    }
  }

  // ----- The prediction is unique up to ties -----

  /** Any order of the mix, and any order among ties of the sort. */
  ghost predicate Predicts(mixed: map<int, real>, trends: seq<Trend>) {
    exists dist, least :: PredictsFrom(mixed, dist, least, trends)
  }

  ghost predicate PredictsFrom(mixed: map<int, real>, dist: seq<Trend>, least: real, trends: seq<Trend>) {
    && Lists(dist, mixed) && IsLeast(dist, least)
    && Descending(trends) && multiset(trends) == multiset(Reweighted(dist, least))
  }

  ghost predicate SameWeights(a: seq<Trend>, b: seq<Trend>) {
    |a| == |b| && forall i :: 0 <= i < |a| ==> a[i].weight == b[i].weight
  }

  function MapAll<T, U>(s: seq<T>, f: T -> U): seq<U> {
    seq(|s|, i requires 0 <= i < |s| => f(s[i]))
  }

  lemma {:induction false} MapPermuted<T, U>(a: seq<T>, b: seq<T>, f: T -> U)
    requires multiset(a) == multiset(b)
    ensures multiset(MapAll(a, f)) == multiset(MapAll(b, f))
    decreases |a|
  {
    if a == [] {
      assert |multiset(b)| == 0;
      assert b == [];
    } else {
      assert a[0] in multiset(b);
      var i :| 0 <= i < |b| && b[i] == a[0];
      MapWithout(a, 0, f);
      MapWithout(b, i, f);
      SmallerWithout(a, 0);
      MapPermuted(Without(a, 0), Without(b, i), f);
    }
  }

  lemma MapWithout<T, U>(s: seq<T>, i: nat, f: T -> U)
    requires i < |s|
    ensures multiset(Without(s, i)) == multiset(s) - multiset{s[i]}
    ensures multiset(MapAll(s, f)) == multiset(MapAll(Without(s, i), f)) + multiset{f(s[i])}
  {
    assert s == s[..i] + [s[i]] + s[i + 1..];
    assert MapAll(s, f) == MapAll(s[..i], f) + [f(s[i])] + MapAll(s[i + 1..], f);
    assert MapAll(Without(s, i), f) == MapAll(s[..i], f) + MapAll(s[i + 1..], f);
  }

  ghost predicate Falling(s: seq<real>) {
    forall i, j :: 0 <= i < j < |s| ==> s[i] >= s[j]
  }

  /** Two descending lists of the same numbers are the same list. */
  lemma {:induction false} FallingUnique(a: seq<real>, b: seq<real>)
    requires multiset(a) == multiset(b) && Falling(a) && Falling(b)
    ensures a == b
  {
    assert |multiset(a)| == |multiset(b)|;
    if a != [] {
      var n := |a| - 1;
      LastIsLeast(a, b);
      LastIsLeast(b, a);
      ButLast(a, b);
      assert Falling(a[..n]) && Falling(b[..n]);
      FallingUnique(a[..n], b[..n]);
      assert a == a[..n] + [a[n]] && b == b[..n] + [b[n]];
    }
  }

  lemma ButLast(a: seq<real>, b: seq<real>)
    requires a != [] && b != [] && multiset(a) == multiset(b) && a[|a| - 1] == b[|b| - 1]
    ensures multiset(a[..|a| - 1]) == multiset(b[..|b| - 1])
  {
    assert a == a[..|a| - 1] + [a[|a| - 1]] && b == b[..|b| - 1] + [b[|b| - 1]];
    assert multiset(a) == multiset(a[..|a| - 1]) + multiset{a[|a| - 1]};
    assert multiset(b) == multiset(b[..|b| - 1]) + multiset{a[|a| - 1]};
    assert multiset(a) - multiset{a[|a| - 1]} == multiset(a[..|a| - 1]);
  }

  lemma LastIsLeast(a: seq<real>, b: seq<real>)
    requires multiset(a) == multiset(b) && a != [] && b != [] && Falling(b)
    ensures a[|a| - 1] >= b[|b| - 1]
  {
    assert a[|a| - 1] in multiset(b);
    var i :| 0 <= i < |b| && b[i] == a[|a| - 1];
  }

  /** A list of a map holds every entry. */
  lemma ListsAll(s: seq<Trend>, m: map<int, real>)
    requires Lists(s, m)
    ensures forall c :: c in m ==> exists i :: 0 <= i < |s| && s[i] == Trend(c, m[c])
  {
    var ids := set i | 0 <= i < |s| :: s[i].id;
    IdsSize(s);
    assert ids <= m.Keys;
    SameSize(ids, m.Keys);
    forall c | c in m ensures exists i :: 0 <= i < |s| && s[i] == Trend(c, m[c]) {
      assert c in ids;
    }
  }

  lemma {:induction false} IdsSize(s: seq<Trend>)
    requires DistinctIds(s)
    ensures |set i | 0 <= i < |s| :: s[i].id| == |s|
  {
    if s != [] {
      var n := |s| - 1;
      IdsSize(s[..n]);
      var before := set i | 0 <= i < n :: s[..n][i].id;
      assert (set i | 0 <= i < |s| :: s[i].id) == before + {s[n].id};
    }
  }

  lemma SameSize(a: set<int>, b: set<int>)
    requires a <= b && |a| == |b|
    ensures a == b
  {
    assert b == a + (b - a);
  }

  lemma ListsPermuted(a: seq<Trend>, b: seq<Trend>, m: map<int, real>)
    requires Lists(a, m) && Lists(b, m)
    ensures multiset(a) == multiset(b)
  {
    ListsAll(a, m);
    ListsAll(b, m);
    forall t ensures multiset(a)[t] == multiset(b)[t] {
      ListCount(a, m, t);
      ListCount(b, m, t);
    }
  }

  lemma ListCount(a: seq<Trend>, m: map<int, real>, t: Trend)
    requires Lists(a, m) && forall c :: c in m ==> exists i :: 0 <= i < |a| && a[i] == Trend(c, m[c])
    ensures multiset(a)[t] == if t.id in m && m[t.id] == t.weight then 1 else 0
  {
    if t.id in m && m[t.id] == t.weight {
      var i :| 0 <= i < |a| && a[i] == Trend(t.id, m[t.id]);
      OccursOnce(a, i);
    } else {
      assert t !in a;
    }
  }

  /** Reweighting two orders of the same mix gives two orders of the same list. */
  lemma ReweightedPermuted(a: seq<Trend>, b: seq<Trend>, least: real, least': real)
    requires multiset(a) == multiset(b) && IsLeast(a, least) && IsLeast(b, least')
    ensures least == least' && multiset(Reweighted(a, least)) == multiset(Reweighted(b, least'))
  {
    LeastPermuted(a, b, least, least');
    LeastPermuted(b, a, least', least);
    var f := (t: Trend) => Adjusted(t, least);
    MapPermuted(a, b, f);
    assert MapAll(a, f) == AdjustAll(a, least) && MapAll(b, f) == AdjustAll(b, least);
    SeqSumPermuted(AdjustAll(a, least), AdjustAll(b, least), Weight());
    var total := OneIfNone(PowerSum(AdjustAll(a, least)));
    var g := (t: Trend) => Over(t, total);
    MapPermuted(AdjustAll(a, least), AdjustAll(b, least), g);
    assert MapAll(AdjustAll(a, least), g) == Reweighted(a, least);
    assert MapAll(AdjustAll(b, least), g) == Reweighted(b, least);
  }

  lemma LeastPermuted(a: seq<Trend>, b: seq<Trend>, least: real, least': real)
    requires multiset(a) == multiset(b) && IsLeast(a, least) && IsLeast(b, least')
    ensures least' <= least
  {
    var i :| 0 <= i < |a| && a[i].weight == least;
    assert a[i] in multiset(b);
  }

  /** Whatever the orders left open, every prediction of a mix has the same weights in the same places. */
  lemma PredictionsAgree(mixed: map<int, real>, a: seq<Trend>, b: seq<Trend>)
    requires Predicts(mixed, a) && Predicts(mixed, b)
    ensures SameWeights(a, b)
  {
    var dist, least :| PredictsFrom(mixed, dist, least, a);
    var dist', least' :| PredictsFrom(mixed, dist', least', b);
    ListsPermuted(dist, dist', mixed);
    ReweightedPermuted(dist, dist', least, least');
    MapPermuted(a, b, Weight());
    var v, w := MapAll(a, Weight()), MapAll(b, Weight());
    FallingUnique(v, w);
    assert |v| == |a| && |w| == |b|;
    forall i | 0 <= i < |a| ensures a[i].weight == b[i].weight {
      assert v[i] == w[i];
    }
  }

  lemma {:induction false} SameMass(a: seq<Trend>, b: seq<Trend>, m: nat)
    requires SameWeights(a, b) && m <= |a|
    ensures OpenMass(a, {}, m) == OpenMass(b, {}, m)
  {
    if m > 0 {
      SameMass(a, b, m - 1);
    }
  }

  lemma {:induction false} SameFirstOver(a: seq<Trend>, b: seq<Trend>, r: real, i: nat)
    requires SameWeights(a, b) && i <= |a|
    ensures FirstOver(a, r, i) == FirstOver(b, r, i)
    decreases |a| - i
  {
    if i < |a| {
      SameMass(a, b, i + 1);
      SameFirstOver(a, b, r, i + 1);
    }
  }

  ghost function SomePrediction(mixed: map<int, real>): (trends: seq<Trend>)
    requires mixed != map[]
    ensures Predicts(mixed, trends)
  {
    PredictionExists(mixed);
    var trends :| Predicts(mixed, trends);
    trends
  }

  /** The size of the head that the marshaler deals from a mix. */
  ghost function HeadOf(mixed: map<int, real>, r: real, option: nat): nat
    requires mixed != map[]
  {
    Reach(SomePrediction(mixed), r, option)
  }

  lemma HeadIsReach(mixed: map<int, real>, trends: seq<Trend>, r: real, option: nat)
    requires mixed != map[] && Predicts(mixed, trends)
    ensures HeadOf(mixed, r, option) == Reach(trends, r, option)
    ensures NonNegative(trends) ==> IsReach(trends, r, option, HeadOf(mixed, r, option))
  {
    if NonNegative(trends) {
      ReachIs(trends, r, option, Reach(trends, r, option));
    }
    PredictionsAgree(mixed, SomePrediction(mixed), trends);
    SameFirstOver(SomePrediction(mixed), trends, r, 0);
  }

  lemma PredictionExists(mixed: map<int, real>)
    requires mixed != map[]
    ensures exists trends :: Predicts(mixed, trends)
  {
    var dist := SomeList(mixed);
    var least := SomeLeast(dist);
    SortedIs(Reweighted(dist, least));
    assert PredictsFrom(mixed, dist, least, Sorted(Reweighted(dist, least)));
    assert Predicts(mixed, Sorted(Reweighted(dist, least)));
  }

  lemma {:induction false} SomeList(m: map<int, real>) returns (s: seq<Trend>)
    ensures Lists(s, m)
    decreases |m|
  {
    if m == map[] {
      s := [];
    } else {
      var c := Member(m.Keys);
      assert m.Keys == (m - {c}).Keys + {c};
      s := SomeList(m - {c});
      s := s + [Trend(c, m[c])];
    }
  }

  lemma {:induction false} SomeLeast(s: seq<Trend>) returns (least: real)
    requires s != []
    ensures IsLeast(s, least)
  {
    var n := |s| - 1;
    least := s[n].weight;
    if n > 0 {
      var before := SomeLeast(s[..n]);
      if before < least { least := before; }
    }
  }
}
