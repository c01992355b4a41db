// The click counters behind src/core/user_interests.cpp: a global count per category and a count per user and
// category, updated one event at a time.

module Counters {
  import opened Floats
  import opened Reals
  import opened Sums
  import opened DistTables

  /** Global counts per category and, per user, counts per category. */
  datatype Tables = Tables(dist: map<int, real>, users: map<nat, map<int, real>>)

  const EMPTY := Tables(map[], map[])

  /** trainCategory: the global count moves freely. */
  function AddTo(m: map<int, real>, c: int, d: real): map<int, real> {
    m[c := At(m, c) + d]
  }

  function Row(users: map<nat, map<int, real>>, u: nat): map<int, real> {
    if u in users then users[u] else map[]
  }

  function Clamp(x: real): real { if x < 0.0 then 0.0 else x }

  /** trainUserCategory: a user's count never falls below zero. */
  function AddUser(users: map<nat, map<int, real>>, u: nat, c: int, d: real): map<nat, map<int, real>> {
    users[u := Row(users, u)[c := Clamp(At(Row(users, u), c) + d)]]
  }

  function UserCount(t: Tables, u: nat, c: int): real { At(Row(t.users, u), c) }

  /** One event counted up or down; prior 0 takes the global counts from clicks, prior 1 from items. */
  function Count(t: Tables, prior: int, e: Event, d: real): Tables {
    match e
    case ClickEvent(k) =>
      Tables(if prior == 0 then AddTo(t.dist, k.category, d) else t.dist, AddUser(t.users, k.user, k.category, d))
    case ItemEvent(i) =>
      if prior == 1 then t.(dist := AddTo(t.dist, i.category, d)) else t
  }

  function TimeOf(e: Event): int {
    match e case ClickEvent(k) => k.publishTime case ItemEvent(i) => i.publishTime
  }

  /** Training counts what is newer than the cutoff; elimination takes back what is not. */
  function Train(t: Tables, prior: int, cutoff: int, e: Event): Tables {
    if TimeOf(e) > cutoff then Count(t, prior, e, 1.0) else t
  }

  function Eliminate(t: Tables, prior: int, cutoff: int, e: Event): Tables {
    if TimeOf(e) <= cutoff then Count(t, prior, e, -1.0) else t
  }

  function TrainAll(t: Tables, prior: int, cutoff: int, events: seq<Event>): Tables {
    if events == [] then t
    else Train(TrainAll(t, prior, cutoff, events[..|events| - 1]), prior, cutoff, events[|events| - 1])
  }

  function EliminateAll(t: Tables, prior: int, cutoff: int, events: seq<Event>): Tables {
    if events == [] then t
    else Eliminate(EliminateAll(t, prior, cutoff, events[..|events| - 1]), prior, cutoff, events[|events| - 1])
  }

  // ----- Counting by definition: the tables as tallies over a list of events -----

  ghost function Tally(events: seq<Event>, p: Event -> bool): real {
    SeqSum(events, Indicator(p))
  }

  ghost function Indicator(p: Event -> bool): Event -> real {
    e => if p(e) then 1.0 else 0.0
  }

  ghost function InCategory(prior: int, cutoff: int, c: int): Event -> bool {
    e => TimeOf(e) > cutoff
      && (match e
          case ClickEvent(k) => prior == 0 && k.category == c
          case ItemEvent(i) => prior == 1 && i.category == c)
  }

  ghost function ByUser(cutoff: int, u: nat, c: int): Event -> bool {
    e => TimeOf(e) > cutoff && e.ClickEvent? && e.click.user == u && e.click.category == c
  }

  /** The tables hold exactly the tallies, with a key only where the tally is positive. */
  ghost predicate Tallied(t: Tables, prior: int, cutoff: int, events: seq<Event>) {
    DistTallied(t.dist, prior, cutoff, events) && UsersTallied(t.users, cutoff, events)
  }

  ghost predicate DistTallied(dist: map<int, real>, prior: int, cutoff: int, events: seq<Event>) {
    && (forall c :: At(dist, c) == Tally(events, InCategory(prior, cutoff, c)))
    && (forall c :: c in dist ==> dist[c] >= 1.0)
  }

  ghost predicate UsersTallied(users: map<nat, map<int, real>>, cutoff: int, events: seq<Event>) {
    && (forall u: nat, c :: At(Row(users, u), c) == Tally(events, ByUser(cutoff, u, c)))
    && (forall u: nat, c :: u in users && c in users[u] ==> users[u][c] >= 1.0)
    && (forall u: nat :: u in users ==> users[u] != map[])
  }

  lemma DistNext(t: Tables, prior: int, cutoff: int, before: seq<Event>, e: Event)
    requires DistTallied(t.dist, prior, cutoff, before)
    ensures DistTallied(Train(t, prior, cutoff, e).dist, prior, cutoff, before + [e])
  {
  }

  lemma UsersNext(t: Tables, prior: int, cutoff: int, before: seq<Event>, e: Event)
    requires UsersTallied(t.users, cutoff, before)
    ensures UsersTallied(Train(t, prior, cutoff, e).users, cutoff, before + [e])
  {
  }

  lemma {:induction false} TrainingTallies(prior: int, cutoff: int, events: seq<Event>)
    ensures Tallied(TrainAll(EMPTY, prior, cutoff, events), prior, cutoff, events)
  {
    if events != [] {
      var before := events[..|events| - 1];
      TrainingTallies(prior, cutoff, before);
      var t := TrainAll(EMPTY, prior, cutoff, before);
      DistNext(t, prior, cutoff, before, events[|events| - 1]);
      UsersNext(t, prior, cutoff, before, events[|events| - 1]);
      assert events == before + [events[|events| - 1]];
    }
  }

  /** Every count a table can hold is the same for both lists, each taken with its own cutoff. */
  ghost predicate SameCounts(prior: int, a: seq<Event>, cutoff: int, b: seq<Event>, cutoff': int) {
    && (forall c :: Tally(a, InCategory(prior, cutoff, c)) == Tally(b, InCategory(prior, cutoff', c)))
    && (forall u: nat, c :: Tally(a, ByUser(cutoff, u, c)) == Tally(b, ByUser(cutoff', u, c)))
  }

  /** The tables show the counts and nothing but the counts. */
  lemma TablesShowCounts(prior: int, a: seq<Event>, cutoff: int, b: seq<Event>, cutoff': int)
    ensures TrainAll(EMPTY, prior, cutoff, a) == TrainAll(EMPTY, prior, cutoff', b)
       <==> SameCounts(prior, a, cutoff, b, cutoff')
  {
    hide TrainAll, Tally;
    TrainingTallies(prior, cutoff, a);
    TrainingTallies(prior, cutoff', b);
    var t, t' := TrainAll(EMPTY, prior, cutoff, a), TrainAll(EMPTY, prior, cutoff', b);
    if SameCounts(prior, a, cutoff, b, cutoff') {
      SameMaps(t.dist, t'.dist);
      SameRows(t, t');
    }
  }

  lemma SameRows(t: Tables, t': Tables)
    requires forall u: nat, c :: At(Row(t.users, u), c) == At(Row(t'.users, u), c)
    requires forall u: nat, c :: u in t.users && c in t.users[u] ==> t.users[u][c] >= 1.0
    requires forall u: nat, c :: u in t'.users && c in t'.users[u] ==> t'.users[u][c] >= 1.0
    requires forall u: nat :: (u in t.users ==> t.users[u] != map[]) && (u in t'.users ==> t'.users[u] != map[])
    ensures t.users == t'.users
  {
    hide At;
    forall u: nat ensures (u in t.users <==> u in t'.users) && (u in t.users ==> t.users[u] == t'.users[u]) {
      SameMaps(Row(t.users, u), Row(t'.users, u));
    }
  }

  lemma SameMaps(m: map<int, real>, m': map<int, real>)
    requires forall c :: At(m, c) == At(m', c)
    requires (forall c :: c in m ==> m[c] >= 1.0) && (forall c :: c in m' ==> m'[c] >= 1.0)
    ensures m == m'
  {
    forall c ensures (c in m <==> c in m') && (c in m ==> m[c] == m'[c]) {
      assert At(m, c) == At(m', c);
    }
  }

  /** Counting does not depend on the order in which the events arrive. */
  lemma TrainingIsPermutationInvariant(prior: int, cutoff: int, a: seq<Event>, b: seq<Event>)
    requires multiset(a) == multiset(b)
    ensures TrainAll(EMPTY, prior, cutoff, a) == TrainAll(EMPTY, prior, cutoff, b)
  {
    forall p ensures Tally(a, p) == Tally(b, p) {
      SeqSumPermuted(a, b, Indicator(p));
    }
    TablesShowCounts(prior, a, cutoff, b, cutoff);
  }

  lemma {:induction false} TrainAllJoin(t: Tables, prior: int, cutoff: int, a: seq<Event>, b: seq<Event>)
    ensures TrainAll(t, prior, cutoff, a + b) == TrainAll(TrainAll(t, prior, cutoff, a), prior, cutoff, b)
  {
    if b == [] {
      assert a + b == a;
    } else {
      assert (a + b)[..|a + b| - 1] == a + b[..|b| - 1];
      TrainAllJoin(t, prior, cutoff, a, b[..|b| - 1]);
    }
  }

  // ----- Conservation -----

  /** An event that has grown too old is taken back completely, whatever the prior. */
  lemma EliminateUndoesTrain(t: Tables, prior: int, cutoff: int, later: int, e: Event)
    requires Whole(t) && cutoff < TimeOf(e) <= later
    ensures var t' := Eliminate(Train(t, prior, cutoff, e), prior, later, e);
            && (forall c :: At(t'.dist, c) == At(t.dist, c))
            && (forall u: nat, c :: UserCount(t', u, c) == UserCount(t, u, c))
  {
    if e.ClickEvent? {
      var k := e.click;
      var s := Train(t, prior, cutoff, e);
      assert UserCount(t, k.user, k.category) >= 0.0;
      AddUserCounts(t, s, k.user, k.category, 1.0);
      AddUserCounts(s, Eliminate(s, prior, later, e), k.user, k.category, -1.0);
    }
  }

  datatype Update = Up(cutoff: int, event: Event) | Down(cutoff: int, event: Event)

  function Apply(t: Tables, prior: int, up: Update): Tables {
    match up
    case Up(cutoff, e) => Train(t, prior, cutoff, e)
    case Down(cutoff, e) => Eliminate(t, prior, cutoff, e)
  }

  function ApplyAll(t: Tables, prior: int, ups: seq<Update>): Tables {
    if ups == [] then t else Apply(ApplyAll(t, prior, ups[..|ups| - 1]), prior, ups[|ups| - 1])
  }

  /** The update is a decrement of category c that the clamp at zero swallows. */
  predicate Clamps(t: Tables, up: Update, c: int) {
    && up.Down? && TimeOf(up.event) <= up.cutoff && up.event.ClickEvent? && up.event.click.category == c
    && UserCount(t, up.event.click.user, c) == 0.0
  }

  function Swallowed(prior: int, ups: seq<Update>, c: int): nat {
    if ups == [] then 0
    else
      Swallowed(prior, ups[..|ups| - 1], c)
      + (if Clamps(ApplyAll(EMPTY, prior, ups[..|ups| - 1]), ups[|ups| - 1], c) then 1 else 0)
  }

  ghost function OverUsers(t: Tables, c: int): nat -> real {
    (u: nat) => UserCount(t, u, c)
  }

  ghost function UserSum(t: Tables, c: int): real {
    Sum(t.users.Keys, OverUsers(t, c))
  }

  /** User counts are natural numbers. */
  ghost predicate Whole(t: Tables) {
    forall u: nat, c :: UserCount(t, u, c) >= 0.0 && UserCount(t, u, c) == UserCount(t, u, c).Floor as real
  }

  lemma UserSumChange(t: Tables, t': Tables, u: nat, c: int)
    requires t'.users.Keys == t.users.Keys + {u}
    requires forall v: nat :: v != u ==> UserCount(t', v, c) == UserCount(t, v, c)
    ensures UserSum(t', c) == UserSum(t, c) + UserCount(t', u, c) - UserCount(t, u, c)
  {
    var f, f' := OverUsers(t, c), OverUsers(t', c);
    SumPick(t'.users.Keys, f', u);
    SumSame(t'.users.Keys - {u}, f', f);
    SumPick(t'.users.Keys, f, u);
    SumWithin(t'.users.Keys, t.users.Keys, f);
  }

  lemma AddUserChanges(t: Tables, t': Tables, u: nat, c: int, d: real, b: int)
    requires Whole(t) && t'.users == AddUser(t.users, u, c, d) && (d == 1.0 || d == -1.0)
    ensures Whole(t')
    ensures UserSum(t', b) == UserSum(t, b)
                              + (if b != c || (d < 0.0 && UserCount(t, u, c) == 0.0) then 0.0 else d)
  {
    AddUserCounts(t, t', u, c, d);
    UserSumChange(t, t', u, b);
    var x := UserCount(t, u, c);
    assert x + d == (x.Floor + d.Floor) as real;
    assert Clamp(x + d) == Clamp(x + d).Floor as real;
  }

  lemma AddUserCounts(t: Tables, t': Tables, u: nat, c: int, d: real)
    requires t'.users == AddUser(t.users, u, c, d)
    ensures forall v: nat, k :: UserCount(t', v, k)
                             == if v == u && k == c then Clamp(UserCount(t, u, c) + d) else UserCount(t, v, k)
  {
  }

  lemma ApplyBalances(t: Tables, up: Update, c: int)
    requires Whole(t)
    ensures Whole(Apply(t, 0, up))
    ensures UserSum(Apply(t, 0, up), c) - At(Apply(t, 0, up).dist, c)
         == UserSum(t, c) - At(t.dist, c) + (if Clamps(t, up, c) then 1.0 else 0.0)
  {
    if up.event.ClickEvent? && Apply(t, 0, up) != t {
      var k := up.event.click;
      AddUserChanges(t, Apply(t, 0, up), k.user, k.category, if up.Up? then 1.0 else -1.0, c);
    }
  }

  /**
   * With click priors, after any run of training and elimination the users' counts of a category exceed the global
   * count by exactly the number of decrements the clamp swallowed: never less, and equal when no clamp fired.
   */
  lemma {:induction false} Conservation(ups: seq<Update>, c: int)
    ensures var t := ApplyAll(EMPTY, 0, ups);
            Whole(t) && UserSum(t, c) - At(t.dist, c) == Swallowed(0, ups, c) as real
  {
    if ups == [] {
      assert UserSum(EMPTY, c) == 0.0;
    } else {
      Conservation(ups[..|ups| - 1], c);
      ApplyBalances(ApplyAll(EMPTY, 0, ups[..|ups| - 1]), ups[|ups| - 1], c);
    }
  }

  // ----- Smoothed scores -----

  /** A count out of y brought to the scale of the total. */
  ghost function Rescaled(x: real, total: real, y: real): real
    requires y != 0.0
  {
    x * total / y
  }

  /**
   * The smoothed score in closed form: the user's count scaled by how rare the category is, plus G virtual clicks,
   * over the user's clicks plus G.
   */
  ghost function Score(dist: map<int, real>, row: map<int, real>, G: real, c: int): Number {
    var n, total := OneIfNone(Total(row)), OneIfNone(Total(dist));
    if n + G == 0.0 || (c in dist && c in row && dist[c] == 0.0) then NotFinite
    else if c in dist && c in row then Finite((Rescaled(row[c], total, dist[c]) + G) / (n + G))
    else Finite(G / (n + G))
  }

  /** The equation a score solves: up to G virtual clicks, v clicks out of all are the user's, rescaled by rarity. */
  ghost predicate IsSmoothed(v: real, dist: map<int, real>, row: map<int, real>, G: real, c: int) {
    var n, total := OneIfNone(Total(row)), OneIfNone(Total(dist));
    if c in dist && c in row then (v * (n + G) - G) * dist[c] == row[c] * total else v * (n + G) == G
  }

  lemma ScoresSmoothed(dist: map<int, real>, row: map<int, real>, G: real)
    ensures forall c :: Score(dist, row, G, c).Finite? ==> IsSmoothed(Score(dist, row, G, c).value, dist, row, G, c)
  {
    forall c | Score(dist, row, G, c).Finite? ensures IsSmoothed(Score(dist, row, G, c).value, dist, row, G, c) {
      ScoreSmoothed(dist, row, G, c);
    }
  }

  lemma ScoreSmoothed(dist: map<int, real>, row: map<int, real>, G: real, c: int)
    requires Score(dist, row, G, c).Finite?
    ensures IsSmoothed(Score(dist, row, G, c).value, dist, row, G, c)
  {
    hide Total, Rescaled, OneIfNone;
    var n, total := OneIfNone(Total(row)), OneIfNone(Total(dist));
    if c in dist && c in row {
      Undo(Rescaled(row[c], total, dist[c]) + G, n + G);
      RescaledBack(row[c], total, dist[c]);
    } else {
      Undo(G, n + G);
    }
  }

  lemma Undo(a: real, m: real)
    requires m != 0.0
    ensures a / m * m == a
  {
  }

  lemma RescaledBack(x: real, total: real, y: real)
    requires y != 0.0
    ensures Rescaled(x, total, y) * y == x * total
  {
    Undo(x * total, y);
  }

  /** What counting without elimination keeps: user counts of at least one that add up to the global counts. */
  ghost predicate Consistent(t: Tables) {
    && Whole(t)
    && (forall c :: UserSum(t, c) == At(t.dist, c))
    && (forall u: nat, c :: u in t.users && c in t.users[u] ==> t.users[u][c] >= 1.0)
    && (forall u: nat :: u in t.users ==> t.users[u] != map[])
  }

  lemma EmptyIsConsistent()
    ensures Consistent(EMPTY)
  {
  }

  lemma TrainKeepsConsistent(t: Tables, cutoff: int, e: Event)
    requires Consistent(t)
    ensures Consistent(Train(t, 0, cutoff, e))
  {
    var up := Up(cutoff, e);
    assert Train(t, 0, cutoff, e) == Apply(t, 0, up);
    forall c ensures UserSum(Apply(t, 0, up), c) == At(Apply(t, 0, up).dist, c) {
      ApplyBalances(t, up, c);
    }
    ApplyBalances(t, up, 0);
    EntriesStayPositive(t, up);
  }

  lemma {:induction false} TrainAllKeepsConsistent(t: Tables, cutoff: int, events: seq<Event>)
    requires Consistent(t)
    ensures Consistent(TrainAll(t, 0, cutoff, events))
  {
    if events != [] {
      TrainAllKeepsConsistent(t, cutoff, events[..|events| - 1]);
      TrainKeepsConsistent(TrainAll(t, 0, cutoff, events[..|events| - 1]), cutoff, events[|events| - 1]);
    }
  }

  lemma EntriesStayPositive(t: Tables, up: Update)
    requires Consistent(t) && up.Up?
    ensures var t' := Apply(t, 0, up);
            && (forall u: nat, c :: u in t'.users && c in t'.users[u] ==> t'.users[u][c] >= 1.0)
            && (forall u: nat :: u in t'.users ==> t'.users[u] != map[])
  {
  }

  /** No user has more clicks on a category than all users together. */
  lemma UserWithinPrior(t: Tables, u: nat, c: int)
    requires Consistent(t) && u in t.users
    ensures 0.0 <= UserCount(t, u, c) <= At(t.dist, c)
    ensures c in t.users[u] ==> c in t.dist && 1.0 <= t.users[u][c] <= t.dist[c]
  {
    assert UserCount(t, u, c) >= 0.0;
    assert UserSum(t, c) == At(t.dist, c);
    SumBounds(t.users.Keys, OverUsers(t, c));
    assert OverUsers(t, c)(u) == UserCount(t, u, c);
  }

  lemma SomeKey(m: map<int, real>)
    ensures m == map[] || exists k :: k in m
  {
    assert (forall k :: k !in m) ==> m == map[];
  }

  /** A present user has clicked. */
  lemma UserTotal(t: Tables, u: nat)
    requires Consistent(t) && u in t.users
    ensures Total(t.users[u]) >= 1.0
  {
    var row := t.users[u];
    assert row != map[];
    SomeKey(row);
    var k :| k in row;
    forall c | c in row.Keys ensures Entries(row)(c) >= 1.0 {}
    SumBounds(row.Keys, Entries(row));
    assert Entries(row)(k) >= 1.0;
  }

  /** The user's total never exceeds the prior total. */
  lemma TotalWithinPrior(t: Tables, u: nat)
    requires Consistent(t) && u in t.users
    ensures 1.0 <= Total(t.users[u]) <= Total(t.dist)
  {
    var row := t.users[u];
    UserTotal(t, u);
    forall c ensures 0.0 <= At(row, c) <= At(t.dist, c) && (c in row ==> c in t.dist) {
      UserWithinPrior(t, u, c);
      assert UserCount(t, u, c) == At(row, c);
    }
    SumWithin(t.dist.Keys, row.Keys, Entries(row));
    var rest: int -> real := c => At(t.dist, c) - At(row, c);
    SumAdd(t.dist.Keys, Entries(row), rest, Entries(t.dist));
    SumBounds(t.dist.Keys, rest);
  }

  /** The user's clicks on a category, scaled to the prior total by how rare the category is. */
  ghost function Share(dist: map<int, real>, row: map<int, real>, c: int): real {
    if c in dist && c in row && dist[c] != 0.0 then Rescaled(row[c], Total(dist), dist[c]) else 0.0
  }

  lemma ShareBounds(t: Tables, u: nat, c: int)
    requires Consistent(t) && u in t.users
    ensures var share, total := Share(t.dist, t.users[u], c), Total(t.dist);
            0.0 <= share <= total && share * At(t.dist, c) == At(t.users[u], c) * total
  {
    hide Total, Consistent, UserCount;
    TotalWithinPrior(t, u);
    UserWithinPrior(t, u, c);
    if c in t.users[u] {
      ShareOf(t.users[u][c], Total(t.dist), t.dist[c]);
    }
  }

  lemma ScoreIsShare(t: Tables, u: nat, G: real, c: int)
    requires Consistent(t) && u in t.users && G > 0.0
    ensures var n, total := Total(t.users[u]), Total(t.dist);
            n + G > 0.0 && total > 0.0
            && Score(t.dist, t.users[u], G, c) == Finite((Share(t.dist, t.users[u], c) + G) / (n + G))
  {
    hide Total, Consistent, UserCount;
    TotalWithinPrior(t, u);
    UserWithinPrior(t, u, c);
  }

  /** Bounds on every score, and no division by zero, for counts that were only ever counted up. */
  lemma ScoreBounds(t: Tables, u: nat, G: real, c: int)
    requires Consistent(t) && u in t.users && G > 0.0
    ensures Total(t.users[u]) + G > 0.0 && Score(t.dist, t.users[u], G, c).Finite?
    ensures var n, score := Total(t.users[u]), Score(t.dist, t.users[u], G, c).value;
            0.0 < G / (n + G) <= score <= (Total(t.dist) + G) / (n + G)
  {
    hide Total, Consistent, Score, Share, At;
    ScoreIsShare(t, u, G, c);
    ShareBounds(t, u, c);
    SmoothedBounds(Share(t.dist, t.users[u], c), Total(t.dist), G, Total(t.users[u]) + G);
  }

  /** The scores rank the categories by how much of all their clicks are the user's. */
  lemma ScoreOrder(t: Tables, u: nat, G: real, c: int, d: int)
    requires Consistent(t) && u in t.users && G > 0.0 && At(t.dist, c) > 0.0 && At(t.dist, d) > 0.0
    ensures Score(t.dist, t.users[u], G, c).Finite? && Score(t.dist, t.users[u], G, d).Finite?
    ensures Score(t.dist, t.users[u], G, c).value >= Score(t.dist, t.users[u], G, d).value
       <==> At(t.users[u], c) * At(t.dist, d) >= At(t.users[u], d) * At(t.dist, c)
  {
    hide Total, Consistent, Score, Share, At;
    var row, total, m := t.users[u], Total(t.dist), Total(t.users[u]) + G;
    ScoreIsShare(t, u, G, c);
    ScoreIsShare(t, u, G, d);
    ShareBounds(t, u, c);
    ShareBounds(t, u, d);
    var p, q := Share(t.dist, row, c), Share(t.dist, row, d);
    CompareQuotients(p + G, q + G, m);
    CompareShares(At(row, c), At(row, d), At(t.dist, c), At(t.dist, d), p, q, total);
  }

  lemma CompareQuotients(a: real, b: real, m: real)
    requires m > 0.0
    ensures a / m >= b / m <==> a >= b
  {
    Scaled(a / m, b, m);
    Scaled(0.0, a, m);
  }

  lemma CompareShares(x: real, y: real, a: real, b: real, p: real, q: real, total: real)
    requires a > 0.0 && b > 0.0 && total > 0.0 && p * a == x * total && q * b == y * total
    ensures p >= q <==> x * b >= y * a
  {
    PositiveProduct(a, b);
    Cancel(q, p, a * b);
    Cancel(y * a, x * b, total);
    assert p * (a * b) == (p * a) * b == (x * total) * b == (x * b) * total;
    assert q * (a * b) == (q * b) * a == (y * total) * a == (y * a) * total;
  }

  lemma ScoresPositive(t: Tables, u: nat, G: real)
    requires Consistent(t) && u in t.users && G > 0.0
    ensures forall c :: Score(t.dist, t.users[u], G, c).Finite? && Score(t.dist, t.users[u], G, c).value > 0.0
  {
    forall c ensures Score(t.dist, t.users[u], G, c).Finite? && Score(t.dist, t.users[u], G, c).value > 0.0 {
      ScoreBounds(t, u, G, c);
    }
  }

  lemma ScoresUndefined(dist: map<int, real>, row: map<int, real>, G: real)
    ensures forall c :: Score(dist, row, G, c) == NotFinite
                   <==> OneIfNone(Total(row)) + G == 0.0 || (c in dist && c in row && dist[c] == 0.0)
  {
    hide Total;
  }

  lemma SmoothedBounds(share: real, total: real, G: real, m: real)
    requires 0.0 <= share <= total && G > 0.0 && m > 0.0
    ensures 0.0 < G / m <= (share + G) / m <= (total + G) / m
  {
    Scaled(0.0, G, m);
    Quotient(G, share + G, m);
    Quotient(share + G, total + G, m);
  }

  lemma ShareOf(x: real, total: real, prior: real)
    requires 0.0 <= x <= prior && prior > 0.0 && total >= 0.0
    ensures 0.0 <= Rescaled(x, total, prior) <= total && Rescaled(x, total, prior) * prior == x * total
  {
    Stretch(x, prior, total);
    Stretch(0.0, x, total);
    Scaled(total, x * total, prior);
    Scaled(0.0, x * total, prior);
  }

  /**
   * After any run of training and elimination a score is undefined exactly when the virtual clicks cancel the user's
   * total, or the category was counted for the user and all that its users hold are decrements the clamp swallowed.
   */
  lemma ScoreUndefinedExactly(ups: seq<Update>, u: nat, G: real, c: int)
    ensures var t := ApplyAll(EMPTY, 0, ups);
            u in t.users ==>
              (Score(t.dist, t.users[u], G, c) == NotFinite
               <==> OneIfNone(Total(t.users[u])) + G == 0.0
                    || (c in t.users[u] && UserSum(t, c) == Swallowed(0, ups, c) as real))
  {
    hide UserSum, Total, OneIfNone;
    Conservation(ups, c);
    UserKeysInDist(ups);
    var t := ApplyAll(EMPTY, 0, ups);
    assert u in t.users && c in t.users[u] ==> c in Row(t.users, u);
  }

  ghost predicate KeysInDist(t: Tables) {
    forall u: nat, c :: c in Row(t.users, u) ==> c in t.dist
  }

  lemma {:induction false} UserKeysInDist(ups: seq<Update>)
    ensures KeysInDist(ApplyAll(EMPTY, 0, ups))
  {
    if ups != [] {
      UserKeysInDist(ups[..|ups| - 1]);
      UpdateKeepsKeys(ApplyAll(EMPTY, 0, ups[..|ups| - 1]), ups[|ups| - 1]);
    }
  }

  lemma UpdateKeepsKeys(t: Tables, up: Update)
    requires KeysInDist(t)
    ensures KeysInDist(Apply(t, 0, up))
  {
    hide At, Clamp;
    var t' := Apply(t, 0, up);
    forall u: nat, c | c in Row(t'.users, u) ensures c in t'.dist {
      assert c in Row(t.users, u) || c in t'.dist;
    }
  }

  /** Elimination breaks this: a click counted and taken back leaves the category's score divided by zero. */
  lemma ScoreUndefinedAfterElimination(u: nat, c: int, G: real)
    ensures var click := ClickEvent(Click(u, c, 1));
            var t := ApplyAll(EMPTY, 0, [Up(0, click), Down(1, click)]);
            u in t.users && Score(t.dist, t.users[u], G, c) == NotFinite
  {
    var click := ClickEvent(Click(u, c, 1));
    var ups := [Up(0, click), Down(1, click)];
    assert ups[..1] == [Up(0, click)] && ups[..1][..0] == [];
    var t := Apply(EMPTY, 0, ups[0]);
    assert t.dist == map[c := 1.0] && t.users == map[u := map[c := 1.0]];
    assert ApplyAll(EMPTY, 0, ups[..1]) == t;
    var t' := Apply(t, 0, ups[1]);
    assert t'.dist == map[c := 0.0] && t'.users == map[u := map[c := 0.0]];
    assert ApplyAll(EMPTY, 0, ups) == t';
  }

  ghost function ScoreValue(dist: map<int, real>, row: map<int, real>, G: real): int -> real {
    c => var score := Score(dist, row, G, c); if score.Finite? then score.value else 0.0
  }

  ghost function Weighted(dist: map<int, real>, row: map<int, real>, G: real): int -> real {
    c => Product(At(dist, c), ScoreValue(dist, row, G)(c))
  }

  /**
   * A present user's scores, weighted by the click priors, average to exactly one: the scores weighted by the global
   * counts sum to the global total.
   */
  lemma SmoothingIdentity(t: Tables, u: nat, G: real, categories: set<int>)
    requires Consistent(t) && u in t.users && G > 0.0 && t.dist.Keys <= categories
    ensures Sum(categories, Weighted(t.dist, t.users[u], G)) == Total(t.dist) > 0.0
  {
    var row, w := t.users[u], Weighted(t.dist, t.users[u], G);
    var total, m := Total(t.dist), Total(t.users[u]) + G;
    TotalsOver(t, u, categories);
    forall c ensures AverageTerm(Entries(row), Entries(t.dist), w, total, G, m, c) {
      WeightedPoint(t, u, G, c);
    }
    AverageIsOne(categories, Entries(row), Entries(t.dist), w, total, G, m);
  }

  ghost predicate AverageTerm(x: int -> real, y: int -> real, w: int -> real, total: real, G: real, m: real, c: int) {
    m * w(c) == total * x(c) + G * y(c)
  }

  lemma TotalsOver(t: Tables, u: nat, categories: set<int>)
    requires Consistent(t) && u in t.users && t.dist.Keys <= categories
    ensures Sum(categories, Entries(t.users[u])) == Total(t.users[u])
    ensures Sum(categories, Entries(t.dist)) == Total(t.dist)
    ensures 1.0 <= Total(t.users[u]) <= Total(t.dist)
  {
    TotalWithinPrior(t, u);
    forall c ensures c in t.users[u] ==> c in t.dist {
      UserWithinPrior(t, u, c);
    }
    SumWithin(categories, t.users[u].Keys, Entries(t.users[u]));
    SumWithin(categories, t.dist.Keys, Entries(t.dist));
  }

  lemma WeightedPoint(t: Tables, u: nat, G: real, c: int)
    requires Consistent(t) && u in t.users && G > 0.0
    ensures AverageTerm(Entries(t.users[u]), Entries(t.dist), Weighted(t.dist, t.users[u], G),
                        Total(t.dist), G, Total(t.users[u]) + G, c)
  {
    hide Score, Share, Total, Consistent, At;
    ShareBounds(t, u, c);
    ScoreIsShare(t, u, G, c);
    AveragePoint(Entries(t.users[u])(c), Entries(t.dist)(c), Total(t.dist), G, Share(t.dist, t.users[u], c),
                 Total(t.users[u]) + G, ScoreValue(t.dist, t.users[u], G)(c), Weighted(t.dist, t.users[u], G)(c));
  }

  lemma AverageIsOne(ks: set<int>, x: int -> real, y: int -> real, w: int -> real, total: real, G: real, m: real)
    requires m > 0.0 && Sum(ks, y) == total && Sum(ks, x) + G == m
    requires forall c :: AverageTerm(x, y, w, total, G, m, c)
    ensures Sum(ks, w) == total
  {
    hide AverageTerm, Times;
    SumOfTerms(ks, x, y, w, total, G, m);
    SumTimes(ks, m, w);
    SumTimes(ks, total, x);
    SumTimes(ks, G, y);
    UnitFactor(Sum(ks, w), Sum(ks, x), Sum(ks, y), G, total, m,
               Sum(ks, Times(m, w)), Sum(ks, Times(total, x)), Sum(ks, Times(G, y)));
  }

  lemma SumOfTerms(ks: set<int>, x: int -> real, y: int -> real, w: int -> real, total: real, G: real, m: real)
    requires forall c :: AverageTerm(x, y, w, total, G, m, c)
    ensures Sum(ks, Times(m, w)) == Sum(ks, Times(total, x)) + Sum(ks, Times(G, y))
  {
    forall c ensures Times(m, w)(c) == Times(total, x)(c) + Times(G, y)(c) {
      assert AverageTerm(x, y, w, total, G, m, c);
    }
    SumAdd(ks, Times(total, x), Times(G, y), Times(m, w));
  }

  lemma UnitFactor(sw: real, sx: real, sy: real, G: real, total: real, m: real, a: real, b: real, c: real)
    requires m > 0.0 && sy == total && sx + G == m
    requires a == m * sw && b == total * sx && c == G * sy && a == b + c
    ensures sw == total
  {
    assert b + c == total * m;
    Cancel(sw, total, m);
  }

  lemma AveragePoint(x: real, y: real, total: real, G: real, share: real, m: real, score: real, w: real)
    requires m > 0.0 && share * y == x * total && score == (share + G) / m && w == Product(y, score)
    ensures m * w == total * x + G * y
  {
    Scaled(0.0, share + G, m);
    assert m * (y * score) == y * (score * m) == y * share + y * G;
  }
}
