// The current-interest counters of src/core/user_interests.cpp as an object over its event table.

module UserInterest {
  import opened Floats
  import opened Sums
  import opened Options
  import opened LogFiles
  import opened LogRuns
  import opened DistTables
  import opened Counters
  import opened Rebuilding

  class UserInterests {
    const table: DistTable
    const prior: int            // 0: clicks are the prior, 1: items are
    const virtualClicks: real
    const ageLimit: int         // the source uses the table's own window here
    var cutoff: int
    var dist: map<int, real>
    var users: map<nat, map<int, real>>

    constructor (table: DistTable, prior: int, virtualClicks: real, ageLimit: int, now: int)
      ensures this.table == table && this.prior == prior && this.virtualClicks == virtualClicks
      ensures this.ageLimit == ageLimit && cutoff == now - table.window * 3600
      ensures State() == EMPTY
    {
      this.table, this.prior, this.virtualClicks, this.ageLimit := table, prior, virtualClicks, ageLimit;
      cutoff := now - table.window * SECONDS_PER_HOUR;
      dist, users := map[], map[];
    }

    function State(): Tables
      reads this
    {
      Tables(dist, users)
    }

    method TrainCategory(category: int, count: int)
      modifies this
      ensures dist == AddTo(old(dist), category, count as real)
      ensures users == old(users) && cutoff == old(cutoff)
    {
      if category in dist {
        dist := dist[category := dist[category] + count as real];
      } else {
        dist := dist[category := count as real];
      }
    }

    method TrainUserCategory(user: nat, category: int, count: int)
      modifies this
      ensures users == AddUser(old(users), user, category, count as real)
      ensures dist == old(dist) && cutoff == old(cutoff)
    {
      if user !in users {
        users := users[user := map[]];
      }
      var row := users[user];
      if category in row {
        var n := row[category] + count as real;
        if n < 0.0 { n := 0.0; }
        users := users[user := row[category := n]];
      } else {
        var n := count;
        if n < 0 { n := 0; }
        users := users[user := row[category := n as real]];
      }
    }

    method TrainEvent(e: Event)
      modifies this
      ensures State() == Counters.Train(old(State()), prior, cutoff, e) && cutoff == old(cutoff)
    {
      match e {
        case ClickEvent(click) =>
          if click.publishTime > cutoff {
            if 0 == prior {
              TrainCategory(click.category, 1);
            }
            TrainUserCategory(click.user, click.category, 1);
          }
        case ItemEvent(item) =>
          if item.publishTime > cutoff {
            if 1 == prior {
              TrainCategory(item.category, 1);
            }
          }
      }
    }

    method EliminateEvent(e: Event)
      modifies this
      ensures State() == Counters.Eliminate(old(State()), prior, cutoff, e) && cutoff == old(cutoff)
    {
      match e {
        case ClickEvent(click) =>
          if click.publishTime <= cutoff {
            if 0 == prior {
              TrainCategory(click.category, -1);
            }
            TrainUserCategory(click.user, click.category, -1);
          }
        case ItemEvent(item) =>
          if item.publishTime <= cutoff {
            if 1 == prior {
              TrainCategory(item.category, -1);
            }
          }
      }
    }

    method TrainEvents(events: seq<Event>)
      modifies this
      ensures State() == TrainAll(old(State()), prior, cutoff, events) && cutoff == old(cutoff)
    {
      for i := 0 to |events|
        invariant State() == TrainAll(old(State()), prior, cutoff, events[..i]) && cutoff == old(cutoff)
      {
        assert events[..i + 1][..i] == events[..i];
        TrainEvent(events[i]);
      }
      assert events[..|events|] == events;
    }

    /** addClick and addItem: count the event, then log it. */
    method AddEvent(e: Event)
      requires table.log.State().Live()
      modifies this, table.log
      ensures State() == Counters.Train(old(State()), prior, cutoff, e) && cutoff == old(cutoff)
      ensures table.log.State() == Written(old(table.log.State()), Encode(table.codec, e))
      ensures prior == 0 && Consistent(old(State())) ==> Consistent(State())
    {
      TrainEvent(e);
      table.AddEvent(e);
      if prior == 0 && Consistent(old(State())) {
        TrainKeepsConsistent(old(State()), cutoff, e);
      }
    }

    /** Clears the counters and counts the window of sealed logs. */
    method Train()
      modifies this
      ensures State() == Rebuilt(table.codec, table.log.State(), table.window, prior, cutoff)
      ensures cutoff == old(cutoff)
      ensures prior == 0 ==> Consistent(State())
    {
      dist, users := map[], map[];
      var events := table.TrainPeriodicLog();
      TrainEvents(events);
      if prior == 0 {
        EmptyIsConsistent();
        TrainAllKeepsConsistent(EMPTY, cutoff, events);
      }
    }

    /** Recovery counts the active log, then training starts over: the result depends on the sealed logs alone. */
    method Init()
      modifies this, table.log
      ensures table.log.State() == Restarted(old(table.log.dir), 0)
      ensures State() == Rebuilt(table.codec, table.log.State(), table.window, prior, cutoff)
      ensures cutoff == old(cutoff)
      ensures prior == 0 ==> Consistent(State())
    {
      var recovered := table.Init();
      TrainEvents(recovered);
      Train();
    }

    /**
     * Any run of added events and hourly rollovers, with an elimination before each of them, which as wired moves the
     * cutoff and nothing else.
     */
    method Serve(actions: seq<Action>, nows: seq<int>, ghost cutoffs: seq<int>)
      requires table.log.State().Live() && ageLimit >= table.window && |nows| == |actions|
      requires cutoffs == seq(|nows|, i requires 0 <= i < |nows| => nows[i] - table.window * 3600)
      modifies this, table.log
      ensures table.log.State() == AfterActions(table.codec, old(table.log.State()), actions)
      ensures State() == Served(old(State()), prior, actions, cutoffs)
    {
      hide AfterActions, Added, Served, WindowEvents, Expired;
      ghost var s, t := table.log.State(), State();
      NoActions(table.codec, s);
      assert actions[..0] == [];
      ServedNone(t, prior, cutoffs);
      for i := 0 to |actions|
        invariant s.Live() && table.log.State() == AfterActions(table.codec, s, actions[..i])
        invariant State() == Served(t, prior, actions[..i], cutoffs)
      {
        Eliminate(nows[i]);
        NextAction(table.codec, s, actions[..i], actions[i]);
        assert actions[..i] + [actions[i]] == actions[..i + 1];
        ServedNext(t, prior, actions, cutoffs, i);
        match actions[i] {
          case Add(e) => AddEvent(e);
          case Roll => table.Rollover();
        }
      }
      assert actions[..|actions|] == actions;
    }

    /** Takes back the expired logs and removes them; with the age limit at the window nothing is ever touched. */
    method Eliminate(now: int)
      modifies this, table.log
      ensures cutoff == now - table.window * 3600
      ensures table.log.lastCounter == old(table.log.lastCounter)
      ensures var expired := Expired(old(table.log.dir.sealed), table.log.lastCounter - 1, table.window, ageLimit);
              && table.log.dir == old(table.log.dir).(sealed := old(table.log.dir.sealed) - expired)
              && State() == EliminateAll(old(State()), prior, cutoff,
                   WindowEvents(table.codec, Only(old(table.log.dir.sealed), expired),
                                table.log.lastCounter - 1, table.window))
      ensures ageLimit >= table.window ==> State() == old(State()) && table.log.dir == old(table.log.dir)
    {
      hide WindowEvents, Expired;
      cutoff := now - table.window * SECONDS_PER_HOUR;
      ghost var sealed := table.log.dir.sealed;
      var events := table.EliminatePeriodicLog(ageLimit);
      EliminateEvents(events);
      if ageLimit >= table.window {
        NothingToReplay(table.codec, sealed, table.log.lastCounter - 1, table.window, ageLimit);
        assert sealed - {} == sealed;
      }
    }

    method EliminateEvents(events: seq<Event>)
      modifies this
      ensures State() == EliminateAll(old(State()), prior, cutoff, events) && cutoff == old(cutoff)
    {
      for i := 0 to |events|
        invariant State() == EliminateAll(old(State()), prior, cutoff, events[..i]) && cutoff == old(cutoff)
      {
        assert events[..i + 1][..i] == events[..i];
        EliminateEvent(events[i]);
      }
      assert events[..|events|] == events;
    }

    /** The smoothed score of one category, in the order of operations of the source. */
    method ScoreOf(row: map<int, real>, userTotal: real, priorTotal: real, c: int) returns (score: Number)
      requires userTotal == OneIfNone(Total(row)) && priorTotal == OneIfNone(Total(dist))
      ensures score == Score(dist, row, virtualClicks, c)
    {
      hide Total, Div, Mul, Plus, Score;
      CodeIsScore(dist, row, userTotal, priorTotal, virtualClicks, c);
      if c !in dist || c !in row {
        score := Div(Finite(virtualClicks), Finite(userTotal + virtualClicks));
      } else {
        var ptClick := Div(Finite(row[c]), Finite(userTotal));
        var pt := Div(Finite(dist[c]), Finite(priorTotal));
        var pu := Mul(Finite(userTotal), Div(ptClick, pt));
        score := Div(Plus(pu, Finite(virtualClicks)), Finite(userTotal + virtualClicks));
      }
    }

    /** The user's smoothed interests over the given categories, or None for a user without counters. */
    method QueryUserCurrentInterests(user: nat, categories: set<int>) returns (trends: Option<map<int, Number>>)
      ensures trends.None? <==> user !in users
      ensures trends.Some? ==> trends.value == map c | c in categories :: Score(dist, users[user], virtualClicks, c)
      ensures trends.Some? ==> forall c :: c in categories ==>
                (trends.value[c] == NotFinite
                 <==> OneIfNone(Total(users[user])) + virtualClicks == 0.0
                      || (c in dist && c in users[user] && dist[c] == 0.0))
      ensures trends.Some? ==> forall c :: c in categories && trends.value[c].Finite? ==>
                IsSmoothed(trends.value[c].value, dist, users[user], virtualClicks, c)
      ensures trends.Some? && Consistent(State()) && virtualClicks > 0.0 ==>
                forall c :: c in categories ==> trends.value[c].Finite? && trends.value[c].value > 0.0
    {
      hide Score, Total, Consistent, IsSmoothed;
      if user !in users { return None; }
      var row := users[user];
      var userTotal := SumValues(row);
      var priorTotal := SumValues(dist);
      if userTotal <= 0.0 { userTotal := 1.0; }
      if priorTotal <= 0.0 { priorTotal := 1.0; }
      var result: map<int, Number> := map[];
      var rest := categories;
      while rest != {}
        invariant rest <= categories
        invariant result.Keys == categories - rest
        invariant forall c :: c in result ==> result[c] == Score(dist, row, virtualClicks, c)
        decreases |rest|
      {
        ghost var member := Member(rest);
        var c :| c in rest;
        var score := ScoreOf(row, userTotal, priorTotal, c);
        result := result[c := score];
        rest := rest - {c};
      }
      trends := Some(result);
      ScoresUndefined(dist, row, virtualClicks);
      ScoresSmoothed(dist, row, virtualClicks);
      if Consistent(State()) && virtualClicks > 0.0 {
        ScoresPositive(State(), user, virtualClicks);
      }
    }
  }

  lemma CodeIsScore(dist: map<int, real>, row: map<int, real>, n: real, total: real, G: real, c: int)
    requires n == OneIfNone(Total(row)) && total == OneIfNone(Total(dist))
    ensures c !in dist || c !in row ==> Div(Finite(G), Finite(n + G)) == Score(dist, row, G, c)
    ensures c in dist && c in row ==>
              var pu := Mul(Finite(n), Div(Div(Finite(row[c]), Finite(n)), Div(Finite(dist[c]), Finite(total))));
              Div(Plus(pu, Finite(G)), Finite(n + G)) == Score(dist, row, G, c)
  {
    hide Mul, Div, Plus, Score, Total, OneIfNone, Rescaled;
    if c in dist && c in row {
      PositiveTotals(dist, row);
      CodeScore(row[c], n, dist[c], total);
      ScoreOfShare(dist, row, n, total, G, c);
    } else {
      ScoreOfAbsent(dist, row, G, c);
    }
  }

  lemma PositiveTotals(dist: map<int, real>, row: map<int, real>)
    ensures OneIfNone(Total(row)) > 0.0 && OneIfNone(Total(dist)) > 0.0
  {
    hide Total;
  }

  lemma ScoreOfShare(dist: map<int, real>, row: map<int, real>, n: real, total: real, G: real, c: int)
    requires c in dist && c in row && n == OneIfNone(Total(row)) && total == OneIfNone(Total(dist))
    ensures var pu := if dist[c] == 0.0 then NotFinite else Finite(Rescaled(row[c], total, dist[c]));
            Div(Plus(pu, Finite(G)), Finite(n + G)) == Score(dist, row, G, c)
  {
    hide Total, OneIfNone, Rescaled;
  }

  lemma ScoreOfAbsent(dist: map<int, real>, row: map<int, real>, G: real, c: int)
    requires c !in dist || c !in row
    ensures Div(Finite(G), Finite(OneIfNone(Total(row)) + G)) == Score(dist, row, G, c)
  {
    hide Total, OneIfNone;
  }

  /** The quotient of frequencies that the code forms is the closed form; undefined when the prior count is zero. */
  lemma CodeScore(x: real, n: real, y: real, total: real)
    requires n > 0.0 && total > 0.0
    ensures Mul(Finite(n), Div(Div(Finite(x), Finite(n)), Div(Finite(y), Finite(total))))
         == if y == 0.0 then NotFinite else Finite(Rescaled(x, total, y))
  {
    if y != 0.0 {
      QuotientOfShares(x, n, y, total);
    } else {
      assert y / total == 0.0;
    }
  }

  lemma QuotientOfShares(x: real, n: real, y: real, total: real)
    requires n > 0.0 && total > 0.0 && y != 0.0
    ensures y / total != 0.0 && n * (x / n / (y / total)) == Rescaled(x, total, y)
  {
    var a, b := x / n, y / total;
    assert a * n == x && b * total == y;
    var q := a / b;
    assert q * b == a;
    assert (n * q) * y == n * (q * b) * total == x * total;
    var r := x * total / y;
    assert r * y == x * total;
    assert (n * q - r) * y == 0.0;
  }

  lemma {:induction false} NothingToReplay(codec: Codec, sealed: map<int, File>, last: int, w: nat, age: int)
    requires age >= w
    ensures Expired(sealed, last, w, age) == {}
    ensures WindowEvents(codec, Only(sealed, {}), last, w) == []
  {
    EmptyWindow(codec, Only(sealed, {}), last, w);
  }

  lemma {:induction false} EmptyWindow(codec: Codec, sealed: map<int, File>, last: int, w: nat)
    requires sealed == map[]
    ensures WindowEvents(codec, sealed, last, w) == []
  {
    if w > 0 && last >= 0 {
      EmptyWindow(codec, sealed, last - 1, w - 1);
    }
  }

  /**
   * One process and its successor: first starts on whatever its directory holds and serves, eliminating at the given
   * times; a crash comes after any number of file operations of a last rollover, or outside of one; second starts on
   * what is left after any attempts that were cut off.
   */
  method LiveThenRestart(first: UserInterests, second: UserInterests, actions: seq<Action>, nows: seq<int>, cut: nat,
                         crash: Directory -> seq<Directory>, ghost cutoffs: seq<int>)
    requires first != second && first.table.log != second.table.log && first.ageLimit >= first.table.window
    requires first.table.codec == second.table.codec && first.table.codec.RoundTrips()
    requires first.table.window == second.table.window && first.prior == second.prior
    requires first.cutoff <= second.cutoff && Restarted(first.table.log.dir, 0).counter >= 0
    requires |nows| == |actions|
             && cutoffs == seq(|nows|, i requires 0 <= i < |nows| => nows[i] - first.table.window * 3600)
    requires forall i :: 0 <= i < |nows| ==> first.cutoff <= cutoffs[i]
    requires cut <= 3 && forall d :: Settled(d) ==> CrashChain(d, crash(d))
    modifies first, first.table.log, second, second.table.log
    ensures var s := Restarted(old(first.table.log.dir), 0);
            second.State() == first.State()
            <==> SameCounts(first.prior, Missed(first.table.codec, s, Done(actions, cut), second.table.log.lastCounter,
                                                first.table.window, second.cutoff), old(first.cutoff),
                            Recovered(first.table.codec, s) + Arriving(actions, cutoffs, false), old(first.cutoff))
  {
    hide Missed, Recovered, SameCounts, Rebuilt, TrainAll, CrashChain, Opened, CounterOf, Served, Arriving;
    ghost var d, cutoff := first.table.log.dir, first.cutoff;
    first.Init();
    first.Serve(actions, nows, cutoffs);
    var t := Session(first.table.log.dir, first.table.log.lastCounter);
    if cut > 0 {
      CutLeaves(t, cut);
    }
    var ds := crash(AfterCut(t, cut));
    ChainIsNonEmpty(AfterCut(t, cut), ds);
    second.table.log.dir := ds[|ds| - 1];
    second.Init();
    RebuildIsLive(first.table.codec, d, actions, cutoffs, cut, ds, first.table.window, first.prior,
                  cutoff, second.cutoff);
  }

  lemma ChainIsNonEmpty(d: Directory, ds: seq<Directory>)
    requires CrashChain(d, ds)
    ensures ds != []
  {
  }
}
