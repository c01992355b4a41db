// What a restart makes of the counters of src/core/user_interests.cpp: the tables counted while the object lived, and
// the tables its successor counts from the sealed logs that lie below the number the log restarts with.

module Rebuilding {
  import opened Options
  import opened Decimal
  import opened Sums
  import opened LogFiles
  import opened LogRuns
  import opened LogReplay
  import opened DistTables
  import opened Counters

  // ----- Windows as ranges of log numbers -----

  /** The lowest number in a window of w logs below n. */
  function Low(n: int, w: nat): int { if n < w then 0 else n - w }

  lemma {:induction false} WindowTally(codec: Codec, sealed: map<int, File>, hi: nat, w: nat, p: Event -> bool)
    ensures Tally(WindowEvents(codec, sealed, hi - 1, w), p) == Tally(AscendingEvents(codec, sealed, Low(hi, w), hi), p)
  {
    hide FileEvents, Tally;
    var lo := Low(hi, w);
    WindowEnds(codec, sealed, hi, w);
    WindowIsPermutation(codec, sealed, lo, hi);
    TallyPermuted(WindowEvents(codec, sealed, hi - 1, w), AscendingEvents(codec, sealed, lo, hi), p);
  }

  /** A window wider than the numbers below it ends at number 0. */
  lemma {:induction false} WindowEnds(codec: Codec, sealed: map<int, File>, hi: nat, w: nat)
    ensures WindowEvents(codec, sealed, hi - 1, w) == WindowEvents(codec, sealed, hi - 1, hi - Low(hi, w))
  {
    hide FileEvents;
    if w > 0 && hi > 0 {
      WindowEnds(codec, sealed, hi - 1, w - 1);
    }
  }

  lemma TallyPermuted(a: seq<Event>, b: seq<Event>, p: Event -> bool)
    requires multiset(a) == multiset(b)
    ensures Tally(a, p) == Tally(b, p)
  {
    SeqSumPermuted(a, b, Indicator(p));
  }

  lemma TallyJoin(a: seq<Event>, b: seq<Event>, p: Event -> bool)
    ensures Tally(a + b, p) == Tally(a, p) + Tally(b, p)
  {
    SeqSumJoin(a, b, Indicator(p));
  }

  lemma {:induction false} AscendingSplit(codec: Codec, sealed: map<int, File>, lo: int, mid: int, hi: int,
                                          p: Event -> bool)
    requires lo <= mid <= hi
    ensures Tally(AscendingEvents(codec, sealed, lo, hi), p)
         == Tally(AscendingEvents(codec, sealed, lo, mid), p) + Tally(AscendingEvents(codec, sealed, mid, hi), p)
    decreases hi - mid
  {
    hide FileEvents, Tally;
    if mid == hi {
      TallyJoin(AscendingEvents(codec, sealed, lo, mid), [], p);
      assert AscendingEvents(codec, sealed, lo, mid) + [] == AscendingEvents(codec, sealed, lo, mid);
    } else {
      AscendingSplit(codec, sealed, lo, mid, hi - 1, p);
      TallyJoin(AscendingEvents(codec, sealed, lo, hi - 1), FileEvents(codec, sealed, hi - 1), p);
      TallyJoin(AscendingEvents(codec, sealed, mid, hi - 1), FileEvents(codec, sealed, hi - 1), p);
    }
  }

  /** Only the logs in the range matter. */
  lemma {:induction false} AscendingSame(codec: Codec, a: map<int, File>, b: map<int, File>, lo: int, hi: int)
    requires forall k :: k < hi ==> (k in a <==> k in b) && (k in a ==> a[k] == b[k])
    ensures AscendingEvents(codec, a, lo, hi) == AscendingEvents(codec, b, lo, hi)
    decreases hi - lo
  {
    if lo < hi {
      AscendingSame(codec, a, b, lo, hi - 1);
    }
  }

  // ----- The two tables -----

  /** What init counts after a restart, on the session that open starts. */
  function Rebuilt(codec: Codec, s: Session, w: nat, prior: int, cutoff: int): Tables {
    TrainAll(EMPTY, prior, cutoff, WindowEvents(codec, s.dir.sealed, s.counter - 1, w))
  }

  /** Each added event counts if it is newer than the cutoff in force when it arrives. */
  function Served(t: Tables, prior: int, actions: seq<Action>, cutoffs: seq<int>): Tables
    requires |actions| <= |cutoffs|
  {
    if actions == [] then t
    else
      var n := |actions| - 1;
      var before := Served(t, prior, actions[..n], cutoffs);
      match actions[n]
      case Add(e) => Train(before, prior, cutoffs[n], e)
      case Roll => before
  }

  lemma ServedNone(t: Tables, prior: int, cutoffs: seq<int>)
    ensures Served(t, prior, [], cutoffs) == t
  {
  }

  lemma ServedNext(t: Tables, prior: int, actions: seq<Action>, cutoffs: seq<int>, i: nat)
    requires i < |actions| <= |cutoffs|
    ensures var before := Served(t, prior, actions[..i], cutoffs);
            Served(t, prior, actions[..i + 1], cutoffs)
            == match actions[i] case Add(e) => Train(before, prior, cutoffs[i], e) case Roll => before
  {
    assert actions[..i + 1][..i] == actions[..i];
  }

  /** What a life of init and then added events and rollovers, with a cutoff that moves, has counted. */
  function Live(codec: Codec, s: Session, actions: seq<Action>, cutoffs: seq<int>, w: nat, prior: int,
                cutoff: int): Tables
    requires |actions| <= |cutoffs|
  {
    Served(Rebuilt(codec, s, w, prior, cutoff), prior, actions, cutoffs)
  }

  /** The added events that are newer than the cutoff when they arrive, or those that are too old already. */
  function Arriving(actions: seq<Action>, cutoffs: seq<int>, timely: bool): seq<Event>
    requires |actions| <= |cutoffs|
  {
    if actions == [] then []
    else
      var n := |actions| - 1;
      Arriving(actions[..n], cutoffs, timely)
      + (if actions[n].Add? && (TimeOf(actions[n].event) > cutoffs[n] <==> timely) then [actions[n].event] else [])
  }

  lemma {:induction false} ArrivalsAreAdded(actions: seq<Action>, cutoffs: seq<int>)
    requires |actions| <= |cutoffs|
    ensures multiset(Added(actions)) == multiset(Arriving(actions, cutoffs, true) + Arriving(actions, cutoffs, false))
  {
    if actions != [] {
      ArrivalsAreAdded(actions[..|actions| - 1], cutoffs);
    }
  }

  lemma {:induction false} ServedCountsTimely(t: Tables, prior: int, cutoff: int, actions: seq<Action>,
                                              cutoffs: seq<int>)
    requires |actions| <= |cutoffs| && forall i :: 0 <= i < |actions| ==> cutoff <= cutoffs[i]
    ensures Served(t, prior, actions, cutoffs) == TrainAll(t, prior, cutoff, Arriving(actions, cutoffs, true))
  {
    hide Count;
    if actions != [] {
      var n := |actions| - 1;
      ServedCountsTimely(t, prior, cutoff, actions[..n], cutoffs);
      var before := Arriving(actions[..n], cutoffs, true);
      assert actions[n].Add? ==> (before + [actions[n].event])[..|before|] == before;
      assert before + [] == before;
    }
  }

  /** The events that recovery replays and training then clears away. */
  ghost function Recovered(codec: Codec, s: Session): seq<Event> {
    DecodeAll(codec, Payload(s.Active()))
  }

  /** The events that the move of the cutoff from one life to the next has made too old. */
  function Aged(events: seq<Event>, cutoff: int): seq<Event> {
    if events == [] then []
    else
      var e := events[|events| - 1];
      Aged(events[..|events| - 1], cutoff) + (if TimeOf(e) <= cutoff then [e] else [])
  }

  /**
   * What a rebuild at number r does not see of a session from s to t: an event without a header, the logs that have
   * fallen out of the window, the logs at and above r, the active log, and what has become too old.
   */
  ghost function Missed(codec: Codec, s: Session, actions: seq<Action>, r: int, w: nat, later: int): seq<Event>
    requires s.Live()
  {
    var t := AfterActions(codec, s, actions);
    var low := Low(s.counter, w);
    HeadlessEvent(s, actions)
    + AscendingEvents(codec, t.dir.sealed, low, Low(r, w))
    + AscendingEvents(codec, t.dir.sealed, if r < low then low else r, t.counter)
    + DecodeAll(codec, Payload(t.Active()))
    + Aged(WindowEvents(codec, t.dir.sealed, r - 1, w), later)
  }

  lemma MissedTally(codec: Codec, s: Session, actions: seq<Action>, r: int, w: nat, later: int, p: Event -> bool)
    requires s.Live()
    ensures var t := AfterActions(codec, s, actions);
            var low := Low(s.counter, w);
            Tally(Missed(codec, s, actions, r, w, later), p)
            == Tally(HeadlessEvent(s, actions), p) + Tally(AscendingEvents(codec, t.dir.sealed, low, Low(r, w)), p)
               + Tally(AscendingEvents(codec, t.dir.sealed, if r < low then low else r, t.counter), p)
               + Tally(DecodeAll(codec, Payload(t.Active())), p)
               + Tally(Aged(WindowEvents(codec, t.dir.sealed, r - 1, w), later), p)
  {
    hide AfterActions, HeadlessEvent, AscendingEvents, DecodeAll, Aged, WindowEvents, Tally, AbstractLog, Low;
    var t := AfterActions(codec, s, actions);
    var low := Low(s.counter, w);
    var a, b := HeadlessEvent(s, actions), AscendingEvents(codec, t.dir.sealed, low, Low(r, w));
    var c := AscendingEvents(codec, t.dir.sealed, if r < low then low else r, t.counter);
    var d := DecodeAll(codec, Payload(t.Active()));
    TallyJoin(a, b, p);
    TallyJoin(a + b, c, p);
    TallyJoin(a + b + c, d, p);
    TallyJoin(a + b + c + d, Aged(WindowEvents(codec, t.dir.sealed, r - 1, w), later), p);
  }

  /** q is p for the events that are not too old. */
  lemma {:induction false} AgedTally(events: seq<Event>, cutoff: int, p: Event -> bool, q: Event -> bool)
    requires forall e :: q(e) <==> p(e) && TimeOf(e) > cutoff
    ensures Tally(events, p) == Tally(events, q) + Tally(Aged(events, cutoff), p)
  {
    if events != [] {
      var before, e := events[..|events| - 1], events[|events| - 1];
      AgedTally(before, cutoff, p, q);
      TallyJoin(Aged(before, cutoff), if TimeOf(e) <= cutoff then [e] else [], p);
    }
  }

  /** The session's events, by kind, among its own logs: what it recovered and what was added. */
  lemma SessionTally(codec: Codec, s: Session, actions: seq<Action>, p: Event -> bool)
    requires codec.RoundTrips() && Intact(s)
    ensures var t := AfterActions(codec, s, actions);
            t.counter >= s.counter
            && Tally(HeadlessEvent(s, actions), p)
               + Tally(AscendingEvents(codec, t.dir.sealed, s.counter, t.counter), p)
               + Tally(DecodeAll(codec, Payload(t.Active())), p)
               == Tally(Recovered(codec, s), p) + Tally(Added(actions), p)
  {
    hide AfterActions, HeadlessEvent, AscendingEvents, DecodeAll, Tally, AbstractLog, Added;
    EndToEndReplay(codec, s, actions);
    var t := AfterActions(codec, s, actions);
    var sealed := AscendingEvents(codec, t.dir.sealed, s.counter, t.counter);
    var active := DecodeAll(codec, Payload(t.Active()));
    TallyJoin(sealed, active, p);
    TallyJoin(HeadlessEvent(s, actions), sealed + active, p);
    TallyJoin(DecodeAll(codec, Payload(s.Active())), Added(actions), p);
  }

  lemma OlderWindowTally(codec: Codec, s: Session, actions: seq<Action>, w: nat, p: Event -> bool)
    requires s.Live() && s.counter >= 0
    ensures Tally(WindowEvents(codec, s.dir.sealed, s.counter - 1, w), p)
         == Tally(AscendingEvents(codec, AfterActions(codec, s, actions).dir.sealed, Low(s.counter, w), s.counter), p)
  {
    hide Tally, WindowEvents, AscendingEvents;
    SessionKeepsOlder(s, LogOps(codec, actions));
    AscendingSame(codec, s.dir.sealed, AfterActions(codec, s, actions).dir.sealed, Low(s.counter, w), s.counter);
    WindowTally(codec, s.dir.sealed, s.counter, w, p);
  }

  /** The sealed logs up to t, split at the window that a rebuild at r sees. */
  lemma RangeTally(codec: Codec, sealed: map<int, File>, c0: nat, c: int, r: nat, w: nat, p: Event -> bool)
    requires c0 <= c && (r == 0 || c0 <= r <= c)
    ensures var low := Low(c0, w);
            Tally(AscendingEvents(codec, sealed, low, c0), p) + Tally(AscendingEvents(codec, sealed, c0, c), p)
            == Tally(AscendingEvents(codec, sealed, low, Low(r, w)), p)
               + Tally(WindowEvents(codec, sealed, r - 1, w), p)
               + Tally(AscendingEvents(codec, sealed, if r < low then low else r, c), p)
  {
    hide Tally, WindowEvents;
    var low := Low(c0, w);
    WindowTally(codec, sealed, r, w, p);
    AscendingSplit(codec, sealed, low, c0, c, p);
    TallyNone(p);
    if low <= r {
      AscendingSplit(codec, sealed, low, r, c, p);
      AscendingSplit(codec, sealed, low, Low(r, w), r, p);
    }
  }

  lemma TallyNone(p: Event -> bool)
    ensures Tally([], p) == 0.0
  {
  }

  /** Whatever is tallied: the live count and the recovered events are the rebuilt count and the missed events. */
  lemma TallyBalance(codec: Codec, s: Session, actions: seq<Action>, r: nat, w: nat, later: int,
                     p: Event -> bool, q: Event -> bool)
    requires codec.RoundTrips() && Intact(s) && s.counter >= 0
    requires r == 0 || s.counter <= r <= AfterActions(codec, s, actions).counter
    requires forall e :: q(e) <==> p(e) && TimeOf(e) > later
    ensures Tally(WindowEvents(codec, s.dir.sealed, s.counter - 1, w) + Added(actions), p)
            + Tally(Recovered(codec, s), p)
         == Tally(WindowEvents(codec, AfterActions(codec, s, actions).dir.sealed, r - 1, w), q)
            + Tally(Missed(codec, s, actions, r, w, later), p)
  {
    hide Tally, WindowEvents, AscendingEvents, Added, Aged, Missed, Recovered, HeadlessEvent, AfterActions, DecodeAll,
      AbstractLog, Low;
    var t := AfterActions(codec, s, actions);
    TallyJoin(WindowEvents(codec, s.dir.sealed, s.counter - 1, w), Added(actions), p);
    OlderWindowTally(codec, s, actions, w, p);
    SessionTally(codec, s, actions, p);
    RangeTally(codec, t.dir.sealed, s.counter, t.counter, r, w, p);
    AgedTally(WindowEvents(codec, t.dir.sealed, r - 1, w), later, p, q);
    MissedTally(codec, s, actions, r, w, later, p);
  }

  /**
   * The rebuilt tables are the live ones exactly when the missed events count what the recovered events count, and
   * the added ones that were too old on arrival.
   */
  lemma RebuiltAt(codec: Codec, s: Session, actions: seq<Action>, u: Session, w: nat, prior: int,
                  cutoff: int, later: int, timely: seq<Event>, stale: seq<Event>)
    requires codec.RoundTrips() && Intact(s) && s.counter >= 0 && cutoff <= later
    requires multiset(Added(actions)) == multiset(timely + stale)
    requires u.dir.sealed == AfterActions(codec, s, actions).dir.sealed
    requires u.counter == 0 || s.counter <= u.counter <= AfterActions(codec, s, actions).counter
    ensures Rebuilt(codec, u, w, prior, later) == TrainAll(Rebuilt(codec, s, w, prior, cutoff), prior, cutoff, timely)
       <==> SameCounts(prior, Missed(codec, s, actions, u.counter, w, later), cutoff,
                       Recovered(codec, s) + stale, cutoff)
  {
    hide Tally, WindowEvents, Added, Missed, Recovered, AfterActions, TrainAll;
    var seen := WindowEvents(codec, u.dir.sealed, u.counter - 1, w);
    var older := WindowEvents(codec, s.dir.sealed, s.counter - 1, w);
    var counted := older + timely;
    TrainAllJoin(EMPTY, prior, cutoff, older, timely);
    TablesShowCounts(prior, seen, later, counted, cutoff);
    var missed, recovered := Missed(codec, s, actions, u.counter, w, later), Recovered(codec, s) + stale;
    forall p: Event -> bool
      ensures Tally(counted, p) + Tally(recovered, p)
           == Tally(older + Added(actions), p) + Tally(Recovered(codec, s), p)
    {
      TallyPermuted(Added(actions), timely + stale, p);
      TallyJoin(timely, stale, p);
      TallyJoin(older, timely, p);
      TallyJoin(older, Added(actions), p);
      TallyJoin(Recovered(codec, s), stale, p);
    }
    forall c
      ensures Tally(counted, InCategory(prior, cutoff, c)) + Tally(recovered, InCategory(prior, cutoff, c))
           == Tally(seen, InCategory(prior, later, c)) + Tally(missed, InCategory(prior, cutoff, c))
    {
      TallyBalance(codec, s, actions, u.counter, w, later, InCategory(prior, cutoff, c), InCategory(prior, later, c));
    }
    forall v: nat, c
      ensures Tally(counted, ByUser(cutoff, v, c)) + Tally(recovered, ByUser(cutoff, v, c))
           == Tally(seen, ByUser(later, v, c)) + Tally(missed, ByUser(cutoff, v, c))
    {
      TallyBalance(codec, s, actions, u.counter, w, later, ByUser(cutoff, v, c), ByUser(later, v, c));
    }
  }

  // ----- Lives that end in a crash -----

  /** A rollover that was cut off has sealed its log. */
  function Done(actions: seq<Action>, cut: nat): seq<Action> {
    if cut == 0 then actions else actions + [Roll]
  }

  lemma NextAction(codec: Codec, s: Session, actions: seq<Action>, a: Action)
    requires s.Live()
    ensures var t := AfterActions(codec, s, actions);
            AfterActions(codec, s, actions + [a])
            == match a case Add(e) => Written(t, Encode(codec, e)) case Roll => RolledOver(t)
    ensures Added(actions + [a]) == Added(actions) + (match a case Add(e) => [e] case Roll => [])
  {
    assert LogOps(codec, actions + [a])[..|actions|] == LogOps(codec, actions);
    assert (actions + [a])[..|actions|] == actions;
  }

  lemma {:induction false} RollsCounted(codec: Codec, actions: seq<Action>)
    ensures Rollovers(LogOps(codec, actions)) > 0 <==> Roll in actions
  {
    if actions != [] {
      var before := actions[..|actions| - 1];
      RollsCounted(codec, before);
      assert LogOps(codec, actions)[..|actions| - 1] == LogOps(codec, before);
      assert actions == before + [actions[|actions| - 1]];
    }
  }

  /** The number the log restarts with, and the sealed logs it finds, for a crash at any point. */
  lemma RestartAt(codec: Codec, s: Session, actions: seq<Action>, cut: nat, ds: seq<Directory>)
    requires s.Live() && s.counter == CounterOf(s.Active(), 0)
    requires cut <= 3 && CrashChain(AfterCut(AfterActions(codec, s, actions), cut), ds)
    ensures var t := AfterActions(codec, s, actions);
            var u := Reopened(ds);
            && t.counter >= s.counter && (Roll in actions ==> t.counter > s.counter)
            && u.dir.sealed == AfterActions(codec, s, Done(actions, cut)).dir.sealed
            && AfterActions(codec, s, Done(actions, cut)).counter == t.counter + (if cut == 0 then 0 else 1)
            && u.counter == (if cut == 0 then t.counter - (if Roll in actions then 1 else 0)
                             else if cut < 3 then 0 else t.counter)
  {
    hide Atoi, AbstractLog, Crashed;
    var t := AfterActions(codec, s, actions);
    SessionNumber(s, LogOps(codec, actions));
    SessionKeepsOlder(s, LogOps(codec, actions));
    RollsCounted(codec, actions);
    if cut == 0 {
      ChainKeepsLog(t, ds);
    } else {
      NextAction(codec, s, actions, Roll);
      CutLeaves(t, cut);
      ChainThenRestart(RolloverTrace(t)[cut - 1], ds);
    }
  }

  /**
   * The life of the object: init on any directory (with a number that is not negative, as in every run by
   * RestartCounter), added events and rollovers while eliminations move the cutoff, a crash at any point (inside a
   * rollover, and inside any number of the opens that follow), and init on what is left, no earlier than the first.
   * The tables are those of the life that ended if and only if what the rebuild misses counts what was recovered at
   * the start, which the life had cleared away, and what was too old when it was added.
   */
  lemma RebuildIsLive(codec: Codec, d: Directory, actions: seq<Action>, cutoffs: seq<int>, cut: nat, ds: seq<Directory>,
                      w: nat, prior: int, cutoff: int, later: int)
    requires codec.RoundTrips() && Restarted(d, 0).counter >= 0 && cutoff <= later
    requires |actions| <= |cutoffs| && forall i :: 0 <= i < |actions| ==> cutoff <= cutoffs[i]
    requires cut <= 3 && CrashChain(AfterCut(AfterActions(codec, Restarted(d, 0), actions), cut), ds)
    ensures var s, u := Restarted(d, 0), Reopened(ds);
            Rebuilt(codec, u, w, prior, later) == Live(codec, s, actions, cutoffs, w, prior, cutoff)
            <==> SameCounts(prior, Missed(codec, s, Done(actions, cut), u.counter, w, later), cutoff,
                            Recovered(codec, s) + Arriving(actions, cutoffs, false), cutoff)
  {
    hide Missed, Recovered, SameCounts, Reopened, Restarted, AfterActions, Added, Arriving, Served;
    var s := Restarted(d, 0);
    RestartIsIntact(d, 0);
    RestartKeepsLog(d, 0);
    RestartAt(codec, s, actions, cut, ds);
    NextAction(codec, s, actions, Roll);
    assert Added(Done(actions, cut)) == Added(actions);
    ArrivalsAreAdded(actions, cutoffs);
    ServedCountsTimely(Rebuilt(codec, s, w, prior, cutoff), prior, cutoff, actions, cutoffs);
    RebuiltAt(codec, s, Done(actions, cut), Reopened(ds), w, prior, cutoff, later,
              Arriving(actions, cutoffs, true), Arriving(actions, cutoffs, false));
  }

  // ----- When nothing that counts was recovered -----

  predicate Counted(prior: int, cutoff: int, e: Event) {
    TimeOf(e) > cutoff && (e.ClickEvent? || prior == 1)
  }

  predicate NoneCounted(prior: int, cutoff: int, events: seq<Event>) {
    forall e :: e in events ==> !Counted(prior, cutoff, e)
  }

  lemma {:induction false} TallyZero(events: seq<Event>, p: Event -> bool)
    ensures Tally(events, p) >= 0.0 && (Tally(events, p) == 0.0 <==> forall e :: e in events ==> !p(e))
  {
    if events != [] {
      var before := events[..|events| - 1];
      TallyZero(before, p);
      assert events == before + [events[|events| - 1]];
    }
  }

  lemma NoneCountedIsZero(prior: int, cutoff: int, events: seq<Event>)
    ensures NoneCounted(prior, cutoff, events) <==> SameCounts(prior, events, cutoff, [], cutoff)
  {
    hide Tally;
    forall p ensures Tally([], p) == 0.0 { TallyNone(p); }
    forall p ensures Tally(events, p) == 0.0 <==> forall e :: e in events ==> !p(e) { TallyZero(events, p); }
    if SameCounts(prior, events, cutoff, [], cutoff) {
      forall e | e in events ensures !Counted(prior, cutoff, e) {
        match e {
          case ClickEvent(k) =>
            var p := ByUser(cutoff, k.user, k.category);
            assert Tally(events, p) == Tally([], p);
            assert !p(e);
          case ItemEvent(i) =>
            var p := InCategory(prior, cutoff, i.category);
            assert Tally(events, p) == Tally([], p);
            assert !p(e);
        }
      }
    }
  }

  /**
   * If nothing that was recovered or came too late counts, as in a first life with one cutoff, a restart keeps the
   * tables if and only if nothing that counts was swallowed, has fallen out of the window, lies at or above the number
   * the log restarts with or in the active log, or has become too old.
   */
  lemma RestartKeepsTables(codec: Codec, d: Directory, actions: seq<Action>, cutoffs: seq<int>, cut: nat,
                           ds: seq<Directory>, w: nat, prior: int, cutoff: int, later: int)
    requires codec.RoundTrips() && Restarted(d, 0).counter >= 0 && cutoff <= later
    requires |actions| <= |cutoffs| && forall i :: 0 <= i < |actions| ==> cutoff <= cutoffs[i]
    requires cut <= 3 && CrashChain(AfterCut(AfterActions(codec, Restarted(d, 0), actions), cut), ds)
    requires NoneCounted(prior, cutoff, Recovered(codec, Restarted(d, 0)) + Arriving(actions, cutoffs, false))
    ensures var s, u := Restarted(d, 0), Reopened(ds);
            Rebuilt(codec, u, w, prior, later) == Live(codec, s, actions, cutoffs, w, prior, cutoff)
            <==> NoneCounted(prior, cutoff, Missed(codec, s, Done(actions, cut), u.counter, w, later))
  {
    hide Missed, Recovered, Reopened, Restarted, Rebuilt, Live, NoneCounted, AfterActions, Tally, Arriving;
    RebuildIsLive(codec, d, actions, cutoffs, cut, ds, w, prior, cutoff, later);
    var s, u := Restarted(d, 0), Reopened(ds);
    NoneCountedIsZero(prior, cutoff, Recovered(codec, s) + Arriving(actions, cutoffs, false));
    NoneCountedIsZero(prior, cutoff, Missed(codec, s, Done(actions, cut), u.counter, w, later));
  }

  // ----- Two lives with a loss and a gain -----

  lemma ClickShows(prior: int, cutoff: int, k: Click)
    requires k.publishTime > cutoff
    ensures TrainAll(EMPTY, prior, cutoff, [ClickEvent(k)]) == Train(EMPTY, prior, cutoff, ClickEvent(k)) != EMPTY
  {
    assert [ClickEvent(k)][..0] == [];
    assert k.user in Train(EMPTY, prior, cutoff, ClickEvent(k)).users;
  }

  lemma ServedTwo(t: Tables, prior: int, cutoff: int, a: Action)
    ensures Served(t, prior, [a, Roll], [cutoff, cutoff])
         == match a case Add(e) => Train(t, prior, cutoff, e) case Roll => t
  {
    hide Served, Train;
    ServedNone(t, prior, [cutoff, cutoff]);
    ServedNext(t, prior, [a, Roll], [cutoff, cutoff], 0);
    ServedNext(t, prior, [a, Roll], [cutoff, cutoff], 1);
    assert [a, Roll][..0] == [] && [a, Roll][..2] == [a, Roll];
  }

  /**
   * Add a click, roll over, restart: nothing is in the active log and nothing was lost on the disk, yet for every
   * window the tables come back empty, because the log restarts with the number it has just sealed.
   */
  lemma RolledClickIsForgotten(codec: Codec, k: Click, w: nat, prior: int, cutoff: int)
    requires codec.RoundTrips() && k.publishTime > cutoff
    ensures var s, actions := Restarted(NOTHING, 0), [Add(ClickEvent(k)), Roll];
            var t := AfterActions(codec, s, actions);
            && CrashChain(t.dir, [t.dir]) && Payload(t.Active()) == []
            && Rebuilt(codec, Reopened([t.dir]), w, prior, cutoff) == EMPTY
            && Live(codec, s, actions, [cutoff, cutoff], w, prior, cutoff) != EMPTY
  {
    var s, actions := Restarted(NOTHING, 0), [Add(ClickEvent(k)), Roll];
    var t := AfterActions(codec, s, actions);
    RestartKeepsLog(NOTHING, 0);
    AtoiInvertsItoa(0);
    SessionKeepsOlder(s, LogOps(codec, actions));
    OneRoll(codec, s, k);
    NoCrash(t.dir);
    RestartAt(codec, s, actions, 0, [t.dir]);
    ClickShows(prior, cutoff, k);
    ServedTwo(EMPTY, prior, cutoff, Add(ClickEvent(k)));
  }

  lemma NoActions(codec: Codec, s: Session)
    requires s.Live()
    ensures AfterActions(codec, s, []) == s && Added([]) == []
  {
  }

  lemma OneRoll(codec: Codec, s: Session, k: Click)
    requires s.Live() && s.counter == 0
    ensures var actions := [Add(ClickEvent(k)), Roll];
            && AfterActions(codec, s, actions).counter == 1 && Payload(AfterActions(codec, s, actions).Active()) == []
            && Added(actions) == [ClickEvent(k)] && Roll in actions
  {
    hide AfterActions, Added, AbstractLog;
    NoActions(codec, s);
    NextAction(codec, s, [], Add(ClickEvent(k)));
    NextAction(codec, s, [Add(ClickEvent(k))], Roll);
    assert [] + [Add(ClickEvent(k))] == [Add(ClickEvent(k))];
    assert [Add(ClickEvent(k))] + [Roll] == [Add(ClickEvent(k)), Roll];
    assert [Add(ClickEvent(k)), Roll][1] == Roll;
    RolledActive(Written(s, Encode(codec, ClickEvent(k))));
  }

  lemma RolledActive(s: Session)
    requires s.Live()
    ensures Payload(RolledOver(s).Active()) == []
  {
    HeaderActive(s.counter);
  }

  /**
   * The other way round: a click in the active log is cleared away by init, and comes back with the restart that
   * follows two rollovers.
   */
  lemma RecoveredClickReturns(codec: Codec, k: Click, w: nat, prior: int, cutoff: int)
    requires codec.RoundTrips() && k.publishTime > cutoff && w > 0
    ensures var d := Directory(Some(File(Recs([Itoa(0), Encode(codec, ClickEvent(k))]), 2)), None, map[]);
            var s, actions := Restarted(d, 0), [Roll, Roll];
            var t := AfterActions(codec, s, actions);
            && CrashChain(t.dir, [t.dir])
            && Live(codec, s, actions, [cutoff, cutoff], w, prior, cutoff) == EMPTY
            && Rebuilt(codec, Reopened([t.dir]), w, prior, cutoff) != EMPTY
  {
    hide Recs, Restarted, AfterActions, Added, WindowEvents, TrainAll, Crashed, Interrupted, AbstractLog, RolloverTrace;
    var d := Directory(Some(File(Recs([Itoa(0), Encode(codec, ClickEvent(k))]), 2)), None, map[]);
    var s, actions := Restarted(d, 0), [Roll, Roll];
    var t := AfterActions(codec, s, actions);
    RestartOfTwo(Encode(codec, ClickEvent(k)));
    NoCrash(t.dir);
    TwoRolls(codec, s);
    RestartAt(codec, s, actions, 0, [t.dir]);
    NothingSealed(codec, w);
    SealedClick(codec, t.dir.sealed, k, w);
    ClickShows(prior, cutoff, k);
    ServedTwo(EMPTY, prior, cutoff, Roll);
    TrainNone(prior, cutoff);
  }

  lemma NothingSealed(codec: Codec, w: nat)
    ensures WindowEvents(codec, map[], -1, w) == []
  {
  }

  lemma TrainNone(prior: int, cutoff: int)
    ensures TrainAll(EMPTY, prior, cutoff, []) == EMPTY
  {
  }

  lemma RestartOfTwo(data: string)
    requires data != ""
    ensures var d := Directory(Some(File(Recs([Itoa(0), data]), 2)), None, map[]);
            && Restarted(d, 0) == Session(d, 0) && CounterOf(Restarted(d, 0).Active(), 0) == 0
  {
    hide Readable, Atoi;
    AtoiInvertsItoa(0);
    ReadableRecs([Itoa(0), data]);
  }

  lemma TwoRolls(codec: Codec, s: Session)
    requires s.Live()
    ensures var t := AfterActions(codec, s, [Roll, Roll]);
            && t.counter == s.counter + 2 && Added([Roll, Roll]) == []
            && s.counter in t.dir.sealed && t.dir.sealed[s.counter] == s.dir.writing.value
  {
    hide AfterActions, Added, AbstractLog;
    NoActions(codec, s);
    NextAction(codec, s, [], Roll);
    NextAction(codec, s, [Roll], Roll);
    assert [] + [Roll] == [Roll] && [Roll] + [Roll] == [Roll, Roll];
  }

  lemma SealedClick(codec: Codec, sealed: map<int, File>, k: Click, w: nat)
    requires codec.RoundTrips() && w > 0
    requires 0 in sealed && sealed[0].entries == Recs([Itoa(0), Encode(codec, ClickEvent(k))])
    ensures WindowEvents(codec, sealed, 0, w) == [ClickEvent(k)]
  {
    var e := ClickEvent(k);
    DecodeInvertsEncode(codec, e);
    ReadableRecs([Encode(codec, e)]);
    assert sealed[0].entries[1..] == Recs([Encode(codec, e)]);
    assert DecodeAll(codec, [Encode(codec, e)]) == [e];
  }
}
