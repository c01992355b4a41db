// The event table of src/core/dist_table.cpp: clicks and items as tagged records of a periodic log, and the windowed
// readers that replay or eliminate the sealed logs.

module DistTables {
  import opened Options
  import opened LogFiles
  import opened LogRuns
  import opened LogReplay
  import opened PeriodicLogs

  const SECONDS_PER_HOUR := 3600

  datatype Click = Click(user: nat, category: int, publishTime: int)
  datatype Item = Item(id: nat, category: int, publishTime: int)
  datatype Event = ClickEvent(click: Click) | ItemEvent(item: Item)

  /** The message serialisation, which is not part of this model: any pair of encoders and parsers. */
  datatype Codec = Codec(
    clickBytes: Click -> string, parseClick: string -> Option<Click>,
    itemBytes: Item -> string, parseItem: string -> Option<Item>)
  {
    ghost predicate RoundTrips() {
      && (forall c: Click :: parseClick(clickBytes(c)) == Some(c))
      && (forall i: Item :: parseItem(itemBytes(i)) == Some(i))
    }
  }

  function Encode(codec: Codec, e: Event): string {
    match e
    case ClickEvent(c) => ['C'] + codec.clickBytes(c)
    case ItemEvent(i) => ['I'] + codec.itemBytes(i)
  }

  /** None for an unknown tag or a message that does not parse; such a record is skipped. */
  function Decode(codec: Codec, data: string): Option<Event> {
    if data == "" then None
    else if data[0] == 'C' then
      var c := codec.parseClick(data[1..]);
      if c.None? then None else Some(ClickEvent(c.value))
    else if data[0] == 'I' then
      var i := codec.parseItem(data[1..]);
      if i.None? then None else Some(ItemEvent(i.value))
    else None
  }

  function DecodeAll(codec: Codec, records: seq<string>): seq<Event> {
    if records == [] then []
    else
      var e := Decode(codec, records[0]);
      (if e.None? then [] else [e.value]) + DecodeAll(codec, records[1..])
  }

  function EncodeAll(codec: Codec, events: seq<Event>): seq<string> {
    seq(|events|, i requires 0 <= i < |events| => Encode(codec, events[i]))
  }

  lemma DecodeInvertsEncode(codec: Codec, e: Event)
    requires codec.RoundTrips()
    ensures Encode(codec, e) != "" && Decode(codec, Encode(codec, e)) == Some(e)
    ensures Encode(codec, e)[0] == if e.ClickEvent? then 'C' else 'I'
  {
  }

  /** Only a record with the tag of its kind is decoded, and only if its message parses. */
  lemma DecodeNeedsTag(codec: Codec, data: string)
    ensures Decode(codec, data).Some? <==>
              data != "" && ((data[0] == 'C' && codec.parseClick(data[1..]).Some?)
                             || (data[0] == 'I' && codec.parseItem(data[1..]).Some?))
    ensures Decode(codec, data).Some? ==> (Decode(codec, data).value.ClickEvent? <==> data[0] == 'C')
  {
  }

  lemma {:induction false} DecodeAllInverts(codec: Codec, events: seq<Event>)
    requires codec.RoundTrips()
    ensures DecodeAll(codec, EncodeAll(codec, events)) == events
  {
    if events != [] {
      DecodeInvertsEncode(codec, events[0]);
      DecodeAllInverts(codec, events[1..]);
      assert EncodeAll(codec, events)[1..] == EncodeAll(codec, events[1..]);
    }
  }

  lemma {:induction false} DecodeAllJoin(codec: Codec, a: seq<string>, b: seq<string>)
    ensures DecodeAll(codec, a + b) == DecodeAll(codec, a) + DecodeAll(codec, b)
  {
    if a == [] {
      assert a + b == b;
    } else {
      assert (a + b)[1..] == a[1..] + b;
      DecodeAllJoin(codec, a[1..], b);
    }
  }

  /** The first pos records have been handled and have delivered these events. */
  ghost predicate Delivered(codec: Codec, records: seq<string>, pos: nat, events: seq<Event>) {
    pos <= |records| && DecodeAll(codec, records) == events + DecodeAll(codec, records[pos..])
  }

  lemma DeliverNext(codec: Codec, records: seq<string>, pos: nat, events: seq<Event>)
    requires pos < |records| && Delivered(codec, records, pos, events)
    ensures var e := Decode(codec, records[pos]);
            Delivered(codec, records, pos + 1, if e.None? then events else events + [e.value])
  {
  }

  // ----- Windows over the sealed logs -----

  function FileEvents(codec: Codec, sealed: map<int, File>, n: int): seq<Event> {
    if n in sealed then DecodeAll(codec, FileRecords(sealed[n])) else []
  }

  /** The events of the logs top, top-1, ... down to number 0, at most w of them, newest log first. */
  function WindowEvents(codec: Codec, sealed: map<int, File>, top: int, w: nat): seq<Event>
    decreases w
  {
    if w == 0 || top < 0 then []
    else FileEvents(codec, sealed, top) + WindowEvents(codec, sealed, top - 1, w - 1)
  }

  /** The sealed logs of a window whose age, counted from last, has reached the limit. */
  ghost function Expired(sealed: map<int, File>, last: int, w: int, age: int): set<int> {
    set n | n in sealed && 0 <= n && age <= last - n < w && n <= last
  }

  ghost function Only(sealed: map<int, File>, numbers: set<int>): map<int, File> {
    map n | n in sealed && n in numbers :: sealed[n]
  }

  /** The same events in ascending order of log number. */
  function AscendingEvents(codec: Codec, sealed: map<int, File>, lo: int, hi: int): seq<Event>
    decreases hi - lo
  {
    if lo >= hi then [] else AscendingEvents(codec, sealed, lo, hi - 1) + FileEvents(codec, sealed, hi - 1)
  }

  lemma {:induction false} AscendingIsDecoded(codec: Codec, sealed: map<int, File>, lo: int, hi: int)
    ensures AscendingEvents(codec, sealed, lo, hi) == DecodeAll(codec, SealedRecords(sealed, lo, hi))
    decreases hi - lo
  {
    if lo < hi {
      AscendingIsDecoded(codec, sealed, lo, hi - 1);
      DecodeAllJoin(codec, SealedRecords(sealed, lo, hi - 1),
                    if hi - 1 in sealed then FileRecords(sealed[hi - 1]) else []);
    }
  }

  /** Newest-first replay delivers the same events as ascending replay, each as often. */
  lemma {:induction false} WindowIsPermutation(codec: Codec, sealed: map<int, File>, lo: nat, hi: nat)
    requires lo <= hi
    ensures multiset(WindowEvents(codec, sealed, hi - 1, hi - lo)) == multiset(AscendingEvents(codec, sealed, lo, hi))
    decreases hi - lo
  {
    hide FileEvents;
    if lo < hi {
      WindowIsPermutation(codec, sealed, lo, hi - 1);
      Exchange(FileEvents(codec, sealed, hi - 1), WindowEvents(codec, sealed, hi - 2, hi - 1 - lo),
               AscendingEvents(codec, sealed, lo, hi - 1));
    }
  }

  lemma Exchange(a: seq<Event>, b: seq<Event>, c: seq<Event>)
    requires multiset(b) == multiset(c)
    ensures multiset(a + b) == multiset(c + a)
  {
  }

  // ----- End to end: adding, rolling over, reading back -----

  datatype Action = Add(event: Event) | Roll

  function LogOps(codec: Codec, actions: seq<Action>): (ops: seq<Op>)
    ensures InSession(ops) && forall i :: 0 <= i < |ops| && ops[i].Write? ==> IsRecord(ops[i].data)
  {
    seq(|actions|, i requires 0 <= i < |actions| =>
      match actions[i] case Add(e) => Write(Encode(codec, e)) case Roll => Rollover)
  }

  function Added(actions: seq<Action>): seq<Event> {
    if actions == [] then []
    else Added(actions[..|actions| - 1]) + (match actions[|actions| - 1] case Add(e) => [e] case Roll => [])
  }

  lemma {:induction false} WritesAreAdded(codec: Codec, actions: seq<Action>)
    ensures WritesOf(LogOps(codec, actions)) == EncodeAll(codec, Added(actions))
  {
    if actions != [] {
      var before := actions[..|actions| - 1];
      WritesAreAdded(codec, before);
      assert LogOps(codec, actions)[..|actions| - 1] == LogOps(codec, before);
    }
  }

  ghost function AfterActions(codec: Codec, s: Session, actions: seq<Action>): (t: Session)
    requires s.Live()
    ensures t.Live()
  {
    After(s, LogOps(codec, actions))
  }

  /** The event that a log without a header takes for its header. */
  ghost function HeadlessEvent(s: Session, actions: seq<Action>): seq<Event> {
    if s.Active() == [] && actions != [] && actions[0].Add? then [actions[0].event] else []
  }

  /**
   * Whatever the interleaving of added events and rollovers, the session's sealed logs in ascending order and then
   * the active log read back as exactly the added events, in order, after what was recovered at the start; an event
   * is lost only as the first one added to a log without a header.
   */
  lemma EndToEndReplay(codec: Codec, s: Session, actions: seq<Action>)
    requires codec.RoundTrips() && Intact(s)
    ensures AfterActions(codec, s, actions).counter >= s.counter
    ensures var t := AfterActions(codec, s, actions);
            HeadlessEvent(s, actions)
            + (AscendingEvents(codec, t.dir.sealed, s.counter, t.counter) + DecodeAll(codec, Payload(t.Active())))
            == DecodeAll(codec, Payload(s.Active())) + Added(actions)
  {
    hide After, AbstractLog, SealedRecords, AscendingEvents, WritesOf, Added, DecodeAll;
    var ops := LogOps(codec, actions);
    var t := After(s, ops);
    SessionKeepsOlder(s, ops);
    SessionReplay(s, ops);
    AscendingIsDecoded(codec, t.dir.sealed, s.counter, t.counter);
    DecodeAllJoin(codec, SealedRecords(t.dir.sealed, s.counter, t.counter), Payload(t.Active()));
    DecodeAllJoin(codec, Headless(s, ops), Replay(t, s.counter));
    WritesAreAdded(codec, actions);
    DecodeAllJoin(codec, Payload(s.Active()), WritesOf(ops));
    DecodeAllInverts(codec, Added(actions));
    HeadlessDecodes(codec, s, actions);
  }

  lemma HeadlessDecodes(codec: Codec, s: Session, actions: seq<Action>)
    requires codec.RoundTrips()
    ensures DecodeAll(codec, Headless(s, LogOps(codec, actions))) == HeadlessEvent(s, actions)
  {
    if actions != [] && actions[0].Add? {
      DecodeInvertsEncode(codec, actions[0].event);
    }
  }

  /** The first j numbers of the window have been visited: the expired ones among them are gone. */
  ghost predicate Swept(sealed: map<int, File>, last: int, w: nat, age: int, j: nat, gone: set<int>) {
    j <= w && forall n :: n in gone <==> n in Expired(sealed, last, w, age) && n > last - j
  }

  lemma SweepStart(sealed: map<int, File>, last: int, w: nat, age: int)
    ensures Swept(sealed, last, w, age, 0, {})
  {
  }

  lemma SweepNext(sealed: map<int, File>, last: int, w: nat, age: int, j: nat, gone: set<int>)
    requires Swept(sealed, last, w, age, j, gone) && j < w && last - j >= 0
    ensures last - j !in gone
    ensures last - j in Expired(sealed, last, w, age) <==> last - j in sealed && age <= j
    ensures Swept(sealed, last, w, age, j + 1, if last - j in sealed && age <= j then gone + {last - j} else gone)
  {
  }

  lemma SweepComplete(sealed: map<int, File>, last: int, w: nat, age: int, j: nat, gone: set<int>)
    requires Swept(sealed, last, w, age, j, gone) && (j == w || last - j < 0)
    ensures gone == Expired(sealed, last, w, age)
  {
    forall n ensures n in gone <==> n in Expired(sealed, last, w, age) {}
  }

  /** Reading the top log of a window before the rest of it. */
  lemma WindowNext(codec: Codec, sealed: map<int, File>, top: int, w: nat, events: seq<Event>)
    requires w > 0 && top >= 0
    ensures events + WindowEvents(codec, sealed, top, w)
         == (if top in sealed then events + DecodeAll(codec, FileRecords(sealed[top])) else events)
            + WindowEvents(codec, sealed, top - 1, w - 1)
  {
    hide DecodeAll, FileRecords;
    var rest, read := WindowEvents(codec, sealed, top - 1, w - 1), FileEvents(codec, sealed, top);
    assert events + (read + rest) == (events + read) + rest;
    assert read == [] ==> events + read == events;
  }

  // ----- The table object -----

  class DistTable {
    const codec: Codec
    const log: PeriodicLog
    const window: nat

    constructor (codec: Codec, log: PeriodicLog, window: nat)
      ensures this.codec == codec && this.log == log && this.window == window
    {
      this.codec, this.log, this.window := codec, log, window;
    }

    /** Opens the log; the result is the events handed to the recovery callbacks, in order. */
    method Init() returns (recovered: seq<Event>)
      modifies log
      ensures log.State() == Restarted(old(log.dir), 0)
      ensures recovered == DecodeAll(codec, Payload(AbstractLog(old(log.dir))))
    {
      var visited := log.Open(0);
      recovered := [];
      for i := 0 to |visited|
        invariant Delivered(codec, visited, i, recovered)
        invariant log.State() == Restarted(old(log.dir), 0)
      {
        DeliverNext(codec, visited, i, recovered);
        var e := Decode(codec, visited[i]);
        if e.Some? {
          recovered := recovered + [e.value];
        }
      }
    }

    method AddEvent(e: Event)
      requires log.State().Live()
      modifies log
      ensures log.State() == Written(old(log.State()), Encode(codec, e))
    {
      log.Write(Encode(codec, e));
    }

    method Rollover()
      requires log.State().Live()
      modifies log
      ensures log.State() == RolledOver(old(log.State()))
    {
      log.Rollover();
    }

    /** Reads one sealed file; the result is the events handed to the callbacks, in order. */
    method ReadPeriodicLog(file: File) returns (events: seq<Event>)
      ensures events == DecodeAll(codec, FileRecords(file))
    {
      events := [];
      if file.entries == [] || file.entries[0].Torn? { return; }
      var reader := file.entries[1..];
      var pos := 0;
      ghost var records := FileRecords(file);
      assert reader[0..] == reader;
      while true
        invariant Reading(records, reader, pos) && Delivered(codec, records, pos, events)
        decreases |reader| - pos
      {
        ReadNext(records, reader, pos);
        if pos == |reader| || reader[pos].Torn? { break; }
        var data := reader[pos].data;
        if |data| <= 0 { break; }
        DeliverNext(codec, records, pos, events);
        pos := pos + 1;
        var e := Decode(codec, data);
        if e.None? { continue; }
        events := events + [e.value];
      }
    }

    /** Replays the window below the counter, newest log first. */
    method TrainPeriodicLog() returns (events: seq<Event>)
      ensures events == WindowEvents(codec, log.dir.sealed, log.lastCounter - 1, window)
    {
      hide DecodeAll, FileRecords;
      var counter := log.lastCounter - 1;
      ghost var all := WindowEvents(codec, log.dir.sealed, counter, window);
      events := [];
      var j := 0;
      while j < window && counter >= 0
        invariant j <= window && all == events + WindowEvents(codec, log.dir.sealed, counter, window - j)
      {
        WindowNext(codec, log.dir.sealed, counter, window - j, events);
        if counter in log.dir.sealed {
          var read := ReadPeriodicLog(log.dir.sealed[counter]);
          events := events + read;
        }
        j, counter := j + 1, counter - 1;
      }
    }

    /** Replays and removes the logs of the window that have reached the age limit. */
    method EliminatePeriodicLog(ageLimit: int) returns (events: seq<Event>)
      modifies log
      ensures log.lastCounter == old(log.lastCounter)
      ensures log.dir == old(log.dir).(sealed :=
                old(log.dir.sealed) - Expired(old(log.dir.sealed), log.lastCounter - 1, window, ageLimit))
      ensures var expired := Expired(old(log.dir.sealed), log.lastCounter - 1, window, ageLimit);
              events == WindowEvents(codec, Only(old(log.dir.sealed), expired), log.lastCounter - 1, window)
    {
      hide DecodeAll, FileRecords, Swept, Expired;
      ghost var sealed := log.dir.sealed;
      var last := log.lastCounter - 1;
      ghost var gone: set<int> := {};
      ghost var doomed := Only(sealed, Expired(sealed, last, window, ageLimit));
      SweepStart(sealed, last, window, ageLimit);
      var counter, j := last, 0;
      events := [];
      while j < window && counter >= 0
        invariant j <= window && counter == last - j
        invariant log.dir == old(log.dir).(sealed := sealed - gone)
        invariant log.lastCounter == old(log.lastCounter)
        invariant Swept(sealed, last, window, ageLimit, j, gone)
        invariant WindowEvents(codec, doomed, last, window) == events + WindowEvents(codec, doomed, counter, window - j)
      {
        SweepNext(sealed, last, window, ageLimit, j, gone);
        WindowNext(codec, doomed, counter, window - j, events);
        if counter in log.dir.sealed && NeedEliminate(last, counter, ageLimit) {
          var read := ReadPeriodicLog(log.dir.sealed[counter]);
          events := events + read;
          log.RemoveSealed(counter);
          assert sealed - gone - {counter} == sealed - (gone + {counter});
          gone := gone + {counter};
        }
        j, counter := j + 1, counter - 1;
      }
      SweepComplete(sealed, last, window, ageLimit, j, gone);
    }

    predicate NeedEliminate(lastCounter: int, counter: int, ageLimit: int) {
      if lastCounter - counter < ageLimit then false else true
    }
  }

  /** With the age limit at or beyond the window nothing is ever old enough to be removed. */
  lemma NothingExpires(last: int, w: int, age: int)
    ensures (forall s: map<int, File> :: Expired(s, last, w, age) == {})
       <==> age >= w || age > last || w <= 0 || last < 0
  {
    if !(age >= w || age > last || w <= 0 || last < 0) {
      var n := if age < 0 then last else last - age;
      var s: map<int, File> := map[n := File([], 0)];
      assert n in Expired(s, last, w, age);
    }
  }
}
