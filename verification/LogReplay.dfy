// Reading back what one session of the periodic log has written, in src/core/periodic_log.cpp.

module LogReplay {
  import opened Decimal
  import opened LogFiles
  import opened LogRuns

  /** Every entry of the active file can be read back; the file may still be without a header. */
  ghost predicate Intact(s: Session) {
    s.Live() && |s.Active()| == |s.dir.writing.value.entries|
  }

  /** The operations between two restarts; every record written is non-empty. */
  ghost predicate InSession(ops: seq<Op>) {
    forall i :: 0 <= i < |ops| ==> ops[i].Rollover? || (ops[i].Write? && ops[i].data != "")
  }

  ghost function After(s: Session, ops: seq<Op>): (t: Session)
    requires s.Live() && InSession(ops)
    ensures t.Live()
  {
    if ops == [] then s else Apply(After(s, ops[..|ops| - 1]), ops[|ops| - 1])
  }

  function WritesOf(ops: seq<Op>): seq<string> {
    if ops == [] then []
    else WritesOf(ops[..|ops| - 1]) + (if ops[|ops| - 1].Write? then [ops[|ops| - 1].data] else [])
  }

  function Rollovers(ops: seq<Op>): nat {
    if ops == [] then 0 else Rollovers(ops[..|ops| - 1]) + (if ops[|ops| - 1].Rollover? then 1 else 0)
  }

  /** What a reader of a sealed file gets after the header record that opening it consumes. */
  function FileRecords(f: File): seq<string> {
    if f.entries == [] || f.entries[0].Torn? then [] else Readable(f.entries[1..])
  }

  /** The records of the sealed logs lo .. hi-1 in ascending order; a missing log contributes nothing. */
  function SealedRecords(sealed: map<int, File>, lo: int, hi: int): seq<string>
    decreases hi - lo
  {
    if lo >= hi then []
    else SealedRecords(sealed, lo, hi - 1) + (if hi - 1 in sealed then FileRecords(sealed[hi - 1]) else [])
  }

  /** The sealed logs from number lo on, then the active log. */
  ghost function Replay(s: Session, lo: int): seq<string> {
    SealedRecords(s.dir.sealed, lo, s.counter) + Payload(s.Active())
  }

  lemma {:induction false} SealedRecordsOutside(sealed: map<int, File>, lo: int, hi: int, k: int, f: File)
    requires k >= hi
    ensures SealedRecords(sealed[k := f], lo, hi) == SealedRecords(sealed, lo, hi)
    decreases hi - lo
  {
    if lo < hi {
      SealedRecordsOutside(sealed, lo, hi - 1, k, f);
    }
  }

  /** The records that lie before a header: the first one written to a log that has none. */
  ghost function Headless(s: Session, ops: seq<Op>): seq<string> {
    if s.Active() == [] && ops != [] && ops[0].Write? then [ops[0].data] else []
  }

  /** Whatever a restart finds, the session it starts can read back all of its active file. */
  lemma RestartIsIntact(d: Directory, counter: int)
    ensures Intact(Restarted(d, counter))
  {
    hide Readable;
    RestartKeepsLog(d, counter);
    AbstractLogNonEmpty(d);
    ReadableRecs(AbstractLog(d));
    HeaderActive(counter);
  }

  lemma WriteAppends(s: Session, data: string)
    requires Intact(s) && data != ""
    ensures Intact(Written(s, data)) && Written(s, data).Active() == s.Active() + [data]
  {
    ReadableSplit(s.dir.writing.value.entries, [Rec(data)]);
    assert Recs([data]) == [Rec(data)];
    ReadableRecs([data]);
  }

  /** A record written is a record replayed if and only if the active file has its header. */
  lemma WriteIsReplayed(s: Session, data: string)
    requires Intact(s) && data != ""
    ensures Payload(Written(s, data).Active()) == Payload(s.Active()) + [data] <==> s.Active() != []
  {
    WriteAppends(s, data);
  }

  /** Only the very first record of a session can be headless. */
  lemma {:induction false} SessionStaysIntact(s: Session, ops: seq<Op>)
    requires Intact(s) && InSession(ops)
    ensures var t := After(s, ops);
            && Intact(t) && t.counter == s.counter + Rollovers(ops)
            && (t.Active() == [] <==> s.Active() == [] && ops == [])
            && (forall k :: s.counter <= k < t.counter ==> k in t.dir.sealed)
    decreases |ops|
  {
    hide Readable;
    if ops != [] {
      SessionStaysIntact(s, ops[..|ops| - 1]);
      var u := After(s, ops[..|ops| - 1]);
      match ops[|ops| - 1] {
        case Write(data) => WriteAppends(u, data);
        case Rollover => HeaderActive(u.counter);
      }
    }
  }

  /**
   * Reading this session's sealed logs in ascending order and then the active log gives back what was recovered at
   * the start followed by exactly the records written, in order, but for the first record written to a log without a
   * header.
   */
  lemma {:induction false} SessionReplay(s: Session, ops: seq<Op>)
    requires Intact(s) && InSession(ops)
    ensures Headless(s, ops) + Replay(After(s, ops), s.counter) == Payload(s.Active()) + WritesOf(ops)
    decreases |ops|
  {
    hide Replay, WritesOf, AbstractLog;
    if ops == [] {
      ReplayStart(s);
    } else {
      var before := ops[..|ops| - 1];
      var u := After(s, before);
      SessionReplay(s, before);
      SessionStaysIntact(s, before);
      WritesNext(ops);
      match ops[|ops| - 1] {
        case Write(data) =>
          WriteReplays(u, s.counter, data);
          if before == [] {
            ReplayStart(s);
          }
          assert (Headless(s, before) + Replay(u, s.counter)) + [data]
              == Headless(s, before) + (Replay(u, s.counter) + [data]);
        case Rollover => RolloverSeals(u, s.counter);
      }
    }
  }

  lemma ReplayStart(s: Session)
    ensures Replay(s, s.counter) == Payload(s.Active()) && WritesOf([]) == []
  {
  }

  lemma WritesNext(ops: seq<Op>)
    requires ops != []
    ensures var op, before := ops[|ops| - 1], ops[..|ops| - 1];
            forall a :: a + WritesOf(ops) == (a + WritesOf(before)) + (if op.Write? then [op.data] else [])
  {
  }

  lemma WriteReplays(s: Session, lo: int, data: string)
    requires Intact(s) && data != ""
    ensures Intact(Written(s, data)) && Written(s, data).Active() != []
    ensures Replay(Written(s, data), lo) == if s.Active() == [] then Replay(s, lo) else Replay(s, lo) + [data]
  {
    WriteAppends(s, data);
    var sealed := SealedRecords(s.dir.sealed, lo, s.counter);
    assert sealed + (Payload(s.Active()) + [data]) == (sealed + Payload(s.Active())) + [data];
  }

  lemma RolloverSeals(s: Session, lo: int)
    requires Intact(s) && lo <= s.counter
    ensures Intact(RolledOver(s)) && RolledOver(s).Active() != [] && Replay(RolledOver(s), lo) == Replay(s, lo)
  {
    SealedRecordsOutside(s.dir.sealed, lo, s.counter, s.counter, s.dir.writing.value);
    HeaderActive(s.counter);
  }

  /** A session never touches the logs sealed below the number it started with. */
  lemma {:induction false} SessionKeepsOlder(s: Session, ops: seq<Op>)
    requires s.Live() && InSession(ops)
    ensures After(s, ops).counter == s.counter + Rollovers(ops)
    ensures forall k :: k < s.counter ==>
              (k in After(s, ops).dir.sealed <==> k in s.dir.sealed)
              && (k in s.dir.sealed ==> After(s, ops).dir.sealed[k] == s.dir.sealed[k])
    decreases |ops|
  {
    if ops != [] {
      SessionKeepsOlder(s, ops[..|ops| - 1]);
    }
  }

  /** The number a restart falls back to trails the counter by one once the session has rolled over. */
  lemma {:induction false} SessionNumber(s: Session, ops: seq<Op>)
    requires s.Live() && InSession(ops) && s.counter == CounterOf(s.Active(), 0)
    requires forall i :: 0 <= i < |ops| && ops[i].Write? ==> IsRecord(ops[i].data)
    ensures CounterOf(After(s, ops).Active(), 0) == After(s, ops).counter - (if Rollovers(ops) > 0 then 1 else 0)
    decreases |ops|
  {
    hide Atoi, Readable, AbstractLog, IsRecord;
    if ops != [] {
      var before := ops[..|ops| - 1];
      SessionNumber(s, before);
      var u := After(s, before);
      match ops[|ops| - 1] {
        case Write(data) => WriteKeepsNumber(u, data);
        case Rollover =>
          HeaderActive(u.counter);
          RolledNumber(u);
      }
    }
  }

  lemma RolledNumber(s: Session)
    requires s.Live()
    ensures CounterOf(RolledOver(s).Active(), 0) == s.counter
  {
    HeaderActive(s.counter);
    AtoiInvertsItoa(s.counter);
  }
}
