// The log object of src/core/periodic_log.cpp, whose open, recovery and rollover are sequences of file operations.

module PeriodicLogs {
  import opened Options
  import opened Decimal
  import opened LogFiles
  import opened LogRuns

  lemma OpenTraceFromRecovering(d: Directory, counter: int, before: seq<Directory>)
    requires d.recovering.Some?
    ensures (before + [Copied(d, 0)]) + CopyTrace(d, |AbstractLog(d)|) + [Flushed(d), Flushed(d).(recovering := None)]
         == before + OpenTrace(d, counter)
  {
  }

  lemma OpenTraceFromWriting(d: Directory, counter: int, before: seq<Directory>)
    requires d.recovering.None? && d.writing.Some?
    ensures (before + [Renamed(d)] + [Copied(d, 0)]) + CopyTrace(d, |AbstractLog(d)|)
            + [Flushed(d), Flushed(d).(recovering := None)]
         == before + OpenTrace(d, counter)
  {
  }

  /** The first pos entries have been read; the rest of the log is what a reader still gets. */
  ghost predicate Reading(log: seq<string>, reader: seq<Entry>, pos: nat) {
    pos <= |log| && pos <= |reader| && log == log[..pos] + Readable(reader[pos..])
  }

  lemma ReadNext(log: seq<string>, reader: seq<Entry>, pos: nat)
    requires Reading(log, reader, pos)
    ensures var stop := pos == |reader| || reader[pos].Torn? || reader[pos].data == "";
            && (stop ==> pos == |log|)
            && (!stop ==> pos < |log| && log[pos] == reader[pos].data && Reading(log, reader, pos + 1))
            && (!stop ==> Payload(log[..pos + 1]) == if pos == 0 then [] else Payload(log[..pos]) + [log[pos]])
  {
  }

  lemma CopyNext(d: Directory, pos: nat)
    requires pos < |AbstractLog(d)|
    ensures var log := AbstractLog(d);
            Recs(log[..pos + 1]) == Recs(log[..pos]) + [Rec(log[pos])]
    ensures CopyTrace(d, pos + 1) == CopyTrace(d, pos) + [Copied(d, pos + 1)]
  {
  }

  class PeriodicLog {
    var dir: Directory
    var lastCounter: int
    ghost var trace: seq<Directory>  // the directory after each file operation of this object

    constructor (dir: Directory)
      ensures this.dir == dir && trace == []
    {
      this.dir, lastCounter, trace := dir, 0, [];
    }

    ghost function State(): Session
      reads this
    {
      Session(dir, lastCounter)
    }

    // The file operations; each is one step that a crash may follow.

    method RenameToRecovering()
      requires dir.recovering.None? && dir.writing.Some?
      modifies this
      ensures dir == Renamed(old(dir)) && trace == old(trace) + [dir] && lastCounter == old(lastCounter)
    {
      dir := Directory(None, dir.writing, dir.sealed);
      trace := trace + [dir];
    }

    method Create()
      modifies this
      ensures dir == old(dir).(writing := Some(File([], 0)))
      ensures trace == old(trace) + [dir] && lastCounter == old(lastCounter)
    {
      dir := dir.(writing := Some(File([], 0)));
      trace := trace + [dir];
    }

    method Append(data: string, flush: bool)
      requires dir.writing.Some?
      modifies this
      ensures var f := old(dir.writing.value);
              dir == old(dir).(writing :=
                Some(File(f.entries + [Rec(data)], if flush then |f.entries| + 1 else f.synced)))
      ensures trace == old(trace) + [dir] && lastCounter == old(lastCounter)
    {
      var f := dir.writing.value;
      dir := dir.(writing := Some(File(f.entries + [Rec(data)], if flush then |f.entries| + 1 else f.synced)));
      trace := trace + [dir];
    }

    method Flush()
      requires dir.writing.Some?
      modifies this
      ensures dir == old(dir).(writing := Some(File(old(dir.writing.value.entries), |old(dir.writing.value.entries)|)))
      ensures trace == old(trace) + [dir] && lastCounter == old(lastCounter)
    {
      dir := dir.(writing := Some(File(dir.writing.value.entries, |dir.writing.value.entries|)));
      trace := trace + [dir];
    }

    method RemoveRecovering()
      modifies this
      ensures dir == old(dir).(recovering := None) && trace == old(trace) + [dir] && lastCounter == old(lastCounter)
    {
      dir := dir.(recovering := None);
      trace := trace + [dir];
    }

    method RemoveSealed(n: int)
      modifies this
      ensures dir == old(dir).(sealed := old(dir.sealed) - {n})
      ensures trace == old(trace) + [dir] && lastCounter == old(lastCounter)
    {
      dir := dir.(sealed := dir.sealed - {n});
      trace := trace + [dir];
    }

    /** Opens or recovers the log; visited are the records handed to the visitor. */
    method Open(counter: int) returns (visited: seq<string>)
      modifies this
      ensures State() == Restarted(old(dir), counter)
      ensures trace == old(trace) + OpenTrace(old(dir), counter)
      ensures visited == Payload(AbstractLog(old(dir)))
    {
      ghost var d := dir;
      assert Recs(AbstractLog(d)[..0]) == [];
      lastCounter := counter;
      if dir.recovering.Some? {
        Create();
        visited := Recovery(d);
        OpenTraceFromRecovering(d, counter, old(trace));
      } else if dir.writing.None? {
        Create();
        Append(Itoa(lastCounter), true);
        assert [] + [Rec(Itoa(counter))] == [Rec(Itoa(counter))];
        visited := [];
      } else {
        RenameToRecovering();
        Create();
        visited := Recovery(d);
        OpenTraceFromWriting(d, counter, old(trace));
      }
    }

    /** Copies the readable records of ".recovering" into the fresh active file, then removes the source. */
    method Recovery(ghost d: Directory) returns (visited: seq<string>)
      requires HasLog(d) && dir == Copied(d, 0) && dir.recovering.Some?
      modifies this
      ensures dir == Flushed(d).(recovering := None)
      ensures lastCounter == CounterOf(AbstractLog(d), old(lastCounter))
      ensures trace == old(trace) + CopyTrace(d, |AbstractLog(d)|) + [Flushed(d), Flushed(d).(recovering := None)]
      ensures visited == Payload(AbstractLog(d))
    {
      hide Readable;
      var reader := dir.recovering.value.entries;
      ghost var log := AbstractLog(d);
      var pos, first := 0, true;
      visited := [];
      assert reader[0..] == reader;
      while true
        invariant Reading(log, reader, pos) && (first <==> pos == 0)
        invariant dir == Copied(d, pos) && trace == old(trace) + CopyTrace(d, pos)
        invariant lastCounter == CounterOf(log[..pos], old(lastCounter))
        invariant visited == Payload(log[..pos])
        decreases |reader| - pos
      {
        ReadNext(log, reader, pos);
        if pos == |reader| || reader[pos].Torn? { break; }
        var data := reader[pos].data;
        if |data| <= 0 { break; }
        if first {
          first := false;
          lastCounter := Atoi(data);
        } else {
          visited := visited + [data];
        }
        CopyNext(d, pos);
        Append(data, false);
        pos := pos + 1;
      }
      assert log[..pos] == log;
      Flush();
      RemoveRecovering();
    }

    method Rollover()
      requires State().Live()
      modifies this
      ensures State() == RolledOver(old(State()))
      ensures trace == old(trace) + RolloverTrace(old(State()))
    {
      dir := Directory(None, dir.recovering, dir.sealed[lastCounter := dir.writing.value]);
      trace := trace + [dir];
      Create();
      Append(Itoa(lastCounter), true);
      assert [] + [Rec(Itoa(lastCounter))] == [Rec(Itoa(lastCounter))];
      lastCounter := lastCounter + 1;
    }

    method Write(data: string)
      requires State().Live()
      modifies this
      ensures State() == Written(old(State()), data)
      ensures trace == old(trace) + [dir]
    {
      Append(data, true);
    }
  }
}
