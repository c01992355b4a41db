// The files of src/core/periodic_log.cpp: one active ".writing" file that starts with the log number as a header
// record, a ".recovering" copy while a restart is in progress, numbered sealed files, and what a crash leaves of them.

module LogFiles {
  import opened Options
  import opened Decimal

  /** One appended record, or the unreadable tail that an interrupted append leaves behind. */
  datatype Entry = Rec(data: string) | Torn

  /** A file and how many of its entries are known to be on the disk. */
  datatype File = File(entries: seq<Entry>, synced: nat)

  /** The files of one log prefix: ".writing", ".recovering" and the sealed "-%d.log" files. */
  datatype Directory = Directory(writing: Option<File>, recovering: Option<File>, sealed: map<int, File>)

  /** The records a reader gets before its first failed or empty read. */
  function Readable(entries: seq<Entry>): seq<string> {
    if entries == [] || entries[0].Torn? || entries[0].data == "" then []
    else [entries[0].data] + Readable(entries[1..])
  }

  function Recs(records: seq<string>): seq<Entry> {
    seq(|records|, i requires 0 <= i < |records| => Rec(records[i]))
  }

  ghost predicate AllNonEmpty(records: seq<string>) {
    forall i :: 0 <= i < |records| ==> records[i] != ""
  }

  lemma {:induction false} ReadableSound(entries: seq<Entry>)
    ensures AllNonEmpty(Readable(entries)) && |Readable(entries)| <= |entries|
    ensures entries[..|Readable(entries)|] == Recs(Readable(entries))
    ensures var k := |Readable(entries)|; k < |entries| ==> entries[k].Torn? || entries[k].data == ""
  {
    if entries != [] && entries[0].Rec? && entries[0].data != "" {
      ReadableSound(entries[1..]);
      var rest := Readable(entries[1..]);
      assert entries[..1 + |rest|] == [entries[0]] + entries[1..][..|rest|];
      assert Recs([entries[0].data] + rest) == [entries[0]] + Recs(rest);
    } else {
      assert entries[..0] == Recs([]);
    }
  }

  lemma {:induction false} ReadableAfter(records: seq<string>, tail: seq<Entry>)
    requires AllNonEmpty(records)
    ensures Readable(Recs(records) + tail) == records + Readable(tail)
  {
    if records == [] {
      assert Recs(records) + tail == tail;
    } else {
      ReadableAfter(records[1..], tail);
      assert (Recs(records) + tail)[1..] == Recs(records[1..]) + tail;
    }
  }

  lemma ReadableRecs(records: seq<string>)
    requires AllNonEmpty(records)
    ensures Readable(Recs(records)) == records
  {
    ReadableAfter(records, []);
    assert Recs(records) + [] == Recs(records);
  }

  /** Whatever follows an unreadable or empty entry is never read; what follows readable entries is. */
  lemma {:induction false} ReadableSplit(entries: seq<Entry>, tail: seq<Entry>)
    ensures Readable(entries + tail)
         == Readable(entries) + (if |Readable(entries)| == |entries| then Readable(tail) else [])
  {
    if entries == [] {
      assert entries + tail == tail;
    } else {
      assert (entries + tail)[1..] == entries[1..] + tail;
      ReadableSplit(entries[1..], tail);
    }
  }

  // ----- The abstract log -----

  ghost predicate HasLog(d: Directory) { d.recovering.Some? || d.writing.Some? }

  /** The recoverable records: the interrupted recovery's source if there is one, else the active file. */
  ghost function AbstractLog(d: Directory): seq<string> {
    if d.recovering.Some? then Readable(d.recovering.value.entries)
    else if d.writing.Some? then Readable(d.writing.value.entries)
    else []
  }

  ghost function CounterOf(log: seq<string>, counter: int): int {
    if log == [] then counter else Atoi(log[0])
  }

  ghost function Payload(log: seq<string>): seq<string> {
    if log == [] then [] else log[1..]
  }

  // ----- Crashes and the steps of open -----

  /** A crash may lose entries that were not yet synced and may leave one torn append behind. */
  ghost predicate CrashedFile(f: File, f': File) {
    && f'.synced == |f'.entries|
    && exists k :: f.synced <= k <= |f.entries|
         && (f'.entries == f.entries[..k] || f'.entries == f.entries[..k] + [Torn])
  }

  /** Only the file open for writing is exposed to a crash. */
  ghost predicate Crashed(d: Directory, d': Directory) {
    && d'.sealed == d.sealed && d'.recovering == d.recovering
    && (d.writing.None? ==> d'.writing.None?)
    && (d.writing.Some? ==> d'.writing.Some? && CrashedFile(d.writing.value, d'.writing.value))
  }

  ghost function Renamed(d: Directory): Directory {
    if d.recovering.Some? then d else Directory(None, d.writing, d.sealed)
  }

  ghost function Copied(d: Directory, k: nat): Directory
    requires k <= |AbstractLog(d)|
  {
    Renamed(d).(writing := Some(File(Recs(AbstractLog(d)[..k]), 0)))
  }

  ghost function Flushed(d: Directory): Directory {
    Renamed(d).(writing := Some(File(Recs(AbstractLog(d)), |AbstractLog(d)|)))
  }

  /** The directory after each of the first n appends of a recovery. */
  ghost function CopyTrace(d: Directory, n: nat): seq<Directory>
    requires n <= |AbstractLog(d)|
  {
    seq(n, k requires 0 <= k < n => Copied(d, k + 1))
  }

  /** The directory after each file operation of open(counter). */
  ghost function OpenTrace(d: Directory, counter: int): seq<Directory> {
    if HasLog(d) then
      (if d.recovering.Some? then [] else [Renamed(d)])
      + [Copied(d, 0)] + CopyTrace(d, |AbstractLog(d)|) + [Flushed(d), Flushed(d).(recovering := None)]
    else
      [d.(writing := Some(File([], 0))), d.(writing := Some(File([Rec(Itoa(counter))], 1)))]
  }

  ghost function Opened(d: Directory, counter: int): Directory {
    OpenTrace(d, counter)[|OpenTrace(d, counter)| - 1]
  }

  /** An open that gets through the first i file operations and is then cut off by a crash. */
  ghost predicate Interrupted(d: Directory, d': Directory, counter: int) {
    exists i :: 0 <= i <= |OpenTrace(d, counter)| && Crashed(AfterSteps(d, counter, i), d')
  }

  ghost function AfterSteps(d: Directory, counter: int, i: nat): Directory
    requires i <= |OpenTrace(d, counter)|
  {
    if i == 0 then d else OpenTrace(d, counter)[i - 1]
  }

  /** Everything that is not protected by a recovery in progress is on the disk. */
  ghost predicate Settled(d: Directory) {
    d.recovering.None? && d.writing.Some? ==> d.writing.value.synced == |d.writing.value.entries|
  }

  lemma CrashKeepsSynced(d: Directory, d': Directory)
    requires Crashed(d, d') && Settled(d)
    ensures HasLog(d') == HasLog(d) && AbstractLog(d') == AbstractLog(d)
  {
    if d.recovering.None? && d.writing.Some? {
      var f, f' := d.writing.value, d'.writing.value;
      var k :| f.synced <= k <= |f.entries| && (f'.entries == f.entries[..k] || f'.entries == f.entries[..k] + [Torn]);
      assert f.entries[..k] == f.entries;
      ReadableSplit(f.entries, [Torn]);
    }
  }

  lemma AbstractLogNonEmpty(d: Directory)
    ensures AllNonEmpty(AbstractLog(d))
  {
    if d.recovering.Some? {
      ReadableSound(d.recovering.value.entries);
    } else if d.writing.Some? {
      ReadableSound(d.writing.value.entries);
    }
  }

  /** The steps of an open that finds a log: rename, create, one append per record, flush, remove. */
  lemma OpenTraceAt(d: Directory, counter: int, i: nat)
    requires HasLog(d) && i < |OpenTrace(d, counter)|
    ensures var at, n := if d.recovering.Some? then i else i - 1, |AbstractLog(d)|;
            && at <= n + 2
            && OpenTrace(d, counter)[i] == if at < 0 then Renamed(d) else if at <= n then Copied(d, at)
                                           else if at == n + 1 then Flushed(d) else Flushed(d).(recovering := None)
  {
    hide AbstractLog, Copied, Flushed, Renamed;
    var n := |AbstractLog(d)|;
    assert CopyTrace(d, n) == seq(n, k requires 0 <= k < n => Copied(d, k + 1));
  }

  ghost predicate Keeps(d: Directory, e: Directory) {
    HasLog(e) && AbstractLog(e) == AbstractLog(d) && e.sealed == d.sealed && Settled(e)
  }

  lemma RenamedKeeps(d: Directory)
    requires HasLog(d)
    ensures Keeps(d, Renamed(d))
    ensures forall f :: Keeps(d, Renamed(d).(writing := Some(f)))
  {
  }

  lemma FlushedKeeps(d: Directory)
    requires HasLog(d)
    ensures Keeps(d, Flushed(d).(recovering := None))
  {
    hide Readable;
    AbstractLogNonEmpty(d);
    ReadableRecs(AbstractLog(d));
  }

  /** Every file operation of open leaves the recoverable records as they were. */
  lemma OpenStepKeepsLog(d: Directory, counter: int, i: nat)
    requires HasLog(d) && i < |OpenTrace(d, counter)|
    ensures Keeps(d, OpenTrace(d, counter)[i])
  {
    hide OpenTrace, Keeps, AbstractLog, Renamed;
    OpenTraceAt(d, counter, i);
    RenamedKeeps(d);
    FlushedKeeps(d);
  }

  /** A crash at any point of open, with any loss of unsynced data, loses no record. */
  lemma InterruptedKeepsLog(d: Directory, d': Directory, counter: int)
    requires HasLog(d) && Settled(d) && Interrupted(d, d', counter)
    ensures Keeps(d, d')
  {
    var i :| 0 <= i <= |OpenTrace(d, counter)| && Crashed(AfterSteps(d, counter, i), d');
    if i > 0 {
      OpenStepKeepsLog(d, counter, i - 1);
    }
    CrashKeepsSynced(AfterSteps(d, counter, i), d');
  }

  /** Any number of interrupted restarts followed by one that completes: same records, same order, same counter. */
  lemma {:induction false} CrashSafeRecovery(ds: seq<Directory>, counter: int)
    requires ds != [] && HasLog(ds[0]) && Settled(ds[0])
    requires forall i :: 0 <= i < |ds| - 1 ==> Interrupted(ds[i], ds[i + 1], counter)
    ensures var last := ds[|ds| - 1];
            && HasLog(last) && AbstractLog(last) == AbstractLog(ds[0])
            && Opened(last, counter)
               == Directory(Some(File(Recs(AbstractLog(ds[0])), |AbstractLog(ds[0])|)), None, ds[0].sealed)
    decreases |ds|
  {
    if |ds| > 1 {
      assert Interrupted(ds[0], ds[1], counter);
      InterruptedKeepsLog(ds[0], ds[1], counter);
      forall i | 0 <= i < |ds[1..]| - 1 ensures Interrupted(ds[1..][i], ds[1..][i + 1], counter) {
        assert Interrupted(ds[i + 1], ds[i + 1 + 1], counter);
      }
      CrashSafeRecovery(ds[1..], counter);
    }
  }

  /**
   * The first open of an empty directory is not crash-safe: cut off between creating the file and appending the
   * header it leaves a log without a header. Exactly the other two points leave nothing, or the header.
   */
  lemma FreshOpenInterrupted(d: Directory, d': Directory, counter: int, i: nat)
    requires !HasLog(d) && i <= |OpenTrace(d, counter)| && Crashed(AfterSteps(d, counter, i), d')
    ensures (HasLog(d') <==> i > 0) && d'.sealed == d.sealed && Settled(d')
    ensures AbstractLog(d') == if i == 2 then [Itoa(counter)] else []
  {
    AtoiInvertsItoa(counter);
    if i == 2 {
      CrashKeepsSynced(OpenTrace(d, counter)[1], d');
      assert Recs([Itoa(counter)]) == [Rec(Itoa(counter))];
      ReadableRecs([Itoa(counter)]);
    } else if i == 1 {
      var f, f' := OpenTrace(d, counter)[0].writing.value, d'.writing.value;
      assert f.entries == [];
      assert f'.entries == [] || f'.entries == [Torn];
    }
  }
}
