// The periodic log of src/core/periodic_log.cpp over whole runs: writes, rollovers, crashes at any point and restarts,
// and what they do to the log's number.

module LogRuns {
  import opened Options
  import opened Decimal
  import opened LogFiles

  datatype Session = Session(dir: Directory, counter: int) {
    ghost predicate Live() {
      dir.recovering.None? && dir.writing.Some? && dir.writing.value.synced == |dir.writing.value.entries|
    }

    ghost function Active(): seq<string> { AbstractLog(dir) }
  }

  function Header(counter: int): File { File([Rec(Itoa(counter))], 1) }

  ghost function Written(s: Session, data: string): Session
    requires s.Live()
  {
    var f := s.dir.writing.value;
    s.(dir := s.dir.(writing := Some(File(f.entries + [Rec(data)], f.synced + 1))))
  }

  /** The directory after each file operation of rollover. */
  function RolloverTrace(s: Session): seq<Directory>
    requires s.Live()
  {
    var sealed := s.dir.sealed[s.counter := s.dir.writing.value];
    [Directory(None, None, sealed), Directory(Some(File([], 0)), None, sealed),
     Directory(Some(Header(s.counter)), None, sealed)]
  }

  ghost function RolledOver(s: Session): Session
    requires s.Live()
  {
    Session(RolloverTrace(s)[2], s.counter + 1)
  }

  /** Open, run to completion on whatever a crash left. */
  ghost function Restarted(d: Directory, counter: int): (s: Session)
    ensures s.Live()
  {
    Session(Opened(d, counter), CounterOf(AbstractLog(d), counter))
  }

  lemma HeaderActive(counter: int)
    ensures Readable(Header(counter).entries) == [Itoa(counter)]
  {
  }

  /** What a restart makes of any directory: a live session over the same records. */
  lemma RestartKeepsLog(d: Directory, counter: int)
    ensures var s := Restarted(d, counter);
            && s.Live() && s.dir.sealed == d.sealed
            && s.Active() == (if HasLog(d) then AbstractLog(d) else [Itoa(counter)])
            && s.counter == CounterOf(s.Active(), counter)
  {
    AbstractLogNonEmpty(d);
    ReadableRecs(AbstractLog(d));
    HeaderActive(counter);
    AtoiInvertsItoa(counter);
  }

  /**
   * A crash inside rollover: before the rename and after the header the next open continues from the header it
   * finds, in between it falls back to the number passed to open.
   */
  lemma RolloverInterrupted(s: Session, d': Directory, counter: int, i: nat)
    requires s.Live() && i <= 3 && Crashed(if i == 0 then s.dir else RolloverTrace(s)[i - 1], d')
    ensures Restarted(d', counter).counter
         == if i == 0 then CounterOf(s.Active(), counter) else if i == 3 then s.counter else counter
  {
    HeaderActive(s.counter);
    AtoiInvertsItoa(s.counter);
    if i == 0 || i == 3 {
      CrashKeepsSynced(if i == 0 then s.dir else RolloverTrace(s)[2], d');
    } else if i == 2 {
      assert RolloverTrace(s)[1].writing.value.entries == [];
      assert d'.writing.value.entries == [] || d'.writing.value.entries == [Torn];
    }
  }

  // ----- Whole runs -----

  /**
   * Writes, rollovers and restarts after a crash. The crash comes after the first cut file operations of a rollover,
   * or outside of one if cut is 0; ds is the directory it leaves, and then one for each attempt to open it that is
   * itself cut off, before the attempt that completes.
   */
  datatype Op = Write(data: string) | Rollover | Restart(cut: nat, ds: seq<Directory>)

  function AfterCut(s: Session, cut: nat): Directory
    requires s.Live() && cut <= 3
  {
    if cut == 0 then s.dir else RolloverTrace(s)[cut - 1]
  }

  /** DistTable::init opens every log with number 0. */
  ghost predicate CrashChain(dir: Directory, ds: seq<Directory>) {
    ds != [] && Crashed(dir, ds[0]) && forall i :: 0 <= i < |ds| - 1 ==> Interrupted(ds[i], ds[i + 1], 0)
  }

  /** The session of the attempt that completes. */
  ghost function Reopened(ds: seq<Directory>): (s: Session)
    requires ds != []
    ensures s.Live()
  {
    Restarted(ds[|ds| - 1], 0)
  }

  /** The event table's records start with a tag, so that none of them reads as a number where a header is missing. */
  predicate IsRecord(data: string) { data != "" && (data[0] == 'C' || data[0] == 'I') }

  ghost predicate CanApply(s: Session, op: Op) {
    match op
    case Write(data) => s.Live() && (s.Active() == [] ==> IsRecord(data))
    case Rollover => s.Live()
    case Restart(cut, ds) => s.Live() && cut <= 3 && CrashChain(AfterCut(s, cut), ds)
  }

  ghost function Apply(s: Session, op: Op): Session
    requires s.Live() && (op.Restart? ==> op.ds != [])
  {
    match op
    case Write(data) => Written(s, data)
    case Rollover => RolledOver(s)
    case Restart(_, ds) => Reopened(ds)
  }

  const NOTHING := Directory(None, None, map[])

  /** A run starts on an empty directory, where attempts to open it may be cut off as well. */
  ghost predicate RunOf(first: seq<Directory>, states: seq<Session>, ops: seq<Op>) {
    && CrashChain(NOTHING, first)
    && |states| == |ops| + 1
    && states[0] == Reopened(first)
    && forall i :: 0 <= i < |ops| ==> CanApply(states[i], ops[i]) && states[i + 1] == Apply(states[i], ops[i])
  }

  // ----- What crashes leave behind -----

  /** What attempts to open d leave: the log that was there, or what a first open can leave. */
  ghost predicate KeepsOrStarts(d: Directory, e: Directory) {
    && e.sealed == d.sealed && Settled(e)
    && (if HasLog(d) then HasLog(e) && AbstractLog(e) == AbstractLog(d)
        else AbstractLog(e) == [] || AbstractLog(e) == [Itoa(0)])
  }

  lemma {:induction false} AttemptsKeepOrStart(ds: seq<Directory>, n: nat)
    requires n < |ds| && Settled(ds[0])
    requires forall i :: 0 <= i < |ds| - 1 ==> Interrupted(ds[i], ds[i + 1], 0)
    ensures KeepsOrStarts(ds[0], ds[n])
  {
    hide AbstractLog, Interrupted;
    if n > 0 {
      AttemptsKeepOrStart(ds, n - 1);
      assert Interrupted(ds[n - 1], ds[n - 1 + 1], 0);
      AttemptKeepsOrStarts(ds[n - 1], ds[n]);
    } else {
      NoLogIsEmpty(ds[0]);
    }
  }

  lemma NoLogIsEmpty(d: Directory)
    ensures !HasLog(d) ==> AbstractLog(d) == []
  {
  }

  lemma AttemptKeepsOrStarts(d: Directory, e: Directory)
    requires Settled(d) && Interrupted(d, e, 0)
    ensures KeepsOrStarts(d, e)
  {
    if HasLog(d) {
      InterruptedKeepsLog(d, e, 0);
    } else {
      var i :| 0 <= i <= |OpenTrace(d, 0)| && Crashed(AfterSteps(d, 0, i), e);
      FreshOpenInterrupted(d, e, 0, i);
    }
  }

  /** A crash followed by any number of attempts to open. */
  lemma ChainKeepsOrStarts(d: Directory, ds: seq<Directory>)
    requires Settled(d) && CrashChain(d, ds)
    ensures KeepsOrStarts(d, ds[|ds| - 1])
  {
    hide Interrupted, AbstractLog;
    CrashKeepsSynced(d, ds[0]);
    NoLogIsEmpty(ds[0]);
    AttemptsKeepOrStart(ds, |ds| - 1);
  }

  /** What a completed restart continues from: the log, or a new one with the header 0 or with none. */
  lemma ChainThenRestart(d: Directory, ds: seq<Directory>)
    requires Settled(d) && CrashChain(d, ds)
    ensures var t := Reopened(ds);
            && t.Live() && t.dir.sealed == d.sealed && t.counter == CounterOf(t.Active(), 0)
            && (if HasLog(d) then t.Active() == AbstractLog(d) else t.Active() == [] || t.Active() == [Itoa(0)])
  {
    ChainKeepsOrStarts(d, ds);
    RestartKeepsLog(ds[|ds| - 1], 0);
    NoLogIsEmpty(ds[|ds| - 1]);
  }

  lemma ChainKeepsLog(s: Session, ds: seq<Directory>)
    requires s.Live() && CrashChain(s.dir, ds)
    ensures var t := Reopened(ds);
            && t.Live() && t.Active() == s.Active() && t.dir.sealed == s.dir.sealed
            && t.counter == CounterOf(s.Active(), 0)
  {
    ChainThenRestart(s.dir, ds);
  }

  // ----- Numbering over whole runs -----

  /** The log number, the number in the active file's header, and the number above all sealed ones. */
  datatype Ledger = Ledger(counter: int, header: int, high: int)

  /** Numbers alone: a completed rollover leaves the header one behind, and a restart falls back to the header. */
  function Enter(l: Ledger, op: Op): Ledger {
    match op
    case Write(_) => l
    case Rollover => Ledger(l.counter + 1, l.counter, Raised(l))
    case Restart(cut, _) =>
      if cut == 0 then Ledger(l.header, l.header, l.high)
      else if cut < 3 then Ledger(0, 0, Raised(l))
      else Ledger(l.counter, l.counter, Raised(l))
  }

  function Raised(l: Ledger): int {
    if l.high <= l.counter then l.counter + 1 else l.high
  }

  function LedgerOf(ops: seq<Op>): Ledger {
    if ops == [] then Ledger(0, 0, 0) else Enter(LedgerOf(ops[..|ops| - 1]), ops[|ops| - 1])
  }

  /** A session whose numbers are those of the ledger; exactly the numbers below high are sealed. */
  ghost predicate Numbered(s: Session, l: Ledger) {
    && s.counter == l.counter && CounterOf(s.Active(), 0) == l.header
    && forall k :: k in s.dir.sealed <==> 0 <= k < l.high
  }

  /** A rename to a sealed name has happened. */
  predicate Seals(op: Op) { op.Rollover? || (op.Restart? && op.cut > 0) }

  ghost predicate SealedEver(ops: seq<Op>) { exists i :: 0 <= i < |ops| && Seals(ops[i]) }

  ghost predicate NoneCut(ops: seq<Op>) { forall i :: 0 <= i < |ops| && ops[i].Restart? ==> ops[i].cut == 0 }

  ghost predicate RolledSinceOpen(ops: seq<Op>) {
    ops != [] && !ops[|ops| - 1].Restart? && (ops[|ops| - 1].Rollover? || RolledSinceOpen(ops[..|ops| - 1]))
  }

  lemma RunKindsNext(ops: seq<Op>)
    requires ops != []
    ensures SealedEver(ops) <==> SealedEver(ops[..|ops| - 1]) || Seals(ops[|ops| - 1])
    ensures NoneCut(ops) ==> NoneCut(ops[..|ops| - 1]) && (ops[|ops| - 1].Restart? ==> ops[|ops| - 1].cut == 0)
  {
  }

  /** What the numbers say about the past of the run. */
  lemma {:induction false} LedgerFacts(ops: seq<Op>)
    ensures var l := LedgerOf(ops);
            && 0 <= l.header == l.counter - (if RolledSinceOpen(ops) then 1 else 0)
            && l.counter <= l.high
            && (RolledSinceOpen(ops) ==> SealedEver(ops))
            && (SealedEver(ops) <==> l.high > 0) && (SealedEver(ops) ==> l.header < l.high)
            && (NoneCut(ops) ==> l.high == l.counter + (if SealedEver(ops) && !RolledSinceOpen(ops) then 1 else 0))
  {
    if ops != [] {
      LedgerFacts(ops[..|ops| - 1]);
      RunKindsNext(ops);
    }
  }

  /**
   * Over every run of writes, rollovers and restarts, with crashes at any point of a rollover, of an open and between
   * them, the log's numbers are those of the ledger.
   */
  lemma {:induction false} Numbering(first: seq<Directory>, states: seq<Session>, ops: seq<Op>)
    requires RunOf(first, states, ops)
    ensures states[|ops|].Live() && Numbered(states[|ops|], LedgerOf(ops))
    decreases |ops|
  {
    hide Atoi, Readable, AbstractLog, Reopened, SealedEver, NoneCut;
    if ops == [] {
      RunStarts(first);
    } else {
      var before := ops[..|ops| - 1];
      Numbering(first, states[..|ops|], before);
      LedgerFacts(before);
      assert CanApply(states[|before|], ops[|before|]);
      NumberingStep(states[|before|], LedgerOf(before), ops[|before|]);
    }
  }

  lemma RunStarts(first: seq<Directory>)
    requires CrashChain(NOTHING, first)
    ensures var s := Reopened(first); s.Live() && Numbered(s, Ledger(0, 0, 0))
  {
    hide Atoi, Readable;
    ChainThenRestart(NOTHING, first);
    AtoiInvertsItoa(0);
  }

  /** What one operation does to the counter, the active header and the sealed numbers. */
  lemma NumberingStep(s: Session, l: Ledger, op: Op)
    requires CanApply(s, op) && Numbered(s, l) && 0 <= l.counter <= l.high
    ensures Apply(s, op).Live() && Numbered(Apply(s, op), Enter(l, op))
  {
    hide Atoi, Readable;
    match op {
      case Write(data) => WriteKeepsNumber(s, data);
      case Rollover =>
        HeaderActive(s.counter);
        AtoiInvertsItoa(s.counter);
      case Restart(cut, ds) =>
        if cut == 0 {
          ChainKeepsLog(s, ds);
        } else {
          ChainThenRestart(RolloverTrace(s)[cut - 1], ds);
          CutLeaves(s, cut);
        }
    }
  }

  lemma WriteKeepsNumber(s: Session, data: string)
    requires s.Live() && (s.Active() == [] ==> IsRecord(data))
    ensures CounterOf(Written(s, data).Active(), 0) == CounterOf(s.Active(), 0)
  {
    ReadableSplit(s.dir.writing.value.entries, [Rec(data)]);
    assert IsRecord(data) ==> Scan(data, 0) == 0;
  }

  /** What a rollover that is cut off leaves: no log, a log without a header, or the number it started with. */
  lemma CutLeaves(s: Session, cut: nat)
    requires s.Live() && 0 < cut <= 3
    ensures var d := RolloverTrace(s)[cut - 1];
            && Settled(d) && d.sealed == s.dir.sealed[s.counter := s.dir.writing.value]
            && AbstractLog(d) == (if cut < 3 then [] else [Itoa(s.counter)]) && (HasLog(d) <==> cut > 1)
            && CounterOf(AbstractLog(d), 0) == (if cut < 3 then 0 else s.counter)
            && CounterOf([Itoa(0)], 0) == 0
  {
    HeaderActive(s.counter);
    AtoiInvertsItoa(s.counter);
    AtoiInvertsItoa(0);
  }

  /** A restart lowers the counter by one exactly when the session had rolled over, and never below zero. */
  lemma RestartCounter(first: seq<Directory>, states: seq<Session>, ops: seq<Op>, ds: seq<Directory>)
    requires RunOf(first, states, ops)
    requires states[|ops|].Live() && CrashChain(states[|ops|].dir, ds)
    ensures var s := states[|ops|];
            Reopened(ds).counter == s.counter - (if RolledSinceOpen(ops) then 1 else 0) >= 0
  {
    hide Reopened, AbstractLog, Crashed;
    Numbering(first, states, ops);
    LedgerFacts(ops);
    ChainKeepsLog(states[|ops|], ds);
  }

  /**
   * Sealed names are not unique over whole runs: a rollover replaces an earlier sealed log exactly when the counter
   * is below the ledger's high mark. Without a crash inside a rollover that is the case exactly when something was
   * sealed before and this session has not rolled over yet.
   */
  lemma RolloverOverwrites(first: seq<Directory>, states: seq<Session>, ops: seq<Op>)
    requires RunOf(first, states, ops)
    ensures states[|ops|].counter in states[|ops|].dir.sealed <==> LedgerOf(ops).counter < LedgerOf(ops).high
    ensures NoneCut(ops) ==>
              (states[|ops|].counter in states[|ops|].dir.sealed <==> SealedEver(ops) && !RolledSinceOpen(ops))
  {
    hide RunOf, SealedEver, NoneCut;
    Numbering(first, states, ops);
    LedgerFacts(ops);
  }

  /**
   * The windowed readers start below the counter. After a restart a sealed log has the counter's own number whenever
   * anything was ever sealed, so no reader sees it until the next rollover, which replaces it; without a crash inside
   * a rollover it is the newest one. A crash between the rename and the header puts every sealed log out of sight.
   */
  lemma RestartHidesNewest(first: seq<Directory>, states: seq<Session>, ops: seq<Op>)
    requires RunOf(first, states, ops) && ops != [] && ops[|ops| - 1].Restart?
    ensures var t := states[|ops|];
            && (t.counter in t.dir.sealed <==> SealedEver(ops))
            && (0 < ops[|ops| - 1].cut < 3 ==> t.counter == 0)
            && (NoneCut(ops) ==> forall k :: k in t.dir.sealed ==> k <= t.counter)
  {
    hide RunOf, SealedEver, NoneCut;
    Numbering(first, states, ops);
    LedgerFacts(ops);
  }

  /** Seal, restart, seal again: the second sealed file takes the name of the first, whose records are gone. */
  lemma SealedLogLost(data: string) returns (first: seq<Directory>, states: seq<Session>, ops: seq<Op>)
    requires data != ""
    ensures RunOf(first, states, ops)
    ensures exists i :: 0 <= i < |states| && 0 in states[i].dir.sealed
                     && Payload(Readable(states[i].dir.sealed[0].entries)) == [data]
    ensures states[|ops|].dir.sealed.Keys == {0} && Payload(Readable(states[|ops|].dir.sealed[0].entries)) == []
  {
    hide Readable, Atoi, Restarted, Interrupted, Crashed;
    NoCrash(NOTHING);
    var s0 := Restarted(NOTHING, 0);
    FreshStart();
    var s1 := Written(s0, data);
    assert [Rec(Itoa(0))] + [Rec(data)] == Recs([Itoa(0), data]);
    AtoiInvertsItoa(0);
    ReadableRecs([Itoa(0), data]);
    HeaderActive(0);
    var s2 := RolledOver(s1);
    assert 0 in s2.dir.sealed && Payload(Readable(s2.dir.sealed[0].entries)) == [data];
    NoCrash(s2.dir);
    var s3 := Restarted(s2.dir, 0);
    RestartKeepsLog(s2.dir, 0);
    var s4 := RolledOver(s3);
    first, states, ops := [NOTHING], [s0, s1, s2, s3, s4], [Write(data), Rollover, Restart(0, [s2.dir]), Rollover];
    assert states[2] == s2;
  }

  lemma FreshStart()
    ensures Restarted(NOTHING, 0) == Session(Directory(Some(Header(0)), None, map[]), 0)
  {
  }

  /** A crash may lose nothing. */
  lemma NoCrash(d: Directory)
    requires d.writing.Some? ==> d.writing.value.synced == |d.writing.value.entries|
    ensures CrashChain(d, [d])
  {
    if d.writing.Some? {
      var f := d.writing.value;
      assert f.entries == f.entries[..|f.entries|];
      assert CrashedFile(f, f);
    }
  }
}
