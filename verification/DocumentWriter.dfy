// parse_document and its helpers in src/framework/CF_framework_center.h: the JSON document is written into a bounded
// buffer field by field, each write behind its own size check.

module DocumentWriter {
  import opened Options
  import opened DocumentLayout
  import opened DocumentRecord

  /** out has been written at the start of the buffer; the rest is as it was. */
  ghost predicate Holds(memory: seq<Byte>, before: seq<Byte>, out: seq<Byte>) {
    |out| <= |before| && memory == out + before[|out|..]
  }

  /** One bounds check and one copy: the only place that writes. */
  method PutBytes(buf: array<Byte>, bytes: seq<Byte>, len: nat, capacity: int,
                  ghost before: seq<Byte>, ghost out: seq<Byte>)
    returns (fits: bool, newLen: nat)
    requires Holds(buf[..], before, out) && len == |out| <= capacity <= buf.Length
    modifies buf
    ensures fits <==> len + |bytes| <= capacity
    ensures fits ==> newLen == len + |bytes| && Holds(buf[..], before, out + bytes)
    ensures !fits ==> newLen == len && buf[..] == old(buf[..])
  {
    if len + |bytes| > capacity { return false, len; }
    forall i | 0 <= i < |bytes| {
      buf[len + i] := bytes[i];
    }
    fits, newLen := true, len + |bytes|;
    assert buf[..] == (out + bytes) + before[|out + bytes|..];
  }

  method ParseArray(list: seq<Text>, buf: array<Byte>, len: nat, capacity: int,
                    ghost before: seq<Byte>, ghost out: seq<Byte>)
    returns (code: int, newLen: nat)
    requires |list| < 0x8000_0000
    requires Holds(buf[..], before, out) && len == |out| <= capacity <= buf.Length
    modifies buf
    ensures var e := Emit(ArrayPieces(list), out, capacity);
            && (code == 0 <==> e.status.Done?) && (code == -2 <==> e.status.Overflow?) && (code == 0 || code == -2)
            && newLen == |e.bytes| <= capacity && Holds(buf[..], before, e.bytes)
  {
    var fits;
    EmitPut(IntBytes(|list|), TextPieces(list), out, capacity);
    fits, newLen := PutBytes(buf, IntBytes(|list|), len, capacity, before, out);
    if !fits { return -2, newLen; }
    ghost var all := Emit(ArrayPieces(list), out, capacity);
    ghost var cur := out + IntBytes(|list|);
    assert list[0..] == list;
    for i := 0 to |list|
      invariant newLen == |cur| <= capacity && Holds(buf[..], before, cur)
      invariant all == Emit(TextPieces(list[i..]), cur, capacity)
    {
      assert list[i..][0] == list[i] && list[i..][1..] == list[i + 1..];
      EmitPut(IntBytes(|list[i]|), [Put(list[i])] + TextPieces(list[i + 1..]), cur, capacity);
      fits, newLen := PutBytes(buf, IntBytes(|list[i]|), newLen, capacity, before, cur);
      if !fits { return -2, newLen; }
      cur := cur + IntBytes(|list[i]|);
      EmitPut(list[i], TextPieces(list[i + 1..]), cur, capacity);
      fits, newLen := PutBytes(buf, list[i], newLen, capacity, before, cur);
      if !fits { return -2, newLen; }
      cur := cur + list[i];
    }
    code := 0;
  }

  /** A field found by name, or its error code. */
  method PutField(bytes: Option<seq<Byte>>, missing: int, buf: array<Byte>, len: nat, capacity: int,
                  ghost before: seq<Byte>, ghost out: seq<Byte>)
    returns (code: int, newLen: nat)
    requires missing != 0
    requires Holds(buf[..], before, out) && len == |out| <= capacity <= buf.Length
    modifies buf
    ensures Wrote(Emit(Field(bytes, missing), out, capacity), code, newLen, buf[..], before, capacity)
  {
    if bytes.None? { return missing, len; }
    EmitPut(bytes.value, [], out, capacity);
    assert [Put(bytes.value)] + [] == [Put(bytes.value)];
    var fits;
    fits, newLen := PutBytes(buf, bytes.value, len, capacity, before, out);
    code := if fits then 0 else -200;
  }

  /** What a writing step has done: its error code, the length reached and the memory are those of the emission. */
  ghost predicate Wrote(e: Emitted, code: int, len: nat, memory: seq<Byte>, before: seq<Byte>, capacity: int) {
    && code == CodeOf(e.status) && (code == 0 <==> e.status.Done?)
    && len == |e.bytes| <= capacity && Holds(memory, before, e.bytes)
  }

  function CodeOf(s: Status): int {
    match s case Done => 0 case Missing(code) => code case Overflow => -200
  }

  /** Word and count of each entry; -1 for a missing member, -2 for an overflow. */
  method ParseArrayObject(list: seq<WordJson>, buf: array<Byte>, len: nat, capacity: int, ghost missing: int,
                          ghost before: seq<Byte>, ghost out: seq<Byte>)
    returns (code: int, newLen: nat)
    requires |list| < 0x8000_0000
    requires Holds(buf[..], before, out) && len == |out| <= capacity <= buf.Length
    modifies buf
    ensures var e := Emit([Put(IntBytes(|list|))] + WordPieces(list, missing), out, capacity);
            && (code == 0 <==> e.status.Done?) && (code == -2 <==> e.status.Overflow?)
            && (code == -1 <==> e.status == Missing(missing)) && (code == 0 || code == -1 || code == -2)
            && newLen == |e.bytes| <= capacity && Holds(buf[..], before, e.bytes)
  {
    var fits;
    EmitPut(IntBytes(|list|), WordPieces(list, missing), out, capacity);
    fits, newLen := PutBytes(buf, IntBytes(|list|), len, capacity, before, out);
    if !fits { return -2, newLen; }
    ghost var all := Emit([Put(IntBytes(|list|))] + WordPieces(list, missing), out, capacity);
    ghost var cur := out + IntBytes(|list|);
    assert list[0..] == list;
    for i := 0 to |list|
      invariant newLen == |cur| <= capacity && Holds(buf[..], before, cur)
      invariant all == Emit(WordPieces(list[i..], missing), cur, capacity)
    {
      var w := list[i];
      assert list[i..][0] == w && list[i..][1..] == list[i + 1..];
      ghost var rest := WordPieces(list[i + 1..], missing);
      WordNext(w, rest, missing, cur, capacity);
      if w.word.None? { return -1, newLen; }
      fits, newLen := PutBytes(buf, IntBytes(|w.word.value|), newLen, capacity, before, cur);
      if !fits { return -2, newLen; }
      cur := cur + IntBytes(|w.word.value|);
      fits, newLen := PutBytes(buf, w.word.value, newLen, capacity, before, cur);
      if !fits { return -2, newLen; }
      cur := cur + w.word.value;
      if w.count.None? { return -1, newLen; }
      fits, newLen := PutBytes(buf, IntBytes(w.count.value), newLen, capacity, before, cur);
      if !fits { return -2, newLen; }
      cur := cur + IntBytes(w.count.value);
    }
    code := 0;
  }

  /** The emission of one word entry followed by the rest, case by case. */
  lemma WordNext(w: WordJson, rest: seq<Piece>, missing: int, out: seq<Byte>, capacity: int)
    ensures var e := Emit((if w.word.None? then [Fail(missing)] else [Put(IntBytes(|w.word.value|)), Put(w.word.value)])
                          + (IntField(w.count, missing) + rest), out, capacity);
            if w.word.None? then e == Emitted(Missing(missing), out)
            else
              var a, b := IntBytes(|w.word.value|), w.word.value;
              if |out| + |a| > capacity then e == Emitted(Overflow, out)
              else if |out| + |a| + |b| > capacity then e == Emitted(Overflow, out + a)
              else if w.count.None? then e == Emitted(Missing(missing), out + a + b)
              else if |out| + |a| + |b| + |IntBytes(w.count.value)| > capacity then e == Emitted(Overflow, out + a + b)
              else e == Emit(rest, out + a + b + IntBytes(w.count.value), capacity)
  {
    if w.word.Some? {
      var a, b := IntBytes(|w.word.value|), w.word.value;
      var counted := IntField(w.count, missing) + rest;
      assert [Put(a), Put(b)] + counted == [Put(a)] + ([Put(b)] + counted);
      EmitPut(a, [Put(b)] + counted, out, capacity);
      EmitPut(b, counted, out + a, capacity);
      if w.count.Some? {
        EmitPut(IntBytes(w.count.value), rest, out + a + b, capacity);
      } else {
        assert counted[0] == Fail(missing);
      }
    }
  }

  method PutArray(list: Option<seq<Text>>, missing: int, buf: array<Byte>, len: nat, capacity: int,
                  ghost before: seq<Byte>, ghost out: seq<Byte>)
    returns (code: int, newLen: nat)
    requires missing != 0 && (list.Some? ==> |list.value| < 0x8000_0000)
    requires Holds(buf[..], before, out) && len == |out| <= capacity <= buf.Length
    modifies buf
    ensures Wrote(Emit(ArrayField(list, missing), out, capacity), code, newLen, buf[..], before, capacity)
  {
    if list.None? { return missing, len; }
    var ret;
    ret, newLen := ParseArray(list.value, buf, len, capacity, before, out);
    code := if ret == -2 then -200 else 0;
    NothingMissing(list.value, out, capacity);
  }

  lemma {:induction false} NoTextMissing(list: seq<Text>, out: seq<Byte>, capacity: int)
    ensures !Emit(TextPieces(list), out, capacity).status.Missing?
    decreases |list|
  {
    hide IntBytes;
    if list != [] {
      EmitPut(IntBytes(|list[0]|), [Put(list[0])] + TextPieces(list[1..]), out, capacity);
      EmitPut(list[0], TextPieces(list[1..]), out + IntBytes(|list[0]|), capacity);
      NoTextMissing(list[1..], out + IntBytes(|list[0]|) + list[0], capacity);
      assert TextPieces(list) == [Put(IntBytes(|list[0]|))] + ([Put(list[0])] + TextPieces(list[1..]));
    }
  }

  lemma NothingMissing(list: seq<Text>, out: seq<Byte>, capacity: int)
    requires |list| < 0x8000_0000
    ensures !Emit(ArrayPieces(list), out, capacity).status.Missing?
  {
    EmitPut(IntBytes(|list|), TextPieces(list), out, capacity);
    NoTextMissing(list, out + IntBytes(|list|), capacity);
  }

  method ParseHead(j: Json, now: Int32, buf: array<Byte>, capacity: int, ghost before: seq<Byte>)
    returns (code: int, len: nat)
    requires buf[..] == before && 0 <= capacity <= buf.Length
    modifies buf
    ensures Wrote(Emit(HeadPieces(j, now), [], capacity), code, len, buf[..], before, capacity)
  {
    hide Emit, Holds, Field, IntBytes, Bytes;
    assert Holds(buf[..], before, []) by { HoldsNothing(before); }
    var docid := if j.docid.None? then None else Some(Bytes(j.docid.value, 8));
    var push := if j.pushTime.None? then None else Some(IntBytes(now));
    var power: Option<seq<Byte>> := if j.power.None? then None else Some(j.power.value);
    var kind := if j.kind.None? then None else Some(IntBytes(j.kind.value));
    var public := if j.publicTime.None? then None else Some(IntBytes(j.publicTime.value));
    ghost var p5 := Field(power, -214);
    ghost var p4 := Field(push, -213) + p5;
    ghost var p3 := Field(public, -212) + p4;
    ghost var p2 := Field(docid, -203) + p3;
    EmitJoin(Field(kind, -202), p2, [], capacity);
    ghost var e := Emit(Field(kind, -202), [], capacity);
    code, len := PutField(kind, -202, buf, 0, capacity, before, []);
    if code != 0 { return; }
    EmitJoin(Field(docid, -203), p3, e.bytes, capacity);
    code, len := PutField(docid, -203, buf, len, capacity, before, e.bytes);
    e := Emit(Field(docid, -203), e.bytes, capacity);
    if code != 0 { return; }
    EmitJoin(Field(public, -212), p4, e.bytes, capacity);
    code, len := PutField(public, -212, buf, len, capacity, before, e.bytes);
    e := Emit(Field(public, -212), e.bytes, capacity);
    if code != 0 { return; }
    EmitJoin(Field(push, -213), p5, e.bytes, capacity);
    code, len := PutField(push, -213, buf, len, capacity, before, e.bytes);
    e := Emit(Field(push, -213), e.bytes, capacity);
    if code != 0 { return; }
    code, len := PutField(power, -214, buf, len, capacity, before, e.bytes);
  }

  lemma DocumentIs(j: Json, now: Int32)
    requires j.Bounded()
    ensures DocumentPieces(j, now) == HeadPieces(j, now) + (LoggedPieces(j) + TailPieces(j))
  {
  }

  lemma HoldsNothing(before: seq<Byte>)
    ensures Holds(before, before, [])
  {
  }

  method ParseLogged(j: Json, buf: array<Byte>, len0: nat, capacity: int, ghost before: seq<Byte>, ghost out: seq<Byte>)
    returns (code: int, len: nat)
    requires j.Bounded()
    requires Holds(buf[..], before, out) && len0 == |out| <= capacity <= buf.Length
    modifies buf
    ensures Wrote(Emit(LoggedPieces(j), out, capacity), code, len, buf[..], before, capacity)
  {
    hide Holds, ArrayPieces, WordPieces;
    ghost var words := WordsField(j.words, -210, -211);
    EmitJoin(ArrayField(j.category, -208), words, out, capacity);
    ghost var e := Emit(ArrayField(j.category, -208), out, capacity);
    code, len := PutArray(j.category, -208, buf, len0, capacity, before, out);
    if code != 0 { return; }
    if j.words.None? { return -210, len; }
    var ret;
    ret, len := ParseArrayObject(j.words.value, buf, len, capacity, -211, before, e.bytes);
    code := if ret == -1 then -211 else if ret == -2 then -200 else 0;
  }

  method ParseTail(j: Json, buf: array<Byte>, len0: nat, capacity: int, ghost before: seq<Byte>, ghost out: seq<Byte>)
    returns (code: int, len: nat)
    requires j.Bounded()
    requires Holds(buf[..], before, out) && len0 == |out| <= capacity <= buf.Length
    modifies buf
    ensures Wrote(Emit(TailPieces(j), out, capacity), code, len, buf[..], before, capacity)
  {
    hide Emit, Holds, ArrayField;
    var flag := if j.topFlag.None? then None else Some(IntBytes(j.topFlag.value));
    ghost var p5 := ArrayField(j.topCircle, -218);
    ghost var p4 := ArrayField(j.topSrp, -216) + p5;
    ghost var p3 := Field(flag, -215) + p4;
    ghost var p2 := ArrayField(j.circle, -206) + p3;
    EmitJoin(ArrayField(j.srp, -204), p2, out, capacity);
    ghost var e := Emit(ArrayField(j.srp, -204), out, capacity);
    code, len := PutArray(j.srp, -204, buf, len0, capacity, before, out);
    if code != 0 { return; }
    EmitJoin(ArrayField(j.circle, -206), p3, e.bytes, capacity);
    code, len := PutArray(j.circle, -206, buf, len, capacity, before, e.bytes);
    e := Emit(ArrayField(j.circle, -206), e.bytes, capacity);
    if code != 0 { return; }
    EmitJoin(Field(flag, -215), p4, e.bytes, capacity);
    code, len := PutField(flag, -215, buf, len, capacity, before, e.bytes);
    e := Emit(Field(flag, -215), e.bytes, capacity);
    if code != 0 { return; }
    EmitJoin(ArrayField(j.topSrp, -216), p5, e.bytes, capacity);
    code, len := PutArray(j.topSrp, -216, buf, len, capacity, before, e.bytes);
    e := Emit(ArrayField(j.topSrp, -216), e.bytes, capacity);
    if code != 0 { return; }
    code, len := PutArray(j.topCircle, -218, buf, len, capacity, before, e.bytes);
  }

  /**
   * Writes the document at the start of the buffer. Success means that every field was there and everything fitted;
   * then size is the number of bytes written. Whatever happens, nothing beyond the capacity is touched.
   */
  method ParseDocument(j: Json, now: Int32, buf: array<Byte>, capacity: nat) returns (code: int, size: nat)
    requires j.Bounded() && capacity <= buf.Length
    modifies buf
    ensures j.members != 12 ==> code == -201 && buf[..] == old(buf[..])
    ensures j.members == 12 ==>
              var e := Emit(DocumentPieces(j, now), [], capacity);
              code == CodeOf(e.status) && |e.bytes| <= capacity && Holds(buf[..], old(buf[..]), e.bytes)
    ensures code == 0 <==> j.members == 12 && j.Complete() && |Flatten(DocumentPieces(j, now))| <= capacity
    ensures code == 0 ==> size == |Flatten(DocumentPieces(j, now))| && buf[..size] == Flatten(DocumentPieces(j, now))
    ensures code == 0 ==> TakeRecord(buf[..size]) == Some(Taken(RecordOf(j, now), []))
    ensures code != 0 ==> size == capacity
    ensures j.members == 12 ==> (code == -200 <==> |BytesBefore(DocumentPieces(j, now))| > capacity)
    ensures j.members == 12 && code != -200 ==>
              code == if j.kind.None? then -202 else if j.docid.None? then -203 else if j.publicTime.None? then -212
                      else if j.pushTime.None? then -213 else if j.power.None? then -214
                      else if j.category.None? then -208 else if j.words.None? then -210
                      else if !WordsComplete(j.words.value) then -211
                      else if j.srp.None? then -204 else if j.circle.None? then -206 else if j.topFlag.None? then -215
                      else if j.topSrp.None? then -216 else if j.topCircle.None? then -218 else 0
  {
    hide Emit, HeadPieces, LoggedPieces, TailPieces, Flatten, NoFail, DocumentPieces, BytesBefore, TakeRecord, RecordOf,
      WordsComplete, FirstFail;
    code, size := -201, capacity;
    if j.members != 12 { return; }
    ghost var before := buf[..];
    ghost var rest := LoggedPieces(j) + TailPieces(j);
    EmitDone(DocumentPieces(j, now), [], capacity);
    CompleteIffNoFail(j, now);
    EmitCases(DocumentPieces(j, now), [], capacity);
    DocumentFirstFail(j, now);
    if j.Complete() {
      RecordRoundTrip(j, now, []);
      assert Flatten(DocumentPieces(j, now)) + [] == Flatten(DocumentPieces(j, now));
    }
    DocumentIs(j, now);
    EmitJoin(HeadPieces(j, now), rest, [], capacity);
    var len;
    code, len := ParseHead(j, now, buf, capacity, before);
    ghost var e := Emit(HeadPieces(j, now), [], capacity);
    if code != 0 { return; }
    EmitJoin(LoggedPieces(j), TailPieces(j), e.bytes, capacity);
    code, len := ParseLogged(j, buf, len, capacity, before, e.bytes);
    e := Emit(LoggedPieces(j), e.bytes, capacity);
    if code != 0 { return; }
    code, len := ParseTail(j, buf, len, capacity, before, e.bytes);
    if code != 0 { return; }
    size := len;
  }
}
