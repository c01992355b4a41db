// The binary document record of src/framework/CF_framework_center.h: how numbers and strings lie in memory, which
// pieces a document is written as, and what the bytes of a complete document are.

module DocumentLayout {
  import opened Options

  type Byte = x: int | 0 <= x < 256
  type Int32 = x: int | -0x8000_0000 <= x < 0x8000_0000
  type UInt64 = x: int | 0 <= x < 0x1_0000_0000_0000_0000

  /** A C string: no zero byte, and a length that an int holds. */
  type Text = s: seq<Byte> | |s| < 0x8000_0000 && forall i :: 0 <= i < |s| ==> s[i] != 0

  /** The four bytes of a float, which are copied and never interpreted. */
  type Float32 = s: seq<Byte> | |s| == 4 witness [0, 0, 0, 0]

  // ----- Numbers in memory -----

  function Pow256(k: nat): nat { if k == 0 then 1 else 256 * Pow256(k - 1) }

  /** The k low bytes of n, least significant first. */
  function Bytes(n: nat, k: nat): seq<Byte> {
    if k == 0 then [] else [n % 256] + Bytes(n / 256, k - 1)
  }

  function Value(s: seq<Byte>): nat {
    if s == [] then 0 else s[0] + 256 * Value(s[1..])
  }

  lemma {:induction false} BytesRoundTrip(n: nat, k: nat)
    requires n < Pow256(k)
    ensures |Bytes(n, k)| == k && Value(Bytes(n, k)) == n
  {
    if k > 0 {
      assert n / 256 < Pow256(k - 1);
      BytesRoundTrip(n / 256, k - 1);
      assert Bytes(n, k)[1..] == Bytes(n / 256, k - 1);
    }
  }

  /** Two's complement. */
  function IntBytes(x: Int32): seq<Byte> {
    Bytes(if x < 0 then x + 0x1_0000_0000 else x, 4)
  }

  function IntValue(s: seq<Byte>): int {
    if Value(s) >= 0x8000_0000 then Value(s) - 0x1_0000_0000 else Value(s)
  }

  lemma IntRoundTrip(x: Int32)
    ensures |IntBytes(x)| == 4 && IntValue(IntBytes(x)) == x
  {
    assert Pow256(4) == 256 * (256 * (256 * (256 * Pow256(0))));
    BytesRoundTrip(if x < 0 then x + 0x1_0000_0000 else x, 4);
  }

  lemma LongRoundTrip(x: UInt64)
    ensures |Bytes(x, 8)| == 8 && Value(Bytes(x, 8)) == x
  {
    assert Pow256(4) == 256 * (256 * (256 * (256 * Pow256(0))));
    assert Pow256(8) == 256 * (256 * (256 * (256 * Pow256(4))));
    BytesRoundTrip(x, 8);
  }

  // ----- The JSON input and the document it describes -----

  datatype WordJson = WordJson(word: Option<Text>, count: Option<Int32>)

  /** members is the number of members of the object; the others are what a lookup by name finds. */
  datatype Json = Json(members: int, kind: Option<Int32>, docid: Option<UInt64>, publicTime: Option<Int32>,
                       pushTime: Option<Int32>, power: Option<Float32>, category: Option<seq<Text>>,
                       words: Option<seq<WordJson>>, srp: Option<seq<Text>>, circle: Option<seq<Text>>,
                       topFlag: Option<Int32>, topSrp: Option<seq<Text>>, topCircle: Option<seq<Text>>)
  {
    /** Array sizes are ints. */
    predicate Bounded() {
      && (category.Some? ==> |category.value| < 0x8000_0000) && (words.Some? ==> |words.value| < 0x8000_0000)
      && (srp.Some? ==> |srp.value| < 0x8000_0000) && (circle.Some? ==> |circle.value| < 0x8000_0000)
      && (topSrp.Some? ==> |topSrp.value| < 0x8000_0000) && (topCircle.Some? ==> |topCircle.value| < 0x8000_0000)
    }

    /** Every field is there, down to the word and count of every word entry. */
    ghost predicate Complete() {
      && kind.Some? && docid.Some? && publicTime.Some? && pushTime.Some? && power.Some? && category.Some?
      && words.Some? && srp.Some? && circle.Some? && topFlag.Some? && topSrp.Some? && topCircle.Some?
      && forall i :: 0 <= i < |words.value| ==> words.value[i].word.Some? && words.value[i].count.Some?
    }
  }

  // ----- What is written: pieces in order, or the first missing field -----

  datatype Piece = Put(bytes: seq<Byte>) | Fail(code: int)

  datatype Status = Done | Missing(code: int) | Overflow
  datatype Emitted = Emitted(status: Status, bytes: seq<Byte>)

  /** Appends pieces while they fit; stops at the first one that does not, or at a missing field. */
  function Emit(pieces: seq<Piece>, out: seq<Byte>, capacity: int): Emitted
    decreases |pieces|
  {
    if pieces == [] then Emitted(Done, out)
    else match pieces[0]
      case Fail(code) => Emitted(Missing(code), out)
      case Put(b) =>
        if |out| + |b| > capacity then Emitted(Overflow, out) else Emit(pieces[1..], out + b, capacity)
  }

  function Flatten(pieces: seq<Piece>): seq<Byte> {
    if pieces == [] then []
    else (match pieces[0] case Fail(_) => [] case Put(b) => b) + Flatten(pieces[1..])
  }

  ghost predicate NoFail(pieces: seq<Piece>) {
    forall i :: 0 <= i < |pieces| ==> pieces[i].Put?
  }

  /** Emitting succeeds exactly when nothing is missing and everything fits, and then writes the concatenation. */
  lemma {:induction false} EmitDone(pieces: seq<Piece>, out: seq<Byte>, capacity: int)
    requires |out| <= capacity
    ensures Emit(pieces, out, capacity).status.Done?
        <==> NoFail(pieces) && |out| + |Flatten(pieces)| <= capacity
    ensures Emit(pieces, out, capacity).status.Done? ==> Emit(pieces, out, capacity).bytes == out + Flatten(pieces)
    ensures |Emit(pieces, out, capacity).bytes| <= capacity && out <= Emit(pieces, out, capacity).bytes
    decreases |pieces|
  {
    if pieces != [] && pieces[0].Put? {
      var b := pieces[0].bytes;
      if |out| + |b| <= capacity {
        EmitDone(pieces[1..], out + b, capacity);
        assert (out + b) + Flatten(pieces[1..]) == out + Flatten(pieces);
        assert NoFail(pieces) <==> NoFail(pieces[1..]) by {
          assert forall i :: 0 < i < |pieces| ==> pieces[i] == pieces[1..][i - 1];
        }
      }
    }
  }

  lemma {:induction false} EmitJoin(a: seq<Piece>, b: seq<Piece>, out: seq<Byte>, capacity: int)
    ensures var e := Emit(a, out, capacity);
            Emit(a + b, out, capacity) == if e.status.Done? then Emit(b, e.bytes, capacity) else e
    decreases |a|
  {
    if a == [] {
      assert a + b == b;
    } else {
      assert (a + b)[1..] == a[1..] + b;
      if a[0].Put? {
        EmitJoin(a[1..], b, out + a[0].bytes, capacity);
      }
    }
  }

  lemma {:induction false} FlattenJoin(a: seq<Piece>, b: seq<Piece>)
    ensures Flatten(a + b) == Flatten(a) + Flatten(b)
  {
    if a == [] {
      assert a + b == b;
    } else {
      assert (a + b)[1..] == a[1..] + b;
      FlattenJoin(a[1..], b);
    }
  }

  function Field(bytes: Option<seq<Byte>>, code: int): seq<Piece> {
    if bytes.None? then [Fail(code)] else [Put(bytes.value)]
  }

  function IntField(x: Option<Int32>, code: int): seq<Piece> {
    Field(if x.None? then None else Some(IntBytes(x.value)), code)
  }

  function TextPieces(list: seq<Text>): seq<Piece> {
    if list == [] then []
    else [Put(IntBytes(|list[0]|)), Put(list[0])] + TextPieces(list[1..])
  }

  function ArrayPieces(list: seq<Text>): seq<Piece>
    requires |list| < 0x8000_0000
  {
    [Put(IntBytes(|list|))] + TextPieces(list)
  }

  function ArrayField(list: Option<seq<Text>>, code: int): seq<Piece>
    requires list.Some? ==> |list.value| < 0x8000_0000
  {
    if list.None? then [Fail(code)] else ArrayPieces(list.value)
  }

  function WordPieces(list: seq<WordJson>, code: int): seq<Piece> {
    if list == [] then []
    else
      var w := list[0];
      (if w.word.None? then [Fail(code)] else [Put(IntBytes(|w.word.value|)), Put(w.word.value)])
      + (IntField(w.count, code) + WordPieces(list[1..], code))
  }

  function WordsField(list: Option<seq<WordJson>>, code: int, entryCode: int): seq<Piece>
    requires list.Some? ==> |list.value| < 0x8000_0000
  {
    if list.None? then [Fail(code)] else [Put(IntBytes(|list.value|))] + WordPieces(list.value, entryCode)
  }

  function HeadPieces(j: Json, now: Int32): seq<Piece> {
    IntField(j.kind, -202)
    + (Field(if j.docid.None? then None else Some(Bytes(j.docid.value, 8)), -203)
       + (IntField(j.publicTime, -212)
          + (Field(if j.pushTime.None? then None else Some(IntBytes(now)), -213)
             + Field(if j.power.None? then None else Some(j.power.value), -214))))
  }

  function LoggedPieces(j: Json): seq<Piece>
    requires j.Bounded()
  {
    ArrayField(j.category, -208) + WordsField(j.words, -210, -211)
  }

  function TailPieces(j: Json): seq<Piece>
    requires j.Bounded()
  {
    ArrayField(j.srp, -204)
    + (ArrayField(j.circle, -206)
       + (IntField(j.topFlag, -215)
          + (ArrayField(j.topSrp, -216) + ArrayField(j.topCircle, -218))))
  }

  /** Everything parse_document writes, in its order; now replaces the push time of the input. */
  function DocumentPieces(j: Json, now: Int32): seq<Piece>
    requires j.Bounded()
  {
    HeadPieces(j, now) + (LoggedPieces(j) + TailPieces(j))
  }

  lemma EmitPut(b: seq<Byte>, rest: seq<Piece>, out: seq<Byte>, capacity: int)
    ensures Emit([Put(b)] + rest, out, capacity)
         == if |out| + |b| > capacity then Emitted(Overflow, out) else Emit(rest, out + b, capacity)
  {
  }

  // ----- Completeness -----

  lemma {:induction false} NoFailJoin(a: seq<Piece>, b: seq<Piece>)
    ensures NoFail(a + b) <==> NoFail(a) && NoFail(b)
  {
    forall i | 0 <= i < |b| ensures b[i] == (a + b)[|a| + i] {}
    forall i | 0 <= i < |a| ensures a[i] == (a + b)[i] {}
  }

  lemma {:induction false} TextNoFail(list: seq<Text>)
    ensures NoFail(TextPieces(list))
  {
    if list != [] {
      TextNoFail(list[1..]);
    }
  }

  lemma {:induction false} WordNoFail(list: seq<WordJson>, code: int)
    ensures NoFail(WordPieces(list, code))
       <==> forall i :: 0 <= i < |list| ==> list[i].word.Some? && list[i].count.Some?
  {
    if list != [] {
      var w := list[0];
      var first := if w.word.None? then [Fail(code)] else [Put(IntBytes(|w.word.value|)), Put(w.word.value)];
      WordNoFail(list[1..], code);
      NoFailJoin(first, IntField(w.count, code) + WordPieces(list[1..], code));
      NoFailJoin(IntField(w.count, code), WordPieces(list[1..], code));
      assert NoFail(first) <==> w.word.Some? by { if w.word.None? { assert first[0] == Fail(code); } }
      assert NoFail(IntField(w.count, code)) <==> w.count.Some? by {
        FieldNoFail(if w.count.None? then None else Some(IntBytes(w.count.value)), code);
      }
      assert forall i :: 0 < i < |list| ==> list[i] == list[1..][i - 1];
    }
  }

  lemma FieldNoFail(bytes: Option<seq<Byte>>, code: int)
    ensures NoFail(Field(bytes, code)) <==> bytes.Some?
  {
    if bytes.None? { assert Field(bytes, code)[0] == Fail(code); }
  }

  lemma ArrayNoFail(list: Option<seq<Text>>, code: int)
    requires list.Some? ==> |list.value| < 0x8000_0000
    ensures NoFail(ArrayField(list, code)) <==> list.Some?
  {
    if list.None? {
      assert ArrayField(list, code)[0] == Fail(code);
    } else {
      TextNoFail(list.value);
    }
  }

  /** No field of the document is missing exactly when no piece is a failure. */
  lemma CompleteIffNoFail(j: Json, now: Int32)
    requires j.Bounded()
    ensures NoFail(DocumentPieces(j, now)) <==> j.Complete()
  {
    NoFailJoin(HeadPieces(j, now), LoggedPieces(j) + TailPieces(j));
    NoFailJoin(LoggedPieces(j), TailPieces(j));
    HeadNoFail(j, now);
    LoggedNoFail(j);
    TailNoFail(j);
  }

  lemma HeadNoFail(j: Json, now: Int32)
    ensures NoFail(HeadPieces(j, now))
        <==> j.kind.Some? && j.docid.Some? && j.publicTime.Some? && j.pushTime.Some? && j.power.Some?
  {
    hide NoFail;
    var docid := if j.docid.None? then None else Some(Bytes(j.docid.value, 8));
    var push := if j.pushTime.None? then None else Some(IntBytes(now));
    var power: Option<seq<Byte>> := if j.power.None? then None else Some(j.power.value);
    var kind := if j.kind.None? then None else Some(IntBytes(j.kind.value));
    var public := if j.publicTime.None? then None else Some(IntBytes(j.publicTime.value));
    var p5 := Field(power, -214);
    var p4 := Field(push, -213) + p5;
    var p3 := Field(public, -212) + p4;
    var p2 := Field(docid, -203) + p3;
    NoFailJoin(Field(kind, -202), p2);
    NoFailJoin(Field(docid, -203), p3);
    NoFailJoin(Field(public, -212), p4);
    NoFailJoin(Field(push, -213), p5);
    FieldNoFail(kind, -202);
    FieldNoFail(docid, -203);
    FieldNoFail(public, -212);
    FieldNoFail(push, -213);
    FieldNoFail(power, -214);
  }

  lemma LoggedNoFail(j: Json)
    requires j.Bounded()
    ensures NoFail(LoggedPieces(j)) <==>
      j.category.Some? && j.words.Some?
      && forall i :: 0 <= i < |j.words.value| ==> j.words.value[i].word.Some? && j.words.value[i].count.Some?
  {
    ArrayNoFail(j.category, -208);
    NoFailJoin(ArrayField(j.category, -208), WordsField(j.words, -210, -211));
    if j.words.Some? {
      WordNoFail(j.words.value, -211);
      NoFailJoin([Put(IntBytes(|j.words.value|))], WordPieces(j.words.value, -211));
    } else {
      assert WordsField(j.words, -210, -211)[0] == Fail(-210);
    }
  }

  lemma TailNoFail(j: Json)
    requires j.Bounded()
    ensures NoFail(TailPieces(j))
       <==> j.srp.Some? && j.circle.Some? && j.topFlag.Some? && j.topSrp.Some? && j.topCircle.Some?
  {
    hide NoFail, ArrayField;
    var flag := if j.topFlag.None? then None else Some(IntBytes(j.topFlag.value));
    var p5 := ArrayField(j.topCircle, -218);
    var p4 := ArrayField(j.topSrp, -216) + p5;
    var p3 := Field(flag, -215) + p4;
    var p2 := ArrayField(j.circle, -206) + p3;
    NoFailJoin(ArrayField(j.srp, -204), p2);
    NoFailJoin(ArrayField(j.circle, -206), p3);
    NoFailJoin(Field(flag, -215), p4);
    NoFailJoin(ArrayField(j.topSrp, -216), p5);
    ArrayNoFail(j.srp, -204);
    ArrayNoFail(j.circle, -206);
    FieldNoFail(flag, -215);
    ArrayNoFail(j.topSrp, -216);
    ArrayNoFail(j.topCircle, -218);
  }

  // ----- The first missing field -----

  function FirstFail(pieces: seq<Piece>): Option<int> {
    if pieces == [] then None
    else match pieces[0]
      case Fail(code) => Some(code)
      case Put(_) => FirstFail(pieces[1..])
  }

  /** The bytes in front of the first missing field. */
  function BytesBefore(pieces: seq<Piece>): seq<Byte> {
    if pieces == [] || pieces[0].Fail? then [] else pieces[0].bytes + BytesBefore(pieces[1..])
  }

  /** Writing overflows exactly when what comes before the first missing field is too long; else that field decides. */
  lemma {:induction false} EmitCases(pieces: seq<Piece>, out: seq<Byte>, capacity: int)
    requires |out| <= capacity
    ensures Emit(pieces, out, capacity).status
         == if |out| + |BytesBefore(pieces)| > capacity then Overflow
            else if FirstFail(pieces).None? then Done else Missing(FirstFail(pieces).value)
    decreases |pieces|
  {
    if pieces != [] && pieces[0].Put? && |out| + |pieces[0].bytes| <= capacity {
      EmitCases(pieces[1..], out + pieces[0].bytes, capacity);
    }
  }

  lemma {:induction false} FirstFailJoin(a: seq<Piece>, b: seq<Piece>)
    ensures FirstFail(a + b) == if FirstFail(a).Some? then FirstFail(a) else FirstFail(b)
  {
    if a == [] {
      assert a + b == b;
    } else {
      assert (a + b)[1..] == a[1..] + b;
      FirstFailJoin(a[1..], b);
    }
  }

  lemma FieldFirstFail(bytes: Option<seq<Byte>>, code: int)
    ensures FirstFail(Field(bytes, code)) == if bytes.None? then Some(code) else None
  {
  }

  lemma {:induction false} TextFirstFail(list: seq<Text>)
    ensures FirstFail(TextPieces(list)) == None
  {
    if list != [] {
      TextFirstFail(list[1..]);
      FirstFailJoin([Put(IntBytes(|list[0]|)), Put(list[0])], TextPieces(list[1..]));
      PairFirstFail(IntBytes(|list[0]|), list[0]);
    }
  }

  lemma PairFirstFail(a: seq<Byte>, b: seq<Byte>)
    ensures FirstFail([Put(a), Put(b)]) == None && FirstFail([Put(a)]) == None
  {
    assert [Put(a), Put(b)][1..] == [Put(b)] && [Put(b)][1..] == [] && [Put(a)][1..] == [];
    assert FirstFail([Put(b)]) == FirstFail([]);
  }

  lemma ArrayFirstFail(list: Option<seq<Text>>, code: int)
    requires list.Some? ==> |list.value| < 0x8000_0000
    ensures FirstFail(ArrayField(list, code)) == if list.None? then Some(code) else None
  {
    if list.Some? {
      TextFirstFail(list.value);
      FirstFailJoin([Put(IntBytes(|list.value|))], TextPieces(list.value));
    }
  }

  lemma {:induction false} WordFirstFail(list: seq<WordJson>, code: int)
    ensures FirstFail(WordPieces(list, code))
         == if forall i :: 0 <= i < |list| ==> list[i].word.Some? && list[i].count.Some? then None else Some(code)
  {
    if list != [] {
      var w := list[0];
      var first := if w.word.None? then [Fail(code)] else [Put(IntBytes(|w.word.value|)), Put(w.word.value)];
      WordFirstFail(list[1..], code);
      FirstFailJoin(first, IntField(w.count, code) + WordPieces(list[1..], code));
      FirstFailJoin(IntField(w.count, code), WordPieces(list[1..], code));
      FieldFirstFail(if w.count.None? then None else Some(IntBytes(w.count.value)), code);
      if w.word.Some? {
        PairFirstFail(IntBytes(|w.word.value|), w.word.value);
      }
      assert forall i :: 0 < i < |list| ==> list[i] == list[1..][i - 1];
    }
  }

  lemma WordsFirstFail(list: Option<seq<WordJson>>)
    requires list.Some? ==> |list.value| < 0x8000_0000
    ensures FirstFail(WordsField(list, -210, -211))
         == if list.None? then Some(-210)
            else if WordsComplete(list.value) then None else Some(-211)
  {
    if list.Some? {
      WordFirstFail(list.value, -211);
      FirstFailJoin([Put(IntBytes(|list.value|))], WordPieces(list.value, -211));
    }
  }

  lemma HeadFirstFail(j: Json, now: Int32)
    ensures FirstFail(HeadPieces(j, now))
         == if j.kind.None? then Some(-202) else if j.docid.None? then Some(-203)
            else if j.publicTime.None? then Some(-212) else if j.pushTime.None? then Some(-213)
            else if j.power.None? then Some(-214) else None
  {
    hide FirstFail, Field;
    var docid := if j.docid.None? then None else Some(Bytes(j.docid.value, 8));
    var push := if j.pushTime.None? then None else Some(IntBytes(now));
    var power: Option<seq<Byte>> := if j.power.None? then None else Some(j.power.value);
    var kind := if j.kind.None? then None else Some(IntBytes(j.kind.value));
    var public := if j.publicTime.None? then None else Some(IntBytes(j.publicTime.value));
    var p5 := Field(power, -214);
    var p4 := Field(push, -213) + p5;
    var p3 := Field(public, -212) + p4;
    var p2 := Field(docid, -203) + p3;
    FirstFailJoin(Field(kind, -202), p2);
    FirstFailJoin(Field(docid, -203), p3);
    FirstFailJoin(Field(public, -212), p4);
    FirstFailJoin(Field(push, -213), p5);
    FieldFirstFail(kind, -202);
    FieldFirstFail(docid, -203);
    FieldFirstFail(public, -212);
    FieldFirstFail(push, -213);
    FieldFirstFail(power, -214);
  }

  lemma TailFirstFail(j: Json)
    requires j.Bounded()
    ensures FirstFail(TailPieces(j))
         == if j.srp.None? then Some(-204) else if j.circle.None? then Some(-206)
            else if j.topFlag.None? then Some(-215) else if j.topSrp.None? then Some(-216)
            else if j.topCircle.None? then Some(-218) else None
  {
    hide FirstFail, ArrayField;
    var flag := if j.topFlag.None? then None else Some(IntBytes(j.topFlag.value));
    var p5 := ArrayField(j.topCircle, -218);
    var p4 := ArrayField(j.topSrp, -216) + p5;
    var p3 := Field(flag, -215) + p4;
    var p2 := ArrayField(j.circle, -206) + p3;
    FirstFailJoin(ArrayField(j.srp, -204), p2);
    FirstFailJoin(ArrayField(j.circle, -206), p3);
    FirstFailJoin(Field(flag, -215), p4);
    FirstFailJoin(ArrayField(j.topSrp, -216), p5);
    ArrayFirstFail(j.srp, -204);
    ArrayFirstFail(j.circle, -206);
    FieldFirstFail(flag, -215);
    ArrayFirstFail(j.topSrp, -216);
    ArrayFirstFail(j.topCircle, -218);
  }

  ghost predicate WordsComplete(list: seq<WordJson>) {
    forall i :: 0 <= i < |list| ==> list[i].word.Some? && list[i].count.Some?
  }

  /** The code of the first missing field, in the order of writing. */
  lemma DocumentFirstFail(j: Json, now: Int32)
    requires j.Bounded()
    ensures FirstFail(DocumentPieces(j, now))
         == if j.kind.None? then Some(-202) else if j.docid.None? then Some(-203)
            else if j.publicTime.None? then Some(-212) else if j.pushTime.None? then Some(-213)
            else if j.power.None? then Some(-214) else if j.category.None? then Some(-208)
            else if j.words.None? then Some(-210) else if !WordsComplete(j.words.value) then Some(-211)
            else if j.srp.None? then Some(-204) else if j.circle.None? then Some(-206)
            else if j.topFlag.None? then Some(-215) else if j.topSrp.None? then Some(-216)
            else if j.topCircle.None? then Some(-218) else None
  {
    hide FirstFail, HeadPieces, TailPieces, ArrayField, WordsField;
    FirstFailJoin(HeadPieces(j, now), LoggedPieces(j) + TailPieces(j));
    FirstFailJoin(LoggedPieces(j), TailPieces(j));
    FirstFailJoin(ArrayField(j.category, -208), WordsField(j.words, -210, -211));
    HeadFirstFail(j, now);
    ArrayFirstFail(j.category, -208);
    WordsFirstFail(j.words);
    TailFirstFail(j);
  }

  // ----- The bytes of a complete document -----

  function TextBytes(list: seq<Text>): seq<Byte> {
    if list == [] then [] else IntBytes(|list[0]|) + (list[0] + TextBytes(list[1..]))
  }

  lemma {:induction false} TextBytesAre(list: seq<Text>)
    ensures Flatten(TextPieces(list)) == TextBytes(list)
  {
    if list != [] {
      TextBytesAre(list[1..]);
      var pair := [Put(IntBytes(|list[0]|)), Put(list[0])];
      FlattenJoin(pair, TextPieces(list[1..]));
      FlattenPair(IntBytes(|list[0]|), list[0]);
    }
  }

  lemma FlattenPair(a: seq<Byte>, b: seq<Byte>)
    ensures Flatten([Put(a), Put(b)]) == a + b
  {
    FlattenOne(a);
    FlattenOne(b);
    FlattenJoin([Put(a)], [Put(b)]);
    assert [Put(a)] + [Put(b)] == [Put(a), Put(b)];
  }

  lemma FlattenOne(a: seq<Byte>)
    ensures Flatten([Put(a)]) == a
  {
  }

  function WordBytes(list: seq<WordJson>): seq<Byte>
    requires forall i :: 0 <= i < |list| ==> list[i].word.Some? && list[i].count.Some?
  {
    if list == [] then []
    else IntBytes(|list[0].word.value|) + (list[0].word.value + (IntBytes(list[0].count.value) + WordBytes(list[1..])))
  }

  lemma {:induction false} WordBytesAre(list: seq<WordJson>, code: int)
    requires forall i :: 0 <= i < |list| ==> list[i].word.Some? && list[i].count.Some?
    ensures Flatten(WordPieces(list, code)) == WordBytes(list)
  {
    if list != [] {
      WordBytesAre(list[1..], code);
      var a, b, c := IntBytes(|list[0].word.value|), list[0].word.value, IntBytes(list[0].count.value);
      FlattenJoin([Put(a), Put(b)], [Put(c)] + WordPieces(list[1..], code));
      FlattenJoin([Put(c)], WordPieces(list[1..], code));
      FlattenPair(a, b);
      FlattenOne(c);
      assert (a + b) + (c + WordBytes(list[1..])) == a + (b + (c + WordBytes(list[1..])));
    }
  }

  lemma BytesUpToTail(j: Json, now: Int32)
    requires j.Bounded() && j.Complete()
    ensures Flatten(DocumentPieces(j, now))
         == IntBytes(j.kind.value) + (Bytes(j.docid.value, 8) + (IntBytes(j.publicTime.value) + (IntBytes(now)
            + (j.power.value + (IntBytes(|j.category.value|) + (TextBytes(j.category.value)
            + (IntBytes(|j.words.value|) + (WordBytes(j.words.value) + Flatten(TailPieces(j))))))))))
  {
    FlattenJoin(HeadPieces(j, now), LoggedPieces(j) + TailPieces(j));
    FlattenJoin(LoggedPieces(j), TailPieces(j));
    HeadBytes(j, now);
    LoggedBytes(j);
    var a, b, c := IntBytes(j.kind.value), Bytes(j.docid.value, 8), IntBytes(j.publicTime.value);
    var d, e := IntBytes(now), j.power.value;
    Reassociate5(a, b, c, d, e, Flatten(LoggedPieces(j)) + Flatten(TailPieces(j)));
    Reassociate5(IntBytes(|j.category.value|), TextBytes(j.category.value), IntBytes(|j.words.value|),
                 WordBytes(j.words.value), [], Flatten(TailPieces(j)));
  }

  /** The bytes of a complete document, all twelve fields in order, in front of whatever follows them. */
  lemma DocumentBytes(j: Json, now: Int32, more: seq<Byte>)
    requires j.Bounded() && j.Complete()
    ensures Flatten(DocumentPieces(j, now)) + more
         == IntBytes(j.kind.value) + (Bytes(j.docid.value, 8) + (IntBytes(j.publicTime.value) + (IntBytes(now)
            + (j.power.value
            + (IntBytes(|j.category.value|) + (TextBytes(j.category.value)
            + (IntBytes(|j.words.value|) + (WordBytes(j.words.value)
            + (IntBytes(|j.srp.value|) + (TextBytes(j.srp.value)
            + (IntBytes(|j.circle.value|) + (TextBytes(j.circle.value)
            + (IntBytes(j.topFlag.value)
            + (IntBytes(|j.topSrp.value|) + (TextBytes(j.topSrp.value)
            + (IntBytes(|j.topCircle.value|) + (TextBytes(j.topCircle.value) + more)))))))))))))))))
  {
    hide IntBytes, Bytes, TextBytes, WordBytes, Flatten, DocumentPieces, TailPieces;
    BytesUpToTail(j, now);
    TailBytes(j);
    var a, b, c := IntBytes(j.kind.value), Bytes(j.docid.value, 8), IntBytes(j.publicTime.value);
    var d, e := IntBytes(now), j.power.value;
    var f, g := IntBytes(|j.category.value|), TextBytes(j.category.value);
    var h, i := IntBytes(|j.words.value|), WordBytes(j.words.value);
    var tail := Flatten(TailPieces(j));
    Reassociate5(a, b, c, d, e + (f + (g + (h + (i + tail)))), more);
    Reassociate5(e, f, g, h, i + tail, more);
    assert (i + tail) + more == i + (tail + more);
    var k, l := IntBytes(|j.srp.value|), TextBytes(j.srp.value);
    var m, n := IntBytes(|j.circle.value|), TextBytes(j.circle.value);
    var o, p, q := IntBytes(j.topFlag.value), IntBytes(|j.topSrp.value|), TextBytes(j.topSrp.value);
    var r, s := IntBytes(|j.topCircle.value|), TextBytes(j.topCircle.value);
    Reassociate5(k, l, m, n, o + (p + (q + (r + s))), more);
    Reassociate5(o, p, q, r, s, more);
  }

  /** The second half of the record. */
  lemma TailBytes(j: Json)
    requires j.Bounded() && j.Complete()
    ensures Flatten(TailPieces(j))
         == IntBytes(|j.srp.value|) + (TextBytes(j.srp.value)
            + (IntBytes(|j.circle.value|) + (TextBytes(j.circle.value)
            + (IntBytes(j.topFlag.value)
            + (IntBytes(|j.topSrp.value|) + (TextBytes(j.topSrp.value)
            + (IntBytes(|j.topCircle.value|) + TextBytes(j.topCircle.value))))))))
  {
    hide IntBytes, TextBytes, Flatten, ArrayPieces;
    var p5 := ArrayField(j.topCircle, -218);
    var p4 := ArrayField(j.topSrp, -216) + p5;
    var p3 := IntField(j.topFlag, -215) + p4;
    var p2 := ArrayField(j.circle, -206) + p3;
    FlattenJoin(ArrayField(j.srp, -204), p2);
    FlattenJoin(ArrayField(j.circle, -206), p3);
    FlattenJoin(IntField(j.topFlag, -215), p4);
    FlattenJoin(ArrayField(j.topSrp, -216), p5);
    ArrayBytes(j.srp.value);
    ArrayBytes(j.circle.value);
    FlattenOne(IntBytes(j.topFlag.value));
    ArrayBytes(j.topSrp.value);
    ArrayBytes(j.topCircle.value);
    Associate(IntBytes(|j.srp.value|), TextBytes(j.srp.value), Flatten(p2));
    Associate(IntBytes(|j.circle.value|), TextBytes(j.circle.value), Flatten(p3));
    Associate(IntBytes(|j.topSrp.value|), TextBytes(j.topSrp.value), Flatten(p5));
  }

  lemma ArrayBytes(list: seq<Text>)
    requires |list| < 0x8000_0000
    ensures Flatten(ArrayPieces(list)) == IntBytes(|list|) + TextBytes(list)
  {
    FlattenJoin([Put(IntBytes(|list|))], TextPieces(list));
    FlattenOne(IntBytes(|list|));
    TextBytesAre(list);
  }

  lemma Associate(a: seq<Byte>, b: seq<Byte>, c: seq<Byte>)
    ensures (a + b) + c == a + (b + c)
  {
  }

  lemma Reassociate5(a: seq<Byte>, b: seq<Byte>, c: seq<Byte>, d: seq<Byte>, e: seq<Byte>, f: seq<Byte>)
    ensures (a + (b + (c + (d + e)))) + f == a + (b + (c + (d + (e + f))))
    ensures (a + (b + (c + d))) + f == a + (b + (c + (d + f)))
  {
  }

  lemma HeadBytes(j: Json, now: Int32)
    requires j.Complete()
    ensures Flatten(HeadPieces(j, now))
         == IntBytes(j.kind.value)
            + (Bytes(j.docid.value, 8) + (IntBytes(j.publicTime.value) + (IntBytes(now) + j.power.value)))
  {
    var a, b, c := IntBytes(j.kind.value), Bytes(j.docid.value, 8), IntBytes(j.publicTime.value);
    var d, e := IntBytes(now), j.power.value;
    FlattenJoin([Put(a)], [Put(b)] + ([Put(c)] + ([Put(d)] + [Put(e)])));
    FlattenJoin([Put(b)], [Put(c)] + ([Put(d)] + [Put(e)]));
    FlattenJoin([Put(c)], [Put(d)] + [Put(e)]);
    FlattenJoin([Put(d)], [Put(e)]);
    FlattenOne(a);
    FlattenOne(b);
    FlattenOne(c);
    FlattenOne(d);
    FlattenOne(e);
  }

  lemma LoggedBytes(j: Json)
    requires j.Bounded() && j.Complete()
    ensures Flatten(LoggedPieces(j))
         == IntBytes(|j.category.value|)
            + (TextBytes(j.category.value) + (IntBytes(|j.words.value|) + WordBytes(j.words.value)))
  {
    FlattenJoin(ArrayField(j.category, -208), WordsField(j.words, -210, -211));
    FlattenJoin([Put(IntBytes(|j.category.value|))], TextPieces(j.category.value));
    FlattenJoin([Put(IntBytes(|j.words.value|))], WordPieces(j.words.value, -211));
    FlattenOne(IntBytes(|j.category.value|));
    FlattenOne(IntBytes(|j.words.value|));
    TextBytesAre(j.category.value);
    WordBytesAre(j.words.value, -211);
  }
}
