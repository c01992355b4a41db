// What the bytes of a document record of src/framework/CF_framework_center.h say: a walk over the whole record that
// gives all twelve fields back from the bytes alone.

module DocumentRecord {
  import opened Options
  import opened DocumentLayout

  /** The fields of fixed size, in their order. */
  datatype Fixed = Fixed(kind: int, docid: int, publicTime: int, pushTime: int, power: seq<Byte>)

  /** What follows the words. */
  datatype Rest = Rest(srp: seq<seq<Byte>>, circle: seq<seq<Byte>>, topFlag: int, topSrp: seq<seq<Byte>>,
                       topCircle: seq<seq<Byte>>)

  datatype Record = Record(fixed: Fixed, categories: seq<seq<Byte>>, words: seq<(seq<Byte>, int)>, rest: Rest)

  /** A value read from the front of some bytes, and the bytes behind it. */
  datatype Taken<+T> = Taken(value: T, more: seq<Byte>)

  // ----- The walk -----

  /** Four bytes, least significant first. */
  function Low32(s: seq<Byte>): nat
    requires |s| >= 4
  {
    s[0] as int + 0x100 * s[1] as int + 0x1_0000 * s[2] as int + 0x100_0000 * s[3] as int
  }

  function TakeInt(s: seq<Byte>): Option<Taken<int>> {
    if |s| < 4 then None
    else Some(Taken(if Low32(s) >= 0x8000_0000 then Low32(s) - 0x1_0000_0000 else Low32(s), s[4..]))
  }

  function TakeLong(s: seq<Byte>): Option<Taken<int>> {
    if |s| < 8 then None else Some(Taken(Low32(s) + 0x1_0000_0000 * Low32(s[4..]), s[8..]))
  }

  function TakeBytes(n: int, s: seq<Byte>): Option<Taken<seq<Byte>>> {
    if n < 0 || |s| < n then None else Some(Taken(s[..n], s[n..]))
  }

  /** A length and that many bytes. */
  function TakeText(s: seq<Byte>): Option<Taken<seq<Byte>>> {
    var n := TakeInt(s);
    if n.None? then None else TakeBytes(n.value.value, n.value.more)
  }

  function TakeTexts(n: int, s: seq<Byte>): Option<Taken<seq<seq<Byte>>>>
    decreases n
  {
    if n <= 0 then Some(Taken([], s))
    else
      var t := TakeText(s);
      if t.None? then None
      else
        var ts := TakeTexts(n - 1, t.value.more);
        if ts.None? then None else Some(Taken([t.value.value] + ts.value.value, ts.value.more))
  }

  /** A count and that many strings. */
  function TakeList(s: seq<Byte>): Option<Taken<seq<seq<Byte>>>> {
    var n := TakeInt(s);
    if n.None? then None else TakeTexts(n.value.value, n.value.more)
  }

  function TakeWords(n: int, s: seq<Byte>): Option<Taken<seq<(seq<Byte>, int)>>>
    decreases n
  {
    if n <= 0 then Some(Taken([], s))
    else
      var t := TakeText(s);
      if t.None? then None
      else
        var c := TakeInt(t.value.more);
        if c.None? then None
        else
          var ws := TakeWords(n - 1, c.value.more);
          if ws.None? then None else Some(Taken([(t.value.value, c.value.value)] + ws.value.value, ws.value.more))
  }

  /** A count and that many strings, each with a number. */
  function TakeWordList(s: seq<Byte>): Option<Taken<seq<(seq<Byte>, int)>>> {
    var n := TakeInt(s);
    if n.None? then None else TakeWords(n.value.value, n.value.more)
  }

  function TakeFixed(s: seq<Byte>): Option<Taken<Fixed>> {
    var kind := TakeInt(s);
    if kind.None? then None else
    var docid := TakeLong(kind.value.more);
    if docid.None? then None else
    var public := TakeInt(docid.value.more);
    if public.None? then None else
    var push := TakeInt(public.value.more);
    if push.None? then None else
    var power := TakeBytes(4, push.value.more);
    if power.None? then None else
    Some(Taken(Fixed(kind.value.value, docid.value.value, public.value.value, push.value.value, power.value.value),
               power.value.more))
  }

  function TakeRest(s: seq<Byte>): Option<Taken<Rest>> {
    var srp := TakeList(s);
    if srp.None? then None else
    var circle := TakeList(srp.value.more);
    if circle.None? then None else
    var flag := TakeInt(circle.value.more);
    if flag.None? then None else
    var topSrp := TakeList(flag.value.more);
    if topSrp.None? then None else
    var topCircle := TakeList(topSrp.value.more);
    if topCircle.None? then None else
    Some(Taken(Rest(srp.value.value, circle.value.value, flag.value.value, topSrp.value.value, topCircle.value.value),
               topCircle.value.more))
  }

  function TakeRecord(s: seq<Byte>): Option<Taken<Record>> {
    var fixed := TakeFixed(s);
    if fixed.None? then None else
    var categories := TakeList(fixed.value.more);
    if categories.None? then None else
    var words := TakeWordList(categories.value.more);
    if words.None? then None else
    var rest := TakeRest(words.value.more);
    if rest.None? then None else
    Some(Taken(Record(fixed.value.value, categories.value.value, words.value.value, rest.value.value), rest.value.more))
  }

  // ----- The record of a document -----

  function Plain(list: seq<Text>): seq<seq<Byte>> {
    seq(|list|, i requires 0 <= i < |list| => list[i])
  }

  function Counted(list: seq<WordJson>): seq<(seq<Byte>, int)>
    requires forall i :: 0 <= i < |list| ==> list[i].word.Some? && list[i].count.Some?
  {
    seq(|list|, i requires 0 <= i < |list| => (list[i].word.value, list[i].count.value))
  }

  /** The document as given, but for the push time, which is the time of writing. */
  ghost function RecordOf(j: Json, now: Int32): Record
    requires j.Complete()
  {
    Record(Fixed(j.kind.value, j.docid.value, j.publicTime.value, now, j.power.value),
           Plain(j.category.value), Counted(j.words.value),
           Rest(Plain(j.srp.value), Plain(j.circle.value), j.topFlag.value, Plain(j.topSrp.value),
                Plain(j.topCircle.value)))
  }

  // ----- The walk reads what was written -----

  lemma BytesStep(n: nat, k: nat)
    ensures Bytes(n, k + 1) == [n % 256] + Bytes(n / 256, k)
  {
  }

  function Above32(n: nat): nat { n / 256 / 256 / 256 / 256 }

  lemma FourThenMore(n: nat, k: nat)
    ensures Bytes(n, 4 + k) == Bytes(n, 4) + Bytes(Above32(n), k)
    ensures |Bytes(n, 4)| == 4 && Low32(Bytes(n, 4)) + 0x1_0000_0000 * Above32(n) == n
  {
    hide Bytes;
    var a, b, c, d := n / 256, n / 256 / 256, n / 256 / 256 / 256, Above32(n);
    FourSteps(n, k);
    FourSteps(n, 0);
    assert Bytes(d, 0) == [] by { NoBytes(d); }
    assert Bytes(n, 4) == [n % 256, a % 256, b % 256, c % 256];
    assert n == 256 * a + n % 256 && a == 256 * b + a % 256 && b == 256 * c + b % 256 && c == 256 * d + c % 256;
  }

  lemma NoBytes(n: nat)
    ensures Bytes(n, 0) == []
  {
  }

  lemma FourSteps(n: nat, k: nat)
    ensures Bytes(n, 4 + k)
         == [n % 256, n / 256 % 256, n / 256 / 256 % 256, n / 256 / 256 / 256 % 256] + Bytes(Above32(n), k)
  {
    hide Bytes;
    BytesStep(n, k + 3);
    BytesStep(n / 256, k + 2);
    BytesStep(n / 256 / 256, k + 1);
    BytesStep(n / 256 / 256 / 256, k);
  }

  lemma IntTaken(x: Int32, more: seq<Byte>)
    ensures TakeInt(IntBytes(x) + more) == Some(Taken(x, more))
  {
    hide Bytes;
    var n := if x < 0 then x + 0x1_0000_0000 else x;
    FourThenMore(n, 0);
    assert (IntBytes(x) + more)[4..] == more;
  }

  lemma LongTaken(x: UInt64, more: seq<Byte>)
    ensures TakeLong(Bytes(x, 8) + more) == Some(Taken(x, more))
  {
    hide Bytes, Low32, Above32;
    FourThenMore(x, 4);
    HighHalf(x);
    HalvesOf(Bytes(x, 4), Bytes(Above32(x), 4), more);
  }

  lemma HighHalf(x: UInt64)
    ensures |Bytes(Above32(x), 4)| == 4 && Low32(Bytes(Above32(x), 4)) == Above32(x)
  {
    hide Bytes, Low32;
    FourThenMore(x, 0);
    FourThenMore(Above32(x), 0);
  }

  lemma HalvesOf(a: seq<Byte>, b: seq<Byte>, more: seq<Byte>)
    requires |a| == 4 && |b| == 4
    ensures TakeLong((a + b) + more) == Some(Taken(Low32(a) + 0x1_0000_0000 * Low32(b), more))
  {
    var s := (a + b) + more;
    assert s[8..] == more;
    assert s[0] == a[0] && s[1] == a[1] && s[2] == a[2] && s[3] == a[3];
    assert s[4..][0] == b[0] && s[4..][1] == b[1] && s[4..][2] == b[2] && s[4..][3] == b[3];
  }

  lemma TextTaken(t: Text, more: seq<Byte>)
    ensures TakeText(IntBytes(|t|) + (t + more)) == Some(Taken(t, more))
  {
    hide IntBytes, TakeInt;
    IntTaken(|t|, t + more);
  }

  lemma {:induction false} TextsTaken(list: seq<Text>, more: seq<Byte>)
    ensures TakeTexts(|list|, TextBytes(list) + more) == Some(Taken(Plain(list), more))
  {
    hide IntBytes, TakeText;
    if list == [] {
      assert TextBytes(list) + more == more;
    } else {
      var rest := TextBytes(list[1..]);
      assert TextBytes(list) + more == IntBytes(|list[0]|) + (list[0] + (rest + more));
      TextTaken(list[0], rest + more);
      TextsTaken(list[1..], more);
      assert [list[0]] + Plain(list[1..]) == Plain(list);
    }
  }

  lemma ListTaken(list: seq<Text>, more: seq<Byte>)
    requires |list| < 0x8000_0000
    ensures TakeList(IntBytes(|list|) + (TextBytes(list) + more)) == Some(Taken(Plain(list), more))
  {
    hide IntBytes, TakeInt;
    IntTaken(|list|, TextBytes(list) + more);
    TextsTaken(list, more);
  }

  lemma {:induction false} WordsTaken(list: seq<WordJson>, more: seq<Byte>)
    requires forall i :: 0 <= i < |list| ==> list[i].word.Some? && list[i].count.Some?
    ensures TakeWords(|list|, WordBytes(list) + more) == Some(Taken(Counted(list), more))
  {
    hide IntBytes, TakeText, TakeInt;
    if list == [] {
      assert WordBytes(list) + more == more;
    } else {
      var t, n, rest := list[0].word.value, list[0].count.value, WordBytes(list[1..]);
      assert WordBytes(list) + more == IntBytes(|t|) + (t + (IntBytes(n) + (rest + more)));
      TextTaken(t, IntBytes(n) + (rest + more));
      IntTaken(n, rest + more);
      WordsTaken(list[1..], more);
      assert [(t, n as int)] + Counted(list[1..]) == Counted(list);
    }
  }

  lemma WordListTaken(list: seq<WordJson>, more: seq<Byte>)
    requires |list| < 0x8000_0000
    requires forall i :: 0 <= i < |list| ==> list[i].word.Some? && list[i].count.Some?
    ensures TakeWordList(IntBytes(|list|) + (WordBytes(list) + more)) == Some(Taken(Counted(list), more))
  {
    hide IntBytes, TakeInt;
    IntTaken(|list|, WordBytes(list) + more);
    WordsTaken(list, more);
  }

  lemma FixedTaken(j: Json, now: Int32, more: seq<Byte>)
    requires j.Complete()
    ensures TakeFixed(IntBytes(j.kind.value) + (Bytes(j.docid.value, 8) + (IntBytes(j.publicTime.value)
                      + (IntBytes(now) + (j.power.value + more)))))
         == Some(Taken(RecordOf(j, now).fixed, more))
  {
    hide IntBytes, Bytes, TakeInt, TakeLong;
    var s4 := j.power.value + more;
    var s3 := IntBytes(now) + s4;
    var s2 := IntBytes(j.publicTime.value) + s3;
    var s1 := Bytes(j.docid.value, 8) + s2;
    IntTaken(j.kind.value, s1);
    LongTaken(j.docid.value, s2);
    IntTaken(j.publicTime.value, s3);
    IntTaken(now, s4);
    assert s4[..4] == j.power.value && s4[4..] == more;
  }

  lemma RestTaken(j: Json, now: Int32, more: seq<Byte>)
    requires j.Bounded() && j.Complete()
    ensures TakeRest(IntBytes(|j.srp.value|) + (TextBytes(j.srp.value) + (IntBytes(|j.circle.value|)
                     + (TextBytes(j.circle.value) + (IntBytes(j.topFlag.value) + (IntBytes(|j.topSrp.value|)
                     + (TextBytes(j.topSrp.value) + (IntBytes(|j.topCircle.value|)
                     + (TextBytes(j.topCircle.value) + more)))))))))
         == Some(Taken(RecordOf(j, now).rest, more))
  {
    hide IntBytes, TextBytes, TakeInt, TakeList;
    var s4 := IntBytes(|j.topCircle.value|) + (TextBytes(j.topCircle.value) + more);
    var s3 := IntBytes(|j.topSrp.value|) + (TextBytes(j.topSrp.value) + s4);
    var s2 := IntBytes(j.topFlag.value) + s3;
    var s1 := IntBytes(|j.circle.value|) + (TextBytes(j.circle.value) + s2);
    ListTaken(j.srp.value, s1);
    ListTaken(j.circle.value, s2);
    IntTaken(j.topFlag.value, s3);
    ListTaken(j.topSrp.value, s4);
    ListTaken(j.topCircle.value, more);
  }

  /** Round trip: the bytes of a complete document, whatever follows them, are read back as its twelve fields. */
  lemma RecordRoundTrip(j: Json, now: Int32, more: seq<Byte>)
    requires j.Bounded() && j.Complete()
    ensures TakeRecord(Flatten(DocumentPieces(j, now)) + more) == Some(Taken(RecordOf(j, now), more))
  {
    hide IntBytes, Bytes, TextBytes, WordBytes, TakeFixed, TakeRest, TakeList, TakeWordList, DocumentPieces, Flatten;
    var s3 := IntBytes(|j.srp.value|) + (TextBytes(j.srp.value) + (IntBytes(|j.circle.value|)
                + (TextBytes(j.circle.value) + (IntBytes(j.topFlag.value) + (IntBytes(|j.topSrp.value|)
                + (TextBytes(j.topSrp.value) + (IntBytes(|j.topCircle.value|)
                + (TextBytes(j.topCircle.value) + more))))))));
    var s2 := IntBytes(|j.words.value|) + (WordBytes(j.words.value) + s3);
    var s1 := IntBytes(|j.category.value|) + (TextBytes(j.category.value) + s2);
    DocumentBytes(j, now, more);
    FixedTaken(j, now, s1);
    ListTaken(j.category.value, s2);
    WordListTaken(j.words.value, s3);
    RestTaken(j, now, more);
  }
}
