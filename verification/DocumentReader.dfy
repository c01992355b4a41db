// save_log_document in src/framework/CF_framework_center.h: an independent walk over the record that prints
// strings by terminating them in place for a moment.

module DocumentReader {
  import opened Options
  import opened DocumentLayout
  import opened DocumentRecord
  import opened DocumentWriter

  /** What one line of the document log says, in its order. */
  datatype LogLine = LogLine(docid: int, pushTime: int, categoryNum: int, categories: seq<seq<Byte>>,
                             wordNum: int, words: seq<(seq<Byte>, int)>)

  ghost function Logged(j: Json, now: Int32): LogLine
    requires j.Complete()
  {
    LogLine(j.docid.value, now, |j.category.value|, Plain(j.category.value), |j.words.value|, Counted(j.words.value))
  }

  /** What printf prints for a string: the bytes up to the first zero. */
  function CString(s: seq<Byte>): seq<Byte> {
    if s == [] || s[0] == 0 then [] else [s[0]] + CString(s[1..])
  }

  lemma {:induction false} CStringStops(t: seq<Byte>, rest: seq<Byte>)
    requires forall i :: 0 <= i < |t| ==> t[i] != 0
    ensures CString(t + ([0] + rest)) == t
  {
    if t == [] {
      assert t + ([0] + rest) == [0] + rest;
    } else {
      assert (t + ([0] + rest))[1..] == t[1..] + ([0] + rest);
      CStringStops(t[1..], rest);
    }
  }

  lemma Peel(memory: seq<Byte>, p: nat, head: seq<Byte>, more: seq<Byte>)
    requires p <= |memory| && memory[p..] == head + more
    ensures p + |head| <= |memory| && memory[p..p + |head|] == head && memory[p + |head|..] == more
  {
  }

  /** Terminates the string in place, prints it and puts the overwritten byte back. */
  method PrintText(buf: array<Byte>, p: nat, len: nat) returns (text: seq<Byte>)
    requires p + len < buf.Length && forall i :: p <= i < p + len ==> buf[i] != 0
    modifies buf
    ensures buf[..] == old(buf[..]) && text == old(buf[p..p + len])
  {
    var chr := buf[p + len];
    ghost var t := buf[p..p + len];
    buf[p + len] := 0;
    assert buf[p..] == t + ([0] + buf[p + len + 1..]);
    CStringStops(t, buf[p + len + 1..]);
    text := CString(buf[p..]);
    buf[p + len] := chr;
    assert buf[..] == old(buf[..]);
  }

  /** A length-prefixed string at p: its length, its bytes, and where the next field starts. */
  method ReadText(buf: array<Byte>, p: nat, ghost t: Text, ghost more: seq<Byte>) returns (text: seq<Byte>, next: nat)
    requires p <= buf.Length && buf[..][p..] == IntBytes(|t|) + (t + more) && more != []
    modifies buf
    ensures buf[..] == old(buf[..]) && text == t
    ensures next <= buf.Length && buf[..][next..] == more
  {
    ghost var memory := buf[..];
    IntRoundTrip(|t|);
    Peel(memory, p, IntBytes(|t|), t + more);
    Peel(memory, p + 4, t, more);
    assert buf[p..p + 4] == memory[p..p + 4];
    var len := IntValue(buf[p..p + 4]);
    assert buf[p + 4..p + 4 + len] == memory[p + 4..p + 4 + len] == t;
    forall i | p + 4 <= i < p + 4 + len ensures buf[i] != 0 {
      assert buf[i] == t[i - p - 4];
    }
    text := PrintText(buf, p + 4, len);
    next := p + 4 + len;
  }

  /** Walks over the categories; buf is as before when it is done. */
  method ReadTexts(buf: array<Byte>, p: nat, num: nat, ghost list: seq<Text>, ghost more: seq<Byte>)
    returns (texts: seq<seq<Byte>>, next: nat)
    requires num == |list| && p <= buf.Length && buf[..][p..] == TextBytes(list) + more && more != []
    modifies buf
    ensures buf[..] == old(buf[..]) && texts == Plain(list)
    ensures next <= buf.Length && buf[..][next..] == more
  {
    hide TextBytes, IntBytes;
    texts, next := [], p;
    assert list[0..] == list;
    for i := 0 to num
      invariant buf[..] == old(buf[..]) && next <= buf.Length
      invariant buf[..][next..] == TextBytes(list[i..]) + more
      invariant texts == Plain(list[..i])
    {
      TextsHead(list, i, more);
      var text;
      text, next := ReadText(buf, next, list[i], TextBytes(list[i + 1..]) + more);
      texts := texts + [text];
    }
    assert list[..num] == list;
    TextsEnd(list, more);
  }

  lemma TextsHead(list: seq<Text>, i: nat, more: seq<Byte>)
    requires i < |list|
    ensures TextBytes(list[i..]) + more == IntBytes(|list[i]|) + (list[i] + (TextBytes(list[i + 1..]) + more))
    ensures Plain(list[..i + 1]) == Plain(list[..i]) + [list[i]]
  {
    hide IntBytes;
    assert list[i..][1..] == list[i + 1..];
  }

  lemma TextsEnd(list: seq<Text>, more: seq<Byte>)
    ensures TextBytes(list[|list|..]) + more == more
  {
  }

  /** Walks over the words and their counts. */
  method ReadWords(buf: array<Byte>, p: nat, num: nat, ghost list: seq<WordJson>, ghost more: seq<Byte>)
    returns (words: seq<(seq<Byte>, int)>)
    requires forall i :: 0 <= i < |list| ==> list[i].word.Some? && list[i].count.Some?
    requires num == |list| && p <= buf.Length && buf[..][p..] == WordBytes(list) + more
    modifies buf
    ensures buf[..] == old(buf[..]) && words == Counted(list)
  {
    hide IntBytes, IntValue;
    words := [];
    var next: nat := p;
    assert list[0..] == list;
    for i := 0 to num
      invariant next <= buf.Length && buf[..] == old(buf[..])
      invariant buf[..][next..] == WordBytes(list[i..]) + more
      invariant words == Counted(list[..i])
    {
      assert list[i..][1..] == list[i + 1..] && list[i..][0] == list[i];
      ghost var t, n := list[i].word.value, list[i].count.value;
      ghost var rest := WordBytes(list[i + 1..]) + more;
      WordHead(IntBytes(|t|), t, IntBytes(n), WordBytes(list[i + 1..]), more);
      IntRoundTrip(n);
      var text;
      text, next := ReadText(buf, next, t, IntBytes(n) + rest);
      Peel(buf[..], next, IntBytes(n), rest);
      assert buf[next..next + 4] == buf[..][next..next + 4];
      words := words + [(text, IntValue(buf[next..next + 4]))];
      next := next + 4;
      assert list[..i + 1] == list[..i] + [list[i]];
    }
    assert list[..num] == list;
  }

  lemma WordHead(a: seq<Byte>, b: seq<Byte>, c: seq<Byte>, d: seq<Byte>, more: seq<Byte>)
    ensures (a + (b + (c + d))) + more == a + (b + (c + (d + more)))
  {
  }

  /**
   * Reads a document record at the start of the buffer. The line repeats the document's id, the time it was received,
   * its categories and its words with their counts; the buffer ends up byte for byte as it was.
   */
  method SaveLogDocument(buf: array<Byte>, ghost j: Json, ghost now: Int32) returns (line: LogLine)
    requires j.Bounded() && j.Complete()
    requires Flatten(DocumentPieces(j, now)) <= buf[..]
    modifies buf
    ensures buf[..] == old(buf[..]) && line == Logged(j, now)
  {
    hide TextBytes, WordBytes, TailPieces, DocumentPieces, Flatten, IntBytes, Bytes, IntValue, Value;
    ghost var memory := buf[..];
    ghost var after := Flatten(TailPieces(j)) + memory[|Flatten(DocumentPieces(j, now))|..];
    ghost var words := IntBytes(|j.words.value|) + (WordBytes(j.words.value) + after);
    ghost var logged := IntBytes(|j.category.value|) + (TextBytes(j.category.value) + words);
    RecordFields(j, now, memory, after);
    IntRoundTrip(|j.category.value|);
    IntRoundTrip(|j.words.value|);

    assert buf[4..12] == memory[4..12] && buf[16..20] == memory[16..20] && buf[24..28] == memory[24..28];
    var docid, pushTime := Value(buf[4..12]), IntValue(buf[16..20]);
    var num := IntValue(buf[24..28]);
    var categories, next := ReadTexts(buf, 28, num, j.category.value, words);
    Peel(memory, next, IntBytes(|j.words.value|), WordBytes(j.words.value) + after);
    assert buf[next..next + 4] == memory[next..next + 4];
    var wordNum := IntValue(buf[next..next + 4]);
    var found := ReadWords(buf, next + 4, wordNum, j.words.value, after);
    line := LogLine(docid, pushTime, num, categories, wordNum, found);
  }

  /** Where the reader finds the fixed fields and where the categories start. */
  lemma RecordFields(j: Json, now: Int32, memory: seq<Byte>, after: seq<Byte>)
    requires j.Bounded() && j.Complete()
    requires var f := Flatten(DocumentPieces(j, now)); f <= memory && after == Flatten(TailPieces(j)) + memory[|f|..]
    ensures |memory| >= 28 && Value(memory[4..12]) == j.docid.value && IntValue(memory[16..20]) == now
    ensures memory[24..28] == IntBytes(|j.category.value|)
    ensures memory[28..]
         == TextBytes(j.category.value) + (IntBytes(|j.words.value|) + (WordBytes(j.words.value) + after))
  {
    hide TextBytes, WordBytes, TailPieces, DocumentPieces, Flatten, IntBytes, Bytes, IntValue, Value;
    BytesUpToTail(j, now);
    var f := Flatten(DocumentPieces(j, now));
    var tail := memory[|f|..];
    var a, b, c := IntBytes(j.kind.value), Bytes(j.docid.value, 8), IntBytes(j.publicTime.value);
    var d, e := IntBytes(now), j.power.value;
    var num, texts := IntBytes(|j.category.value|), TextBytes(j.category.value);
    var wordNum, words, rest := IntBytes(|j.words.value|), WordBytes(j.words.value), Flatten(TailPieces(j));
    assert memory == f + tail;
    var x := num + (texts + (wordNum + (words + rest)));
    assert x + tail == num + (texts + (wordNum + (words + after))) by {
      Reassociate5(num, texts, wordNum, words, rest, tail);
    }
    assert f + tail == a + (b + (c + (d + (e + (x + tail))))) by {
      Reassociate5(a, b, c, d, e + x, tail);
      assert (e + x) + tail == e + (x + tail);
    }
    IntRoundTrip(j.kind.value);
    LongRoundTrip(j.docid.value);
    IntRoundTrip(j.publicTime.value);
    IntRoundTrip(now);
    IntRoundTrip(|j.category.value|);
    assert memory[0..] == memory;
    Peel(memory, 0, a, b + (c + (d + (e + (x + tail)))));
    Peel(memory, 4, b, c + (d + (e + (x + tail))));
    Peel(memory, 12, c, d + (e + (x + tail)));
    Peel(memory, 16, d, e + (x + tail));
    Peel(memory, 20, e, x + tail);
    Peel(memory, 24, num, texts + (wordNum + (words + after)));
  }

  /** Round trip: whatever parse_document accepts, the log reads back, and the buffer still holds the record. */
  method ParseAndLog(j: Json, now: Int32, buf: array<Byte>, capacity: nat) returns (code: int, line: Option<LogLine>)
    requires j.Bounded() && capacity <= buf.Length
    modifies buf
    ensures code == 0 <==> j.members == 12 && j.Complete() && |Flatten(DocumentPieces(j, now))| <= capacity
    ensures code == 0 ==> line == Some(Logged(j, now)) && Flatten(DocumentPieces(j, now)) <= buf[..]
    ensures code != 0 ==> line == None
  {
    hide Logged, DocumentPieces, Flatten, Emit;
    var size;
    line := None;
    code, size := ParseDocument(j, now, buf, capacity);
    if code == 0 {
      assert buf[..size] <= buf[..];
      var l := SaveLogDocument(buf, j, now);
      line := Some(l);
    }
  }
}
