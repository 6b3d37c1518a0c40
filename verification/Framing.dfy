/** Records of an FFS file: how each is framed when written and recognised when read. */
module Framing {
  import opened Bytes
  import opened ByteOrder

  /** A data record belongs to a format; its attributes go to the index only. */
  datatype Record =
    | Comment(text: seq<byte>)
    | FormatRec(id: seq<byte>, rep: seq<byte>)
    | DataRec(id: seq<byte>, payload: seq<byte>, attrs: seq<byte>)

  const TWO24: nat := 0x100_0000
  const TWO48: nat := 0x1_0000_0000_0000
  const TWO56: nat := 0x100_0000_0000_0000

  /** A 4-byte word in network order. */
  function Word(v: nat): (s: seq<byte>)
    ensures |s| == 4
  {
    Enc(true, v % TWO32, 4)
  }

  function WordAt(b: seq<byte>, p: nat): (v: nat) {
    Dec(true, Load(b, p, 4))
  }

  lemma WordBack(b: seq<byte>, p: nat, v: nat)
    requires Has(b, p, Word(v))
    ensures WordAt(b, p) == v % TWO32
  {
    PowersAre();
    HasLoad(b, p, Word(v));
    DecEnc(true, v % TWO32, 4);
  }

  function RecordBytes(r: Record): seq<byte> {
    match r
    case Comment(text) => Word(TWO24 + |text| % TWO24) + text
    case FormatRec(id, rep) => Word(2 * TWO24 + |id| % 256) + Word(|rep|) + id + rep
    case DataRec(_, payload, _) => Word(3 * TWO24 + |payload| / TWO32) + Word(|payload|) + payload
  }

  function Stream(rs: seq<Record>): seq<byte> {
    if rs == [] then [] else RecordBytes(rs[0]) + Stream(rs[1..])
  }

  function Len(rs: seq<Record>): nat {
    |Stream(rs)|
  }

  lemma {:induction false} StreamAppend(rs: seq<Record>, r: Record)
    ensures Stream(rs + [r]) == Stream(rs) + RecordBytes(r)
  {
    hide RecordBytes;
    if rs == [] {
      assert [] + [r] == [r] && [r][1..] == [];
    } else {
      assert (rs + [r])[1..] == rs[1..] + [r];
      StreamAppend(rs[1..], r);
    }
  }

  // ----- reading

  datatype Head =
    | HComment(len: nat)
    | HFormat(idLen: nat, len: nat)
    | HData(len: nat)
    | HIndex(len: nat)
    | HEnd
    | HCorrupt

  /** The kind and length of the record at p. */
  function HeadAt(b: seq<byte>, p: nat): Head {
    if p + 4 > |b| then HEnd
    else
      var w := WordAt(b, p);
      if w / TWO24 == 1 then HComment(w % TWO24)
      else if w / TWO24 == 2 then (if p + 8 > |b| then HEnd else HFormat(w % TWO24, WordAt(b, p + 4)))
      else if w / TWO24 == 3 then (if p + 8 > |b| then HEnd else HData(WordAt(b, p + 4) + w % TWO16 * TWO32))
      else if w / TWO24 == 4 then HIndex(w % TWO24)
      else HCorrupt
  }

  /** Lengths a header can say. */
  predicate InRange(r: Record) {
    match r
    case Comment(text) => |text| < TWO24
    case FormatRec(id, rep) => |id| < 256 && |rep| < TWO32
    case DataRec(_, payload, _) => |payload| < TWO48
  }

  function HeadOf(r: Record): Head {
    match r
    case Comment(text) => HComment(|text|)
    case FormatRec(id, rep) => HFormat(|id|, |rep|)
    case DataRec(_, payload, _) => HData(|payload|)
  }

  /** A header says the record's kind and exact lengths exactly when they are in range. */
  lemma HeadExact(b: seq<byte>, p: nat, r: Record)
    requires Has(b, p, RecordBytes(r)) && (r.DataRec? ==> |r.payload| < TWO56)
    ensures HeadAt(b, p) == HeadOf(r) <==> InRange(r)
  {
    hide Has, WordAt, Word, HeadAt;
    match r
    case Comment(text) => CommentExact(b, p, text);
    case FormatRec(id, rep) => FormatExact(b, p, id, rep);
    case DataRec(_, payload, _) => DataExact(b, p, payload);
  }

  lemma CommentExact(b: seq<byte>, p: nat, text: seq<byte>)
    requires Has(b, p, Word(TWO24 + |text| % TWO24) + text)
    ensures HeadAt(b, p) == HComment(|text|) <==> |text| < TWO24
  {
    hide Has, WordAt, Word;
    HasBound(b, p, Word(TWO24 + |text| % TWO24) + text);
    HasSplit(b, p, Word(TWO24 + |text| % TWO24), text);
    WordBack(b, p, TWO24 + |text| % TWO24);
  }

  lemma FormatExact(b: seq<byte>, p: nat, id: seq<byte>, rep: seq<byte>)
    requires Has(b, p, Word(2 * TWO24 + |id| % 256) + Word(|rep|) + id + rep)
    ensures HeadAt(b, p) == HFormat(|id|, |rep|) <==> |id| < 256 && |rep| < TWO32
  {
    hide Has, WordAt, Word;
    var w, x := Word(2 * TWO24 + |id| % 256), Word(|rep|);
    HasBound(b, p, w + x + id + rep);
    HasSplit(b, p, w + x + id, rep);
    HasSplit(b, p, w + x, id);
    HasSplit(b, p, w, x);
    WordBack(b, p, 2 * TWO24 + |id| % 256);
    WordBack(b, p + 4, |rep|);
  }

  lemma DataExact(b: seq<byte>, p: nat, payload: seq<byte>)
    requires Has(b, p, Word(3 * TWO24 + |payload| / TWO32) + Word(|payload|) + payload) && |payload| < TWO56
    ensures HeadAt(b, p) == HData(|payload|) <==> |payload| < TWO48
  {
    hide Has, WordAt, Word;
    var n := |payload|;
    HasBound(b, p, Word(3 * TWO24 + n / TWO32) + Word(n) + payload);
    HasSplit(b, p, Word(3 * TWO24 + n / TWO32) + Word(n), payload);
    HasSplit(b, p, Word(3 * TWO24 + n / TWO32), Word(n));
    WordBack(b, p, 3 * TWO24 + n / TWO32);
    WordBack(b, p + 4, n);
    DataLength(n);
  }

  lemma DataLength(n: nat)
    requires n < TWO56
    ensures var w := (3 * TWO24 + n / TWO32) % TWO32;
      w / TWO24 == 3 && (n % TWO32 + w % TWO16 * TWO32 == n <==> n < TWO48)
  {
    var h := n / TWO32;
    assert n == h * TWO32 + n % TWO32 && h < TWO24;
    assert (3 * TWO24 + h) % TWO16 == h % TWO16;
  }

  /** What a reader sees of the record. */
  datatype Seen = SeenComment(text: seq<byte>) | SeenFormat(id: seq<byte>, rep: seq<byte>) | SeenData(payload: seq<byte>)

  function See(r: Record): Seen {
    match r
    case Comment(text) => SeenComment(text)
    case FormatRec(id, rep) => SeenFormat(id, rep)
    case DataRec(_, payload, _) => SeenData(payload)
  }

  function Sees(rs: seq<Record>): (s: seq<Seen>)
    ensures |s| == |rs|
  {
    seq(|rs|, i requires 0 <= i < |rs| => See(rs[i]))
  }

  lemma RecordBack(b: seq<byte>, p: nat, r: Record)
    requires Has(b, p, RecordBytes(r)) && InRange(r)
    ensures HeadAt(b, p) == HeadOf(r) && p + |RecordBytes(r)| <= |b|
    ensures match r
      case Comment(text) => Load(b, p + 4, |text|) == text && |RecordBytes(r)| == 4 + |text|
      case FormatRec(id, rep) => Load(b, p + 8, |id|) == id && Load(b, p + 8 + |id|, |rep|) == rep && |RecordBytes(r)| == 8 + |id| + |rep|
      case DataRec(_, payload, _) => Load(b, p + 8, |payload|) == payload && |RecordBytes(r)| == 8 + |payload|
  {
    hide Has, Word, HeadAt, Load;
    HeadExact(b, p, r);
    HasBound(b, p, RecordBytes(r));
    match r
    case Comment(text) =>
      HasSplit(b, p, Word(TWO24 + |text| % TWO24), text);
      HasLoad(b, p + 4, text);
    case FormatRec(id, rep) =>
      var w := Word(2 * TWO24 + |id| % 256) + Word(|rep|);
      HasSplit(b, p, w + id, rep);
      HasSplit(b, p, w, id);
      HasLoad(b, p + 8, id);
      HasLoad(b, p + 8 + |id|, rep);
    case DataRec(_, payload, _) =>
      HasSplit(b, p, Word(3 * TWO24 + |payload| / TWO32) + Word(|payload|), payload);
      HasLoad(b, p + 8, payload);
  }
}
