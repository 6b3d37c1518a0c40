/** Files byte for byte: what each record and index item begins with, which records come back,
    and one file in full. */
module KnownFile {
  import opened Bytes
  import opened ByteOrder
  import opened Framing
  import opened IndexBlock
  import opened FileLayout
  import opened FileWriter
  import opened FileReader
  import opened FileRun
  import K = KnownFormat

  /** The 4 bytes at p hold v, most significant first. */
  ghost predicate Net4(b: seq<byte>, p: nat, v: nat) {
    K.Holds4(true, b, p, v)
  }

  lemma WordIs(b: seq<byte>, p: nat, v: nat)
    requires Has(b, p, Word(v))
    ensures Net4(b, p, v % TWO32)
  {
    K.WordAt(true, b, p, v % TWO32);
  }

  // ----- records

  /** The kind in the first byte, then lengths, then what the record holds. */
  lemma RecordPrinted(b: seq<byte>, p: nat, r: Record)
    requires Has(b, p, RecordBytes(r)) && InRange(r)
    ensures match r
      case Comment(text) => Net4(b, p, 0x100_0000 + |text|) && Has(b, p + 4, text)
      case FormatRec(id, rep) =>
        Net4(b, p, 0x200_0000 + |id|) && Net4(b, p + 4, |rep|) && Has(b, p + 8, id) && Has(b, p + 8 + |id|, rep)
      case DataRec(_, payload, _) =>
        Net4(b, p, 0x300_0000 + |payload| / 0x1_0000_0000) && Net4(b, p + 4, |payload| % 0x1_0000_0000) && Has(b, p + 8, payload)
  {
    hide Has, Word, Net4;
    match r
    case Comment(text) =>
      HasSplit(b, p, Word(TWO24 + |text| % TWO24), text);
      WordIs(b, p, TWO24 + |text| % TWO24);
    case FormatRec(id, rep) =>
      assert Word(2 * TWO24 + |id| % 256) + Word(|rep|) + (id + rep) == RecordBytes(r);
      TwoWords(b, p, 2 * TWO24 + |id| % 256, |rep|, id + rep);
      HasSplit(b, p + 8, id, rep);
    case DataRec(_, payload, _) =>
      TwoWords(b, p, 3 * TWO24 + |payload| / TWO32, |payload|, payload);
  }

  lemma TwoWords(b: seq<byte>, p: nat, v: nat, n: nat, rest: seq<byte>)
    requires Has(b, p, Word(v) + Word(n) + rest)
    ensures Net4(b, p, v % TWO32) && Net4(b, p + 4, n % TWO32) && Has(b, p + 8, rest)
  {
    hide Has, Word, Net4;
    HasSplit(b, p, Word(v) + Word(n), rest);
    HasSplit(b, p, Word(v), Word(n));
    WordIs(b, p, v);
    WordIs(b, p + 4, n);
  }

  // ----- index blocks

  /** An item: its length above the kind in the last byte, the position of its record, the
      format ID; for data also the length of the ID and the attributes. */
  lemma ItemPrinted(b: seq<byte>, p: nat, i: Item)
    requires Has(b, p, ItemBytes(i)) && Sound(i)
    ensures Net4(b, p + 4, i.fpos / 0x1_0000_0000) && Net4(b, p + 8, i.fpos % 0x1_0000_0000)
    ensures i.FormatItem? ==> Net4(b, p, |i.id| * 0x100) && Has(b, p + 12, i.id)
    ensures i.DataItem? ==>
      && Net4(b, p, (4 + |i.id| + |i.attrs|) * 0x100 + 1) && Net4(b, p + 12, |i.id|)
      && Has(b, p + 16, i.id) && Has(b, p + 16 + |i.id|, i.attrs)
  {
    hide Has, Word, Net4;
    if i.FormatItem? {
      ThreeWords(b, p, |i.id| * 256, i.fpos / TWO32, i.fpos, i.id);
    } else {
      ThreeWords(b, p, 1 + (4 + |i.id| + |i.attrs|) * 256, i.fpos / TWO32, i.fpos, Word(|i.id|) + i.id + i.attrs);
      HasSplit(b, p + 12, Word(|i.id|) + i.id, i.attrs);
      HasSplit(b, p + 12, Word(|i.id|), i.id);
      WordIs(b, p + 12, |i.id|);
    }
  }

  lemma ThreeWords(b: seq<byte>, p: nat, v: nat, w: nat, n: nat, rest: seq<byte>)
    requires Has(b, p, Word(v) + Word(w) + Word(n) + rest) && v < TWO32 && w < TWO32
    ensures Net4(b, p, v) && Net4(b, p + 4, w) && Net4(b, p + 8, n % TWO32) && Has(b, p + 12, rest)
  {
    hide Has, Word, Net4;
    HasSplit(b, p, Word(v) + Word(w) + Word(n), rest);
    HasSplit(b, p, Word(v) + Word(w), Word(n));
    HasSplit(b, p, Word(v), Word(w));
    WordIs(b, p, v);
    WordIs(b, p + 4, w);
    WordIs(b, p + 8, n);
  }

  /** The next item stands behind it, 12 bytes and the ID on for a format, 16 bytes, the ID and
      the attributes on for data. */
  lemma NextItem(b: seq<byte>, p: nat, items: seq<Item>)
    requires ItemsAt(b, p, items) && |items| >= 2 && Sound(items[0])
    ensures Has(b, p, ItemBytes(items[0]))
    ensures var i := items[0];
      ItemsAt(b, p + (if i.FormatItem? then 12 + |i.id| else 16 + |i.id| + |i.attrs|), items[1..])
  {
    hide Has, ItemBytes;
    var i := items[0];
    if i.DataItem? { WholeWords(|i.id| + |i.attrs|); }
  }

  lemma WholeWords(n: nat)
    requires n % 4 == 0
    ensures Align4(4 + n) == 4 + n
  {
  }

  /** A section: 256 bytes with kind 4, the position of the next block, the numbers of the first
      and last data records; items 16 bytes in; behind the block the records. */
  lemma SectionPrinted(b: seq<byte>, pos: nat, start: nat, s: seq<Record>)
    requires SectionAt(b, pos, start, s) && start < TWO31 && DataCount(s) > 0 && start + DataCount(s) < TWO31 && |b| < TWO31
    ensures pos + 256 + |Stream(s)| <= |b|
    ensures Net4(b, pos, 0x400_0100) && Net4(b, pos + 4, pos + 256 + |Stream(s)|)
    ensures Net4(b, pos + 8, start) && Net4(b, pos + 12, start + DataCount(s) - 1)
    ensures ItemsAt(b, pos + 16, Items(pos + 256, s)) && Has(b, pos + 256, Stream(s))
    ensures Net4(b, pos + 16 + Steps(Items(pos + 256, s)), 255)
  {
    hide Has, Word, Net4, Stream, Items, ItemsAt, DataCount;
    HasBound(b, pos + BlockSize, Stream(s));
    WordIs(b, pos, 4 * TWO24 + BlockSize);
    WordIs(b, pos + 4, pos + BlockSize + Len(s));
    WordIs(b, pos + 8, start % TWO32);
    WordIs(b, pos + 12, (start + DataCount(s) - 1) % TWO32);
    WordIs(b, pos + 16 + Steps(Items(pos + BlockSize, s)), 255);
  }

  /** Every file begins with the same four bytes. */
  lemma FileBegins(b: seq<byte>, prefix: seq<Record>, ss: seq<seq<Record>>)
    requires FileIs(b, prefix, ss)
    ensures |b| >= 4 && b[..4] == [0x43, 0x56, 0xff, 0xa9]
  {
    hide SectionsAt, Stream;
    WordIs(b, 0, MAGIC);
    assert b[..4] == [b[0], b[1], b[2], b[3]];
  }

  // ----- which records come back

  function Texts(qs: seq<Request>): seq<seq<byte>> {
    if qs == [] then [] else (if qs[0].PutComment? then [qs[0].text] else []) + Texts(qs[1..])
  }

  function Payloads(qs: seq<Request>): seq<seq<byte>> {
    if qs == [] then [] else (if qs[0].PutData? then [qs[0].payload] else []) + Payloads(qs[1..])
  }

  function CommentsIn(seen: seq<Seen>): seq<seq<byte>> {
    if seen == [] then [] else (if seen[0].SeenComment? then [seen[0].text] else []) + CommentsIn(seen[1..])
  }

  function DataIn(seen: seq<Seen>): seq<seq<byte>> {
    if seen == [] then [] else (if seen[0].SeenData? then [seen[0].payload] else []) + DataIn(seen[1..])
  }

  lemma {:induction false} CommentsJoin(x: seq<Seen>, y: seq<Seen>)
    ensures CommentsIn(x + y) == CommentsIn(x) + CommentsIn(y)
  {
    if x == [] {
      assert x + y == y;
    } else {
      assert (x + y)[1..] == x[1..] + y;
      CommentsJoin(x[1..], y);
    }
  }

  lemma {:induction false} DataJoin(x: seq<Seen>, y: seq<Seen>)
    ensures DataIn(x + y) == DataIn(x) + DataIn(y)
  {
    if x == [] {
      assert x + y == y;
    } else {
      assert (x + y)[1..] == x[1..] + y;
      DataJoin(x[1..], y);
    }
  }

  lemma SeesJoin(x: seq<Record>, y: seq<Record>)
    ensures Sees(x + y) == Sees(x) + Sees(y)
  {
  }

  /** Comments and data come back in the order they were put, each once. */
  lemma {:induction false} AllSeen(qs: seq<Request>, indexed: bool, known: set<seq<byte>>)
    ensures CommentsIn(Sees(Expected(qs, indexed, known))) == Texts(qs)
    ensures DataIn(Sees(Expected(qs, indexed, known))) == Payloads(qs)
    decreases |qs|
  {
    if qs != [] {
      hide Expected, Sees;
      var rest := Expected(qs[1..], indexed, Knows(qs[0], known));
      ExpectedStep(qs, indexed, known);
      SeesJoin(Leaves(qs[0], indexed, known), rest);
      CommentsJoin(Sees(Leaves(qs[0], indexed, known)), Sees(rest));
      DataJoin(Sees(Leaves(qs[0], indexed, known)), Sees(rest));
      AllSeen(qs[1..], indexed, Knows(qs[0], known));
      OneSeen(qs[0], indexed, known);
    } else {
      assert Sees([]) == [];
    }
  }

  lemma ExpectedStep(qs: seq<Request>, indexed: bool, known: set<seq<byte>>)
    requires qs != []
    ensures Expected(qs, indexed, known) == Leaves(qs[0], indexed, known) + Expected(qs[1..], indexed, Knows(qs[0], known))
  {
  }

  lemma OneData(payload: seq<byte>)
    ensures CommentsIn([SeenData(payload)]) == [] && DataIn([SeenData(payload)]) == [payload]
  {
    assert [SeenData(payload)][1..] == [];
  }

  lemma OneSeen(q: Request, indexed: bool, known: set<seq<byte>>)
    ensures var s := Sees(Leaves(q, indexed, known));
      && CommentsIn(s) == (if q.PutComment? then [q.text] else [])
      && DataIn(s) == (if q.PutData? then [q.payload] else [])
  {
    match q
    case PutComment(text) =>
      assert Sees([Comment(text)]) == [SeenComment(text)];
      assert [SeenComment(text)][1..] == [];
    case PutData(id, rep, payload, attrs) =>
      var d := DataRec(id, payload, if indexed then attrs else []);
      if id in known {
        assert [] + [d] == [d];
        assert Sees([d]) == [SeenData(payload)];
        OneData(payload);
      } else {
        assert Sees([FormatRec(id, rep)] + [d]) == [SeenFormat(id, rep), SeenData(payload)];
        assert [SeenFormat(id, rep), SeenData(payload)][1..] == [SeenData(payload)];
        OneData(payload);
      }
  }

  /** Write, close and read: the comments and the data come back, in order, for every sequence
      of requests. */
  method WrittenComesBack(qs: seq<Request>, indexed: bool) returns (texts: seq<seq<byte>>, payloads: seq<seq<byte>>, size: nat)
    requires forall q :: q in qs ==> GoodRequest(q, indexed)
    requires indexed ==> HasData(qs)
    ensures size < TWO31 ==> texts == Texts(qs) && payloads == Payloads(qs)
  {
    hide GoodRequest, Expected, Sees, ReadAll, OnlyRecs, FileOf;
    var file, seen := WriteThenRead(qs, indexed);
    texts, payloads, size := CommentsIn(seen), DataIn(seen), |file|;
    AllSeen(qs, indexed, {});
  }

  /** The k-th data record of a file holds the payload put k-th. */
  lemma {:induction false} DataOfIs(qs: seq<Request>, indexed: bool, known: set<seq<byte>>, k: nat)
    requires k < |Payloads(qs)|
    ensures DataCount(Expected(qs, indexed, known)) == |Payloads(qs)|
    ensures DataOf(Expected(qs, indexed, known), k).Some?
    ensures var r := DataOf(Expected(qs, indexed, known), k).value; r.DataRec? && r.payload == Payloads(qs)[k]
    decreases |qs|
  {
    hide Expected, DataOf, DataCount;
    var first := Leaves(qs[0], indexed, known);
    var rest := Expected(qs[1..], indexed, Knows(qs[0], known));
    ExpectedStep(qs, indexed, known);
    CountJoin(first, rest);
    CountPayloads(qs[1..], indexed, Knows(qs[0], known));
    DataOfJoin(first, rest, k);
    FirstData(qs[0], indexed, known);
    if qs[0].PutComment? {
      DataOfIs(qs[1..], indexed, Knows(qs[0], known), k);
    } else if k > 0 {
      DataOfIs(qs[1..], indexed, Knows(qs[0], known), k - 1);
    }
  }

  lemma {:induction false} CountPayloads(qs: seq<Request>, indexed: bool, known: set<seq<byte>>)
    ensures DataCount(Expected(qs, indexed, known)) == |Payloads(qs)|
    decreases |qs|
  {
    if qs != [] {
      hide Expected, DataCount;
      ExpectedStep(qs, indexed, known);
      CountJoin(Leaves(qs[0], indexed, known), Expected(qs[1..], indexed, Knows(qs[0], known)));
      FirstData(qs[0], indexed, known);
      CountPayloads(qs[1..], indexed, Knows(qs[0], known));
    }
  }

  lemma FirstData(q: Request, indexed: bool, known: set<seq<byte>>)
    ensures DataCount(Leaves(q, indexed, known)) == if q.PutData? then 1 else 0
    ensures q.PutData? ==> DataOf(Leaves(q, indexed, known), 0) == Some(DataRec(q.id, q.payload, if indexed then q.attrs else []))
  {
    match q
    case PutComment(text) =>
      assert [Comment(text)][1..] == [];
    case PutData(id, rep, payload, attrs) =>
      var f, d := FormatRec(id, rep), DataRec(id, payload, if indexed then attrs else []);
      assert [f, d][1..] == [d] && [d][1..] == [];
      assert [] + [d] == [d] && [f] + [d] == [f, d];
      assert DataCount([d]) == 1;
  }

  /** Write to an indexed file, close it, seek to data record k: it holds the payload put k-th. */
  method SoughtComesBack(qs: seq<Request>, k: nat) returns (payload: Option<seq<byte>>, size: nat)
    requires forall q :: q in qs ==> GoodRequest(q, true)
    requires HasData(qs)
    ensures size < TWO31 && k < |Payloads(qs)| ==> payload == Some(Payloads(qs)[k])
  {
    hide GoodRequest, Expected, FileOf, DataOf, DataCount;
    var file, next := WriteThenSeek(qs, k);
    size, payload := |file|, None;
    if next.Some? && next.value.Rec? && next.value.seen.SeenData? {
      payload := Some(next.value.seen.payload);
    }
    if k < |Payloads(qs)| {
      DataOfIs(qs, true, {}, k);
    }
  }

  /** What may be put into an indexed file: lengths a header can say, format IDs and attributes
      in whole words, an item that fits an index block. */
  lemma RoomExact(id: seq<byte>, rep: seq<byte>, payload: seq<byte>, attrs: seq<byte>)
    ensures GoodRequest(PutData(id, rep, payload, attrs), true) <==>
      && |id| % 4 == 0 && |id| < 220 && |rep| < 0x1_0000_0000 && |payload| < 0x1_0000_0000_0000
      && |attrs| % 4 == 0 && |id| + |attrs| < 216
  {
  }

  // ----- one file

  function SampleRequests(): seq<Request> {
    [PutComment([104, 105]), PutData([1, 2, 3, 4], [5, 6], [7, 8, 9], [])]
  }

  lemma SampleRecords()
    ensures Expected(SampleRequests(), false, {}) ==
      [Comment([104, 105]), FormatRec([1, 2, 3, 4], [5, 6]), DataRec([1, 2, 3, 4], [7, 8, 9], [])]
  {
    var qs := SampleRequests();
    assert qs[1..] == [PutData([1, 2, 3, 4], [5, 6], [7, 8, 9], [])] && qs[1..][1..] == [];
    assert Expected([], false, {[1, 2, 3, 4]}) == [];
  }

  lemma NetBytes(v: nat)
    requires v < TWO32
    ensures Word(v) == [v / 0x100_0000, v / 0x1_0000 % 0x100, v / 0x100 % 0x100, v % 0x100]
  {
    var s := Word(v);
    Whole(s);
    WordIs(s, 0, v);
    assert s == [s[0], s[1], s[2], s[3]];
  }

  lemma SampleComment()
    ensures RecordBytes(Comment([104, 105])) == [1, 0, 0, 2, 104, 105]
  {
    hide Word;
    NetBytes(0x100_0002);
  }

  lemma SampleFormat()
    ensures RecordBytes(FormatRec([1, 2, 3, 4], [5, 6])) == [2, 0, 0, 4, 0, 0, 0, 2, 1, 2, 3, 4, 5, 6]
  {
    hide Word;
    NetBytes(0x200_0004);
    NetBytes(2);
  }

  lemma SampleData()
    ensures RecordBytes(DataRec([1, 2, 3, 4], [7, 8, 9], [])) == [3, 0, 0, 0, 0, 0, 0, 3, 7, 8, 9]
  {
    hide Word;
    NetBytes(0x300_0000);
    NetBytes(3);
  }

  lemma SampleStream()
    ensures Stream([Comment([104, 105]), FormatRec([1, 2, 3, 4], [5, 6]), DataRec([1, 2, 3, 4], [7, 8, 9], [])]) ==
      [1, 0, 0, 2, 104, 105] + ([2, 0, 0, 4, 0, 0, 0, 2, 1, 2, 3, 4, 5, 6] + [3, 0, 0, 0, 0, 0, 0, 3, 7, 8, 9])
  {
    hide RecordBytes;
    var c, f, d := Comment([104, 105]), FormatRec([1, 2, 3, 4], [5, 6]), DataRec([1, 2, 3, 4], [7, 8, 9], []);
    SampleComment();
    SampleFormat();
    SampleData();
    assert [c, f, d][1..] == [f, d] && [f, d][1..] == [d] && [d][1..] == [];
    assert Stream([d]) == RecordBytes(d) + [];
    assert Stream([f, d]) == RecordBytes(f) + RecordBytes(d);
  }

  /** A comment, a format and a data record, byte for byte. */
  method KnownBytes() returns (file: seq<byte>)
    ensures file == [0x43, 0x56, 0xff, 0xa9] + ([1, 0, 0, 2, 104, 105]
      + ([2, 0, 0, 4, 0, 0, 0, 2, 1, 2, 3, 4, 5, 6] + [3, 0, 0, 0, 0, 0, 0, 3, 7, 8, 9]))
  {
    hide Stream, Has, FormatsFirst;
    var qs := SampleRequests();
    ghost var prefix, sections;
    SampleGood();
    file, prefix, sections := WriteFile(qs, false);
    SampleRecords();
    SampleStream();
    OnlyPrefix(file, prefix, sections);
    FileBegins(file, prefix, sections);
  }

  lemma SampleGood()
    ensures forall q :: q in SampleRequests() ==> GoodRequest(q, false)
  {
  }

  lemma OnlyPrefix(b: seq<byte>, prefix: seq<Record>, ss: seq<seq<Record>>)
    requires FileIs(b, prefix, ss) && ss == []
    ensures |b| >= 4 && b == b[..4] + Stream(prefix) && prefix + Flat(ss) == prefix
  {
    hide Stream;
    assert prefix + [] == prefix;
    assert b[4..4 + Len(prefix)] == Stream(prefix);
  }
}
