/** Whole runs: any sequence of writes, closed, then read from the beginning. */
module FileRun {
  import opened Bytes
  import opened ByteOrder
  import opened Framing
  import opened IndexBlock
  import opened FileLayout
  import opened FileWriter
  import opened FileReader

  datatype Request = PutComment(text: seq<byte>) | PutData(id: seq<byte>, rep: seq<byte>, payload: seq<byte>, attrs: seq<byte>)

  predicate GoodRequest(q: Request, indexed: bool) {
    match q
    case PutComment(text) => GoodRecord(Comment(text))
    case PutData(id, rep, payload, attrs) => GoodRecord(FormatRec(id, rep)) && GoodRecord(DataRec(id, payload, if indexed then attrs else []))
  }

  /** The records one request leaves in a file that has the formats known. */
  function Leaves(q: Request, indexed: bool, known: set<seq<byte>>): seq<Record> {
    match q
    case PutComment(text) => [Comment(text)]
    case PutData(id, rep, payload, attrs) =>
      (if id in known then [] else [FormatRec(id, rep)]) + [DataRec(id, payload, if indexed then attrs else [])]
  }

  function Knows(q: Request, known: set<seq<byte>>): set<seq<byte>> {
    if q.PutComment? then known else known + {q.id}
  }

  function Expected(qs: seq<Request>, indexed: bool, known: set<seq<byte>>): seq<Record> {
    if qs == [] then [] else Leaves(qs[0], indexed, known) + Expected(qs[1..], indexed, Knows(qs[0], known))
  }

  predicate HasData(qs: seq<Request>) {
    exists q :: q in qs && q.PutData?
  }

  method Put(f: FFSFile, q: Request)
    requires f.Valid() && GoodRequest(q, f.indexed)
    modifies f, f.block
    ensures f.Valid() && f.indexed == old(f.indexed)
    ensures f.History() == old(f.History()) + Leaves(q, f.indexed, old(f.written))
    ensures f.written == Knows(q, old(f.written))
    ensures q.PutComment? ==> f.hasIndex == old(f.hasIndex)
    ensures q.PutData? && f.indexed ==> f.hasIndex
  {
    hide FormatsFirst, GoodRecord, FormatIds, FFSFile.InFile, FFSFile.InBlock;
    ghost var h, known := f.History(), f.written;
    WrittenIs(f);
    match q {
      case PutComment(text) =>
        f.WriteComment(text);
        WrittenIs(f);
        IdsAppend(h, Comment(text));
      case PutData(id, rep, payload, attrs) =>
        f.WriteData(id, rep, payload, attrs);
        WrittenIs(f);
        WrittenNext(h, known, id, rep, payload, if f.indexed then attrs else []);
        assert h + Leaves(q, f.indexed, known) == h + (if id in known then [] else [FormatRec(id, rep)]) + [DataRec(id, payload, if f.indexed then attrs else [])];
    }
  }

  lemma WrittenIs(f: FFSFile)
    requires f.Valid()
    ensures f.written == FormatIds(f.History())
  {
  }

  /** Write the requests and close: the file is the records expected, formats before their
      data. */
  method WriteFile(qs: seq<Request>, indexed: bool) returns (file: seq<byte>, ghost prefix: seq<Record>, ghost sections: seq<seq<Record>>)
    requires forall q :: q in qs ==> GoodRequest(q, indexed)
    requires indexed ==> HasData(qs)
    ensures FileIs(file, prefix, sections) && prefix + Flat(sections) == Expected(qs, indexed, {})
    ensures FormatsFirst(Expected(qs, indexed, {})) && AllGood(Expected(qs, indexed, {}))
    ensures if indexed then DataCount(prefix) == 0 else sections == []
  {
    hide FormatsFirst, GoodRequest, FileIs, GoodRecord, FormatIds, FFSFile.Valid, FFSFile.History, Leaves, Knows;
    var f := new FFSFile(indexed);
    WrittenIs(f);
    NoFormats();
    var i := 0;
    assert qs[0..] == qs;
    while i < |qs|
      invariant 0 <= i <= |qs| && f.Valid() && f.indexed == indexed && fresh(f) && fresh(f.block)
      invariant f.History() + Expected(qs[i..], indexed, f.written) == Expected(qs, indexed, {})
      invariant indexed && !f.hasIndex ==> HasData(qs[i..])
    {
      ghost var h, known := f.History(), f.written;
      assert qs[i] in qs && qs[i..][1..] == qs[i + 1..];
      OneLess(qs[i..]);
      assert GoodRequest(qs[i], indexed);
      Put(f, qs[i]);
      Regroup(h, Leaves(qs[i], indexed, known), Expected(qs[i + 1..], indexed, Knows(qs[i], known)));
      i := i + 1;
    }
    assert qs[i..] == [] && f.History() + [] == f.History() == Expected(qs, indexed, {});
    f.Close();
    file, prefix, sections := f.data, f.prefix, f.done;
  }

  /** The file is complete and holds these records. */
  ghost predicate FileOf(b: seq<byte>, rs: seq<Record>) {
    exists prefix, ss :: FileIs(b, prefix, ss) && prefix + Flat(ss) == rs
  }

  /** Write the requests, close, and read the file back: the records seen are exactly those
      written, each format once and before its first data record. */
  method WriteThenRead(qs: seq<Request>, indexed: bool) returns (file: seq<byte>, seen: seq<Seen>)
    requires forall q :: q in qs ==> GoodRequest(q, indexed)
    requires indexed ==> HasData(qs)
    ensures FileOf(file, Expected(qs, indexed, {})) && FormatsFirst(Expected(qs, indexed, {}))
    ensures seen == OnlyRecs(ReadAll(file, 4))
    ensures |file| < TWO31 ==> seen == Sees(Expected(qs, indexed, {}))
  {
    hide FormatsFirst, GoodRequest, FileIs, ReadAll, OnlyRecs, Sees, GoodRecord, Expected, Flat;
    ghost var prefix, sections;
    file, prefix, sections := WriteFile(qs, indexed);
    seen := OnlyRecs(ReadAll(file, 4));
    if |file| < TWO31 {
      RecordsBack(file, prefix, sections);
    }
  }

  /** Write the requests to an indexed file, close it, open it again and seek: what is read
      next is the k-th data record written. */
  method WriteThenSeek(qs: seq<Request>, k: nat) returns (file: seq<byte>, next: Option<Met>)
    requires forall q :: q in qs ==> GoodRequest(q, true)
    requires HasData(qs)
    ensures FileOf(file, Expected(qs, true, {}))
    ensures |file| < TWO31 && k < DataCount(Expected(qs, true, {})) ==>
      && DataOf(Expected(qs, true, {}), k).Some?
      && next == Some(Rec(See(DataOf(Expected(qs, true, {}), k).value)))
  {
    hide FormatsFirst, GoodRequest, FileIs, ReadItem, GoodRecord, Expected, Flat, DataOf, DataCount, DataTotal;
    ghost var prefix, sections;
    file, prefix, sections := WriteFile(qs, true);
    next := None;
    if |file| < TWO31 {
      var reader := new IndexedReader(file, prefix, sections);
      var _ := reader.Seek(k);
      var item := ReadItem(file, reader.pos);
      if item.Some? {
        next := Some(item.value.0);
      }
      CountJoin(prefix, Flat(sections));
      TotalIs(sections);
      DataOfJoin(prefix, Flat(sections), k);
    }
  }

  lemma {:induction false} CountJoin(x: seq<Record>, y: seq<Record>)
    ensures DataCount(x + y) == DataCount(x) + DataCount(y)
    decreases |x|
  {
    if x == [] {
      assert x + y == y;
    } else {
      assert (x + y)[1..] == x[1..] + y;
      CountJoin(x[1..], y);
    }
  }

  lemma {:induction false} TotalIs(ss: seq<seq<Record>>)
    ensures DataTotal(ss) == DataCount(Flat(ss))
  {
    if ss != [] {
      TotalIs(ss[1..]);
      CountJoin(ss[0], Flat(ss[1..]));
    }
  }

  lemma NoFormats()
    ensures FormatIds([]) == {}
  {
  }

  lemma OneLess(qs: seq<Request>)
    requires qs != []
    ensures HasData(qs) ==> qs[0].PutData? || HasData(qs[1..])
  {
    if HasData(qs) && !qs[0].PutData? {
      var q :| q in qs && q.PutData?;
      assert q in qs[1..];
    }
  }

  lemma Regroup(a: seq<Record>, b: seq<Record>, c: seq<Record>)
    ensures (a + b) + c == a + (b + c)
  {
  }

  lemma WrittenNext(h: seq<Record>, known: set<seq<byte>>, id: seq<byte>, rep: seq<byte>, payload: seq<byte>, attrs: seq<byte>)
    requires known == FormatIds(h)
    ensures FormatIds(h + (if id in known then [] else [FormatRec(id, rep)]) + [DataRec(id, payload, attrs)]) == known + {id}
  {
    hide FormatIds;
    var f, d := FormatRec(id, rep), DataRec(id, payload, attrs);
    if id in known {
      assert h + [] == h;
      IdsAppend(h, d);
    } else {
      IdsAppend(h, f);
      IdsAppend(h + [f], d);
    }
  }
}
