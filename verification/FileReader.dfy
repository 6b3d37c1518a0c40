/** The reading half of an FFS file: records in order, index blocks, seeking. */
module FileReader {
  import opened Bytes
  import opened ByteOrder
  import opened Framing
  import opened IndexBlock
  import opened FileLayout
  import opened FileWriter

  datatype Option<T> = None | Some(value: T)

  /** A record read, or an index block met on the way. */
  datatype Met = Rec(seen: Seen) | Index(block: ParsedBlock)

  /** The item at p and where the next one begins; None at the end of the file, or when the
      bytes a header promises are missing. */
  function ReadItem(b: seq<byte>, p: nat): Option<(Met, nat)> {
    match HeadAt(b, p)
    case HComment(n) => if p + 4 + n > |b| then None else Some((Rec(SeenComment(Load(b, p + 4, n))), p + 4 + n))
    case HFormat(k, n) =>
      if p + 8 + k + n > |b| then None
      else Some((Rec(SeenFormat(Load(b, p + 8, k), Load(b, p + 8 + k, n))), p + 8 + k + n))
    case HData(n) => if p + 8 + n > |b| then None else Some((Rec(SeenData(Load(b, p + 8, n))), p + 8 + n))
    case HIndex(n) => if n < 4 || p + n > |b| then None else Some((Index(ParseBlock(b, p)), p + n))
    case HEnd => None
    case HCorrupt => None
  }

  lemma ReadForward(b: seq<byte>, p: nat)
    requires ReadItem(b, p).Some?
    ensures p < ReadItem(b, p).value.1 <= |b|
  {
    hide Load, ParseBlock, WordAt;
  }

  /** Everything from p on. */
  function ReadAll(b: seq<byte>, p: nat): seq<Met>
    decreases |b| - p
  {
    var r := ReadItem(b, p);
    if r.None? then []
    else
      ReadForward(b, p);
      [r.value.0] + ReadAll(b, r.value.1)
  }

  function Recs(rs: seq<Record>): seq<Met> {
    if rs == [] then [] else [Rec(See(rs[0]))] + Recs(rs[1..])
  }

  function SectionBlock(pos: nat, start: nat, s: seq<Record>): ParsedBlock {
    ParsedBlock(pos + BlockSize + Len(s), start, start + DataCount(s) - 1, AllParsed(Items(pos + BlockSize, s)))
  }

  /** What a reader meets in the sections of a file. */
  function MetIn(pos: nat, start: nat, ss: seq<seq<Record>>): seq<Met>
    decreases |ss|
  {
    if ss == [] then []
    else
      [Index(SectionBlock(pos, start, ss[0]))] + Recs(ss[0])
      + MetIn(pos + BlockSize + Len(ss[0]), start + DataCount(ss[0]), ss[1..])
  }

  /** A record takes four bytes at least, so a file has fewer records than bytes. */
  lemma {:induction false} CountBound(rs: seq<Record>)
    ensures DataCount(rs) <= Len(rs)
    decreases |rs|
  {
    if rs != [] {
      CountBound(rs[1..]);
    }
  }

  lemma {:induction false} TotalBound(b: seq<byte>, pos: nat, start: nat, ss: seq<seq<Record>>, end: nat)
    requires SectionsAt(b, pos, start, ss, end)
    ensures pos + DataTotal(ss) <= end
    decreases |ss|
  {
    hide SectionAt, Stream, DataCount;
    if ss != [] {
      CountBound(ss[0]);
      TotalBound(b, pos + BlockSize + Len(ss[0]), start + DataCount(ss[0]), ss[1..], end);
    }
  }

  ghost predicate AllGood(rs: seq<Record>) {
    forall r :: r in rs ==> GoodRecord(r)
  }

  lemma {:induction false} ItemsSound(pos: nat, rs: seq<Record>)
    requires AllGood(rs) && pos + Len(rs) < TWO32
    ensures forall k :: 0 <= k < |Items(pos, rs)| ==> Sound(Items(pos, rs)[k])
    decreases |rs|
  {
    hide RecordBytes;
    if rs != [] {
      assert rs[0] in rs && forall r :: r in rs[1..] ==> r in rs;
      ItemsSound(pos + |RecordBytes(rs[0])|, rs[1..]);
      assert forall k :: 0 <= k < |ItemOf(pos, rs[0])| ==> Sound(ItemOf(pos, rs[0])[k]);
    }
  }

  lemma RecordRead(b: seq<byte>, p: nat, r: Record)
    requires Has(b, p, RecordBytes(r)) && InRange(r)
    ensures ReadItem(b, p) == Some((Rec(See(r)), p + |RecordBytes(r)|))
  {
    hide Has, RecordBytes, Load, HeadAt;
    RecordBack(b, p, r);
  }

  lemma ReadAllStep(b: seq<byte>, p: nat, m: Met, q: nat)
    requires ReadItem(b, p) == Some((m, q))
    ensures ReadAll(b, p) == [m] + ReadAll(b, q)
  {
    hide ReadItem;
    ReadForward(b, p);
  }

  /** Records are read back one by one. */
  lemma {:induction false} StreamBack(b: seq<byte>, p: nat, rs: seq<Record>)
    requires Has(b, p, Stream(rs)) && AllGood(rs)
    ensures ReadAll(b, p) == Recs(rs) + ReadAll(b, p + Len(rs))
    decreases |rs|
  {
    hide Has, RecordBytes, ReadItem, ReadAll, See;
    if rs != [] {
      assert rs[0] in rs && forall r :: r in rs[1..] ==> r in rs;
      assert GoodRecord(rs[0]);
      HasSplit(b, p, RecordBytes(rs[0]), Stream(rs[1..]));
      RecordRead(b, p, rs[0]);
      StreamBack(b, p + |RecordBytes(rs[0])|, rs[1..]);
      ReadAllStep(b, p, Rec(See(rs[0])), p + |RecordBytes(rs[0])|);
    }
  }

  lemma SectionHead(b: seq<byte>, pos: nat, start: nat, s: seq<Record>)
    requires SectionAt(b, pos, start, s) && AllGood(s) && |b| < TWO31 && start + DataCount(s) < TWO31
    ensures ReadItem(b, pos) == Some((Index(SectionBlock(pos, start, s)), pos + BlockSize))
    ensures HeadAt(b, pos) == HIndex(BlockSize) && pos + BlockSize + Len(s) <= |b|
  {
    hide Has, Items, HeadAt, ParseBlock, ReadItem, BlockAt, Stream, DataCount, AllGood, AllParsed, Sound;
    HasBound(b, pos + BlockSize, Stream(s));
    ItemsSound(pos + BlockSize, s);
    BlockBack(b, pos, pos + BlockSize + Len(s), start, start + DataCount(s) - 1, Items(pos + BlockSize, s));
    IndexRead(b, pos);
  }

  lemma IndexRead(b: seq<byte>, p: nat)
    requires HeadAt(b, p) == HIndex(BlockSize) && p + BlockSize <= |b|
    ensures ReadItem(b, p) == Some((Index(ParseBlock(b, p)), p + BlockSize))
  {
    hide HeadAt, ParseBlock;
  }

  /** One section: its block, its records, and what follows. */
  lemma SectionBack(b: seq<byte>, pos: nat, start: nat, s: seq<Record>)
    requires SectionAt(b, pos, start, s) && AllGood(s) && |b| < TWO31 && start + DataCount(s) < TWO31
    ensures ReadAll(b, pos) == [Index(SectionBlock(pos, start, s))] + (Recs(s) + ReadAll(b, pos + BlockSize + Len(s)))
  {
    hide Has, ReadItem, SectionBlock, BlockAt, ReadAll, Recs, Stream, DataCount, AllGood;
    SectionHead(b, pos, start, s);
    StreamBack(b, pos + BlockSize, s);
    ReadAllStep(b, pos, Index(SectionBlock(pos, start, s)), pos + BlockSize);
  }

  lemma {:induction false} SectionsBack(b: seq<byte>, pos: nat, start: nat, ss: seq<seq<Record>>, end: nat)
    requires SectionsAt(b, pos, start, ss, end) && AllGood(Flat(ss)) && |b| < TWO31 && start + DataTotal(ss) < TWO31
    ensures ReadAll(b, pos) == MetIn(pos, start, ss) + ReadAll(b, end)
    decreases |ss|
  {
    hide Has, SectionAt, SectionBlock, ReadAll, Recs, Stream, DataCount, AllGood, Flat;
    if ss != [] {
      var next := pos + BlockSize + Len(ss[0]);
      FlatGood(ss);
      SectionBack(b, pos, start, ss[0]);
      SectionsBack(b, next, start + DataCount(ss[0]), ss[1..], end);
      Regroup([Index(SectionBlock(pos, start, ss[0]))], Recs(ss[0]), MetIn(next, start + DataCount(ss[0]), ss[1..]), ReadAll(b, end));
    }
  }

  lemma Regroup(a: seq<Met>, b: seq<Met>, c: seq<Met>, d: seq<Met>)
    ensures a + (b + (c + d)) == a + b + c + d
  {
  }

  lemma GoodParts(x: seq<Record>, y: seq<Record>)
    requires AllGood(x + y)
    ensures AllGood(x) && AllGood(y)
  {
    assert forall r :: r in x || r in y ==> r in x + y;
  }

  lemma FlatGood(ss: seq<seq<Record>>)
    requires ss != [] && AllGood(Flat(ss))
    ensures AllGood(ss[0]) && AllGood(Flat(ss[1..]))
  {
    assert forall r :: r in ss[0] || r in Flat(ss[1..]) ==> r in Flat(ss);
  }

  /** Main result. A closed file is read back as exactly the records written, in order, with
      the index blocks that describe them in between. */
  lemma FileBack(b: seq<byte>, prefix: seq<Record>, ss: seq<seq<Record>>)
    requires FileIs(b, prefix, ss) && AllGood(prefix + Flat(ss)) && |b| < TWO31
    ensures ReadAll(b, 4) == Recs(prefix) + MetIn(4 + Len(prefix), 0, ss)
  {
    hide Has, ReadItem, SectionsAt, Recs, MetIn;
    assert AllGood(prefix) && AllGood(Flat(ss));
    StreamBack(b, 4, prefix);
    TotalBound(b, 4 + Len(prefix), 0, ss, |b|);
    SectionsBack(b, 4 + Len(prefix), 0, ss, |b|);
    NothingLeft(b);
    assert ReadAll(b, |b|) == [];
  }

  lemma NothingLeft(b: seq<byte>)
    ensures ReadItem(b, |b|) == None
  {
  }

  /** The records among what a reader meets. */
  function OnlyRecs(ms: seq<Met>): seq<Seen> {
    if ms == [] then []
    else if ms[0].Rec? then [ms[0].seen] + OnlyRecs(ms[1..])
    else OnlyRecs(ms[1..])
  }

  lemma {:induction false} OnlyRecsJoin(x: seq<Met>, y: seq<Met>)
    ensures OnlyRecs(x + y) == OnlyRecs(x) + OnlyRecs(y)
  {
    if x == [] {
      assert x + y == y;
    } else {
      assert (x + y)[1..] == x[1..] + y;
      OnlyRecsJoin(x[1..], y);
    }
  }

  lemma {:induction false} OnlyRecsOfStream(rs: seq<Record>)
    ensures OnlyRecs(Recs(rs)) == Sees(rs)
  {
    if rs != [] {
      OnlyRecsOfStream(rs[1..]);
      assert Recs(rs)[1..] == Recs(rs[1..]);
      assert Sees(rs) == [See(rs[0])] + Sees(rs[1..]);
    }
  }

  lemma {:induction false} OnlyRecsOfSections(pos: nat, start: nat, ss: seq<seq<Record>>)
    ensures OnlyRecs(MetIn(pos, start, ss)) == Sees(Flat(ss))
    decreases |ss|
  {
    hide Recs, Stream, DataCount, SectionBlock;
    if ss != [] {
      var next := pos + BlockSize + Len(ss[0]);
      var rest := MetIn(next, start + DataCount(ss[0]), ss[1..]);
      OnlyRecsOfSections(next, start + DataCount(ss[0]), ss[1..]);
      OnlyRecsOfStream(ss[0]);
      OnlyRecsJoin(Recs(ss[0]), rest);
      var head := [Index(SectionBlock(pos, start, ss[0]))];
      assert MetIn(pos, start, ss) == head + (Recs(ss[0]) + rest);
      assert (head + (Recs(ss[0]) + rest))[1..] == Recs(ss[0]) + rest;
      assert Sees(Flat(ss)) == Sees(ss[0]) + Sees(Flat(ss[1..]));
    }
  }

  /** The records read are the records written. */
  lemma RecordsBack(b: seq<byte>, prefix: seq<Record>, ss: seq<seq<Record>>)
    requires FileIs(b, prefix, ss) && AllGood(prefix + Flat(ss)) && |b| < TWO31
    ensures OnlyRecs(ReadAll(b, 4)) == Sees(prefix + Flat(ss))
  {
    hide FileIs, AllGood, ReadAll, Recs, MetIn, Sees, OnlyRecs, Flat;
    FileBack(b, prefix, ss);
    OnlyRecsJoin(Recs(prefix), MetIn(4 + Len(prefix), 0, ss));
    OnlyRecsOfStream(prefix);
    OnlyRecsOfSections(4 + Len(prefix), 0, ss);
    SeesJoin(prefix, Flat(ss));
  }

  lemma SeesJoin(x: seq<Record>, y: seq<Record>)
    ensures Sees(x + y) == Sees(x) + Sees(y)
  {
  }

  // ----- index blocks

  function BlocksOf(pos: nat, start: nat, ss: seq<seq<Record>>): (bs: seq<ParsedBlock>)
    ensures |bs| == |ss|
    decreases |ss|
  {
    if ss == [] then []
    else [SectionBlock(pos, start, ss[0])] + BlocksOf(pos + BlockSize + Len(ss[0]), start + DataCount(ss[0]), ss[1..])
  }

  /** The index blocks number the data records 0, 1, .. in consecutive ranges, each of which
      may be empty, and each block points to the next one. */
  lemma {:induction false} BlocksPartition(pos: nat, start: nat, ss: seq<seq<Record>>, k: nat)
    requires k < |ss|
    ensures var bs := BlocksOf(pos, start, ss);
      && bs[k].last == bs[k].start + DataCount(ss[k]) - 1
      && (k == 0 ==> bs[k].start == start)
      && (k > 0 ==> bs[k].start == bs[k - 1].last + 1)
      && (k + 1 == |ss| ==> bs[k].last == start + DataTotal(ss) - 1)
    decreases |ss|
  {
    hide Stream, DataCount, AllParsed, Items;
    var next := pos + BlockSize + Len(ss[0]);
    if k > 0 {
      BlocksPartition(next, start + DataCount(ss[0]), ss[1..], k - 1);
    } else if |ss| == 1 {
      assert ss[1..] == [];
    }
  }

  /** The first index block from p on. */
  function NextIndex(b: seq<byte>, p: nat): Option<(ParsedBlock, nat)>
    decreases |b| - p
  {
    var r := ReadItem(b, p);
    if r.None? then None
    else if r.value.0.Index? then Some((r.value.0.block, r.value.1))
    else
      ReadForward(b, p);
      NextIndex(b, r.value.1)
  }

  lemma {:induction false} IndexAfter(b: seq<byte>, p: nat, rs: seq<Record>)
    requires Has(b, p, Stream(rs)) && AllGood(rs)
    ensures NextIndex(b, p) == NextIndex(b, p + Len(rs))
    decreases |rs|
  {
    hide Has, RecordBytes, ReadItem;
    if rs != [] {
      assert rs[0] in rs && forall r :: r in rs[1..] ==> r in rs;
      assert GoodRecord(rs[0]);
      HasSplit(b, p, RecordBytes(rs[0]), Stream(rs[1..]));
      RecordRead(b, p, rs[0]);
      IndexAfter(b, p + |RecordBytes(rs[0])|, rs[1..]);
    }
  }

  /** From the start of section k, or the end of the file, the next index block is section k's. */
  lemma {:induction false} IndexAt(b: seq<byte>, pos: nat, start: nat, ss: seq<seq<Record>>, k: nat)
    requires SectionsAt(b, pos, start, ss, |b|) && AllGood(Flat(ss)) && |b| < TWO31 && start + DataTotal(ss) < TWO31 && k <= |ss|
    ensures var bs := BlocksOf(pos, start, ss); var p := if k == 0 then pos else bs[k - 1].next;
      if k == |ss| then NextIndex(b, p) == None
      else NextIndex(b, p).Some? && NextIndex(b, p).value.0 == bs[k]
    decreases |ss|
  {
    hide Has, ReadItem, BlockAt, Stream, DataCount, AllGood, Flat, AllParsed, Items;
    if ss == [] {
      NothingLeft(b);
    } else {
      FlatGood(ss);
      SectionHead(b, pos, start, ss[0]);
      var next := pos + BlockSize + Len(ss[0]);
      if k > 0 {
        IndexAt(b, next, start + DataCount(ss[0]), ss[1..], k - 1);
      }
    }
  }

  // ----- finding a data record

  /** The index of the (n+1)-th data item. */
  function NthData(items: seq<Parsed>, n: nat): (j: nat)
    ensures j <= |items|
  {
    if items == [] then 0
    else if items[0].ParsedData? && n == 0 then 0
    else 1 + NthData(items[1..], if items[0].ParsedData? then n - 1 else n)
  }

  lemma {:induction false} NthDataAt(pos: nat, rs: seq<Record>, n: nat)
    requires n < DataCount(rs)
    ensures var items := AllParsed(Items(pos, rs)); var j := NthData(items, n);
      j < |items| && items[j].ParsedData? && items[j].fpos == DataAt(pos, rs, n)
    decreases |rs|
  {
    hide RecordBytes, AllParsed;
    var items := Items(pos, rs);
    var next := pos + |RecordBytes(rs[0])|;
    var rest := Items(next, rs[1..]);
    assert items == ItemOf(pos, rs[0]) + rest;
    match rs[0]
    case Comment(_) =>
      assert items == rest;
      NthDataAt(next, rs[1..], n);
    case FormatRec(_, _) =>
      AllParsedSplit(items);
      NthDataAt(next, rs[1..], n);
    case DataRec(_, _, _) =>
      AllParsedSplit(items);
      if n > 0 { NthDataAt(next, rs[1..], n - 1); }
  }

  lemma {:induction false} DataInSection(pos: nat, start: nat, ss: seq<seq<Record>>, i: nat, k: nat)
    requires i < |ss| && BlocksOf(pos, start, ss)[i].start <= start + k <= BlocksOf(pos, start, ss)[i].last
    ensures var blk := BlocksOf(pos, start, ss)[i]; var n := start + k - blk.start; var j := NthData(blk.items, n);
      j < |blk.items| && blk.items[j].ParsedData? && blk.items[j].fpos == DataIn(pos, ss, k)
    decreases |ss|
  {
    hide Stream, DataCount, AllParsed, Items;
    var next := pos + BlockSize + Len(ss[0]);
    BlocksPartition(pos, start, ss, i);
    if i == 0 {
      NthDataAt(pos + BlockSize, ss[0], k);
    } else {
      Starts(next, start + DataCount(ss[0]), ss[1..], i - 1);
      DataInSection(next, start + DataCount(ss[0]), ss[1..], i - 1, k - DataCount(ss[0]));
    }
  }

  lemma {:induction false} Starts(pos: nat, start: nat, ss: seq<seq<Record>>, i: nat)
    requires i < |ss|
    ensures BlocksOf(pos, start, ss)[i].start >= start
    decreases |ss|
  {
    hide Stream, DataCount, AllParsed, Items;
    if i > 0 {
      Starts(pos + BlockSize + Len(ss[0]), start + DataCount(ss[0]), ss[1..], i - 1);
    }
  }

  /** The k-th data record of a sequence. */
  function DataOf(rs: seq<Record>, k: nat): Option<Record> {
    if rs == [] then None
    else if rs[0].DataRec? && k == 0 then Some(rs[0])
    else DataOf(rs[1..], if rs[0].DataRec? then k - 1 else k)
  }

  lemma {:induction false} DataRead(b: seq<byte>, pos: nat, rs: seq<Record>, k: nat)
    requires Has(b, pos, Stream(rs)) && AllGood(rs) && k < DataCount(rs)
    ensures DataOf(rs, k).Some? && ReadItem(b, DataAt(pos, rs, k)).Some?
    ensures ReadItem(b, DataAt(pos, rs, k)).value.0 == Rec(See(DataOf(rs, k).value))
    decreases |rs|
  {
    hide Has, RecordBytes, ReadItem;
    assert rs[0] in rs && forall r :: r in rs[1..] ==> r in rs;
    assert GoodRecord(rs[0]);
    HasSplit(b, pos, RecordBytes(rs[0]), Stream(rs[1..]));
    if rs[0].DataRec? && k == 0 {
      RecordRead(b, pos, rs[0]);
    } else {
      DataRead(b, pos + |RecordBytes(rs[0])|, rs[1..], if rs[0].DataRec? then k - 1 else k);
    }
  }

  lemma {:induction false} DataOfJoin(x: seq<Record>, y: seq<Record>, k: nat)
    ensures DataOf(x + y, k) == if k < DataCount(x) then DataOf(x, k) else DataOf(y, k - DataCount(x))
    decreases |x|
  {
    if x == [] {
      assert x + y == y;
    } else {
      assert (x + y)[1..] == x[1..] + y;
      if !(x[0].DataRec? && k == 0) {
        DataOfJoin(x[1..], y, if x[0].DataRec? then k - 1 else k);
      }
    }
  }

  /** What is at the position of the k-th data record of the file: that record. */
  lemma {:induction false} DataThere(b: seq<byte>, pos: nat, start: nat, ss: seq<seq<Record>>, end: nat, k: nat)
    requires SectionsAt(b, pos, start, ss, end) && AllGood(Flat(ss)) && k < DataTotal(ss)
    ensures DataOf(Flat(ss), k).Some? && ReadItem(b, DataIn(pos, ss, k)).Some?
    ensures ReadItem(b, DataIn(pos, ss, k)).value.0 == Rec(See(DataOf(Flat(ss), k).value))
    decreases |ss|
  {
    hide Has, ReadItem, BlockAt, Stream, AllGood;
    FlatGood(ss);
    DataOfJoin(ss[0], Flat(ss[1..]), k);
    if k < DataCount(ss[0]) {
      DataRead(b, pos + BlockSize, ss[0], k);
    } else {
      DataThere(b, pos + BlockSize + Len(ss[0]), start + DataCount(ss[0]), ss[1..], end, k - DataCount(ss[0]));
    }
  }

  // ----- seeking

  /** A file open for reading: position, and the index blocks read so far. */
  class IndexedReader {
    const data: seq<byte>
    var pos: nat
    var blocks: seq<ParsedBlock>

    ghost const prefix: seq<Record>
    ghost const sections: seq<seq<Record>>

    ghost predicate Valid()
      reads this
    {
      && FileIs(data, prefix, sections) && AllGood(prefix + Flat(sections)) && |data| < TWO31
      && |blocks| <= |sections| && blocks == All()[..|blocks|] && (blocks == [] ==> pos == 4 || (sections == [] && ReadItem(data, pos).None?))
    }

    ghost function All(): (bs: seq<ParsedBlock>)
      ensures |bs| == |sections|
    {
      BlocksOf(4 + Len(prefix), 0, sections)
    }

    /** Open a file that was written and closed. */
    constructor (b: seq<byte>, ghost p: seq<Record>, ghost ss: seq<seq<Record>>)
      requires FileIs(b, p, ss) && AllGood(p + Flat(ss)) && |b| < TWO31
      ensures Valid() && blocks == [] && data == b && prefix == p && sections == ss
    {
      data, pos, blocks := b, 4, [];
      prefix, sections := p, ss;
    }

    /** FFSread_index: go on to the next index block and keep it. */
    method ReadIndex() returns (found: bool)
      modifies this
      ensures match NextIndex(data, old(pos))
        case Some(r) => found && blocks == old(blocks) + [r.0] && pos == r.1
        case None => !found && blocks == old(blocks) && ReadItem(data, pos).None?
    {
      hide ReadItem;
      while true
        invariant NextIndex(data, pos) == NextIndex(data, old(pos)) && blocks == old(blocks)
        decreases |data| - pos
      {
        var r := ReadItem(data, pos);
        if r.None? { return false; }
        ReadForward(data, pos);
        pos := r.value.1;
        if r.value.0.Index? {
          blocks := blocks + [r.value.0.block];
          return true;
        }
      }
    }

    lemma NextBlockIs()
      requires Valid() && (blocks != [] ==> pos == blocks[|blocks| - 1].next)
      ensures blocks == [] && sections != [] ==> pos == 4
      ensures var m := |blocks|;
        if m == |sections| then NextIndex(data, pos) == None
        else NextIndex(data, pos).Some? && NextIndex(data, pos).value.0 == All()[m]
    {
      hide NextIndex, BlocksOf, AllGood, SectionsAt, Has, Stream;
      GoodParts(prefix, Flat(sections));
      TotalBound(data, 4 + Len(prefix), 0, sections, |data|);
      IndexAt(data, 4 + Len(prefix), 0, sections, |blocks|);
      if blocks == [] {
        if pos == 4 { IndexAfter(data, 4, prefix); } else { NoneLeft(data, pos); }
      } else {
        assert blocks[|blocks| - 1] == All()[|blocks| - 1];
      }
    }

    lemma Kept(m: nat)
      requires Valid() && m < |blocks|
      ensures blocks[m] == All()[m]
    {
      hide BlocksOf, FileIs, AllGood;
    }

    /** Read the index block after those read so far. */
    method ReadNext() returns (found: bool)
      requires Valid()
      modifies this
      ensures Valid() && (if found then |blocks| == |old(blocks)| + 1 else blocks == old(blocks) && |blocks| == |sections|)
    {
      hide NextIndex, BlocksOf, AllGood, FileIs, ReadItem;
      if blocks != [] {
        pos := blocks[|blocks| - 1].next;
      }
      NextBlockIs();
      ghost var was := blocks;
      found := ReadIndex();
      if found { PrefixMore(All(), was, blocks); }
    }

    /** Read index blocks until one covers data record k, or there are no more. */
    method LoadIndexes(k: nat) returns (found: bool)
      requires Valid()
      modifies this
      ensures Valid() && (found ==> blocks != [] && k <= blocks[|blocks| - 1].last)
      ensures !found ==> k >= DataTotal(sections)
    {
      hide BlocksOf, AllGood, FileIs, ReadItem, DataTotal;
      if blocks == [] {
        var some := ReadNext();
        if !some {
          NoSectionsNoData(sections);
          return false;
        }
      }
      var stuck := false;
      while k > blocks[|blocks| - 1].last && !stuck
        invariant Valid() && blocks != [] && (stuck ==> |blocks| == |sections|)
        decreases |sections| - |blocks|, !stuck
      {
        found := ReadNext();
        stuck := !found;
      }
      Kept(|blocks| - 1);
      BlocksPartition(4 + Len(prefix), 0, sections, |blocks| - 1);
      found := k <= blocks[|blocks| - 1].last;
    }

    /** The first block whose range reaches k. */
    method FindBlock(k: nat) returns (i: nat)
      requires Valid() && blocks != [] && k <= blocks[|blocks| - 1].last
      ensures i < |blocks| && blocks[i] == All()[i] && blocks[i].start <= k <= blocks[i].last
    {
      hide BlocksOf, FileIs, AllGood;
      i := 0;
      while k > blocks[i].last
        invariant i < |blocks| && (i > 0 ==> k > blocks[i - 1].last)
        decreases |blocks| - i
      {
        i := i + 1;
      }
      Kept(i);
      if i > 0 { Kept(i - 1); }
      BlocksPartition(4 + Len(prefix), 0, sections, i);
    }

    /** FFSseek: go to the k-th data record. Whatever happens it returns 0, since its count
        of items still to pass has run out by then. */
    method Seek(k: int) returns (r: int)
      requires Valid()
      modifies this
      ensures Valid() && r == 0
      ensures 0 <= k < DataTotal(sections) ==> pos == DataIn(4 + Len(prefix), sections, k)
      ensures 0 <= k < DataTotal(sections) ==>
        ReadItem(data, pos).Some? && DataOf(Flat(sections), k).Some? && ReadItem(data, pos).value.0 == Rec(See(DataOf(Flat(sections), k).value))
    {
      hide NextIndex, BlocksOf, AllGood, FileIs, ReadItem, DataTotal, Flat, DataIn, DataOf, NthData;
      r := 0;
      if k < 0 { return; }
      var found := LoadIndexes(k);
      if !found { return; }
      var i := FindBlock(k);
      DataInSection(4 + Len(prefix), 0, sections, i, k);
      var j;
      r, j := CountData(blocks[i].items, k - blocks[i].start + 1);
      pos := blocks[i].items[j].fpos;
      Found(k);
    }

    lemma Found(k: nat)
      requires Valid() && pos == DataIn(4 + Len(prefix), sections, k)
      ensures k < DataTotal(sections) ==>
        ReadItem(data, pos).Some? && DataOf(Flat(sections), k).Some? && ReadItem(data, pos).value.0 == Rec(See(DataOf(Flat(sections), k).value))
    {
      if k < DataTotal(sections) {
        hide ReadItem, DataOf, BlocksOf, SectionsAt;
        assert AllGood(Flat(sections));
        DataThere(data, 4 + Len(prefix), 0, sections, |data|, k);
      }
    }
  }

  /** Pass `count` data items: what is left of the count, and the index of the last one. */
  method CountData(items: seq<Parsed>, count: nat) returns (left: int, j: nat)
    requires count > 0 && NthData(items, count - 1) < |items|
    ensures left == 0 && j == NthData(items, count - 1)
  {
    hide NthData;
    left := count;
    var i := 0;
    ghost var want := NthData(items, count - 1);
    assert items[0..] == items;
    while left > 0
      invariant 0 <= i <= |items| && left >= 0
      invariant if left > 0 then i + NthData(items[i..], left - 1) == want else i == want + 1
      decreases |items| - i
    {
      NthStep(items[i..], left - 1);
      assert items[i..][1..] == items[i + 1..];
      if items[i].ParsedData? {
        left := left - 1;
      }
      i := i + 1;
    }
    j := i - 1;
  }

  lemma NoneLeft(b: seq<byte>, p: nat)
    requires ReadItem(b, p).None?
    ensures NextIndex(b, p) == None
  {
  }

  lemma NoSectionsNoData(ss: seq<seq<Record>>)
    ensures ss == [] ==> DataTotal(ss) == 0
  {
  }

  lemma PrefixMore(all: seq<ParsedBlock>, was: seq<ParsedBlock>, bs: seq<ParsedBlock>)
    requires |bs| == |was| + 1 <= |all| && was == all[..|was|] && bs == was + [all[|was|]]
    ensures bs == all[..|bs|]
  {
  }

  lemma NthStep(items: seq<Parsed>, n: nat)
    requires NthData(items, n) < |items|
    ensures items != []
    ensures items[0].ParsedData? && n == 0 ==> NthData(items, n) == 0
    ensures items[0].ParsedData? && n > 0 ==> NthData(items, n) == 1 + NthData(items[1..], n - 1)
    ensures !items[0].ParsedData? ==> NthData(items, n) == 1 + NthData(items[1..], n)
  {
  }
}
