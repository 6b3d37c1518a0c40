/** The writing half of an FFS file: records, and the index blocks reserved between them. */
module FileWriter {
  import opened Bytes
  import opened ByteOrder
  import opened Framing
  import opened IndexBlock
  import opened FileLayout

  /** Write s at p; a gap past the end of the file reads as zeroes. */
  function WriteAt(b: seq<byte>, p: nat, s: seq<byte>): (c: seq<byte>)
    ensures |c| == if p + |s| <= |b| then |b| else p + |s|
  {
    if p > |b| then b + Zeros(p - |b|) + s
    else if p + |s| <= |b| then b[..p] + s + b[p + |s|..]
    else b[..p] + s
  }

  lemma WriteHas(b: seq<byte>, p: nat, s: seq<byte>)
    ensures Has(WriteAt(b, p, s), p, s)
    ensures forall n: nat :: n <= p && n <= |b| ==> WriteAt(b, p, s)[..n] == b[..n]
  {
  }

  /** Writing before q leaves what is at q. */
  lemma WriteBefore(b: seq<byte>, p: nat, s: seq<byte>, q: nat, t: seq<byte>)
    requires Has(b, q, t) && p + |s| <= q
    ensures Has(WriteAt(b, p, s), q, t)
  {
    var c := WriteAt(b, p, s);
    assert c[q..q + |t|] == b[q..q + |t|];
  }

  lemma WriteAfter(b: seq<byte>, p: nat, s: seq<byte>, q: nat, t: seq<byte>)
    requires Has(b, q, t) && q + |t| <= p
    ensures Has(WriteAt(b, p, s), q, t)
  {
    var c := WriteAt(b, p, s);
    assert c[q..q + |t|] == b[q..q + |t|];
  }

  /** The open section's items after one more record. */
  lemma ItemsNext(block: seq<byte>, pos: nat, rs: seq<Record>, r: Record, i: Item)
    requires ItemsAt(block, 16, Items(pos, rs)) && ItemOf(pos + Len(rs), r) == [i]
    requires Has(block, 16 + Steps(Items(pos, rs)), ItemBytes(i))
    ensures ItemsAt(block, 16, Items(pos, rs + [r]))
    ensures Steps(Items(pos, rs + [r])) == Steps(Items(pos, rs)) + WriteStep(i)
  {
    hide Has, ItemBytes, WriteStep, RecordBytes;
    ItemsOfAppend(pos, rs, r);
    ItemsAppend(block, 16, Items(pos, rs), i);
  }

  /** Closing a section: its index block, complete, is written where it was reserved. */
  lemma CloseSection(b: seq<byte>, block: seq<byte>, pos: nat, start: nat, ss: seq<seq<Record>>, base: nat, s: seq<Record>, end: nat)
    requires SectionsAt(b, pos, start, ss, base) && Has(b, base + BlockSize, Stream(s)) && end == |b| == base + BlockSize + Len(s)
    requires |block| == BlockSize && ItemsAt(block, 16, Items(base + BlockSize, s)) && 16 + Steps(Items(base + BlockSize, s)) + 4 <= BlockSize
    requires Has(block, 16 + Steps(Items(base + BlockSize, s)), Word(255))
    requires var last := start + DataTotal(ss) + DataCount(s) - 1;
      && Has(block, 0, Word(4 * TWO24 + BlockSize)) && Has(block, 4, Word(end)) && Has(block, 8, NetInt(start + DataTotal(ss)))
      && Has(block, 12, NetInt(last))
    ensures var c := WriteAt(b, base, block); |c| == end && SectionsAt(c, pos, start, ss + [s], end)
  {
    hide Has, Word, NetInt, ItemsAt, Stream, Items, SectionsAt;
    var c := WriteAt(b, base, block);
    var items, last := Items(base + BlockSize, s), start + DataTotal(ss) + DataCount(s) - 1;
    WriteHas(b, base, block);
    WriteBefore(b, base, block, base + BlockSize, Stream(s));
    HasMoved(block, 0, Word(4 * TWO24 + BlockSize), c, base);
    HasMoved(block, 4, Word(end), c, base);
    HasMoved(block, 8, NetInt(start + DataTotal(ss)), c, base);
    HasMoved(block, 12, NetInt(last), c, base);
    HasMoved(block, 16 + Steps(items), Word(255), c, base);
    ItemsMoved(block, 16, c, base, items);
    assert SectionAt(c, base, start + DataTotal(ss), s);
    SectionsOrder(b, pos, start, ss, base);
    SectionsKept(b, c, pos, start, ss, base);
    SectionsAppend(c, pos, start, ss, base, s);
  }

  /** What the index can hold and a reader can find again: lengths in range, an item that
      fits an empty block, format IDs and attributes in whole words. */
  predicate GoodRecord(r: Record) {
    && InRange(r) && (!r.Comment? ==> |r.id| % 4 == 0)
    && (r.FormatRec? ==> 28 + |r.id| < BlockSize - 8)
    && (r.DataRec? ==> |r.attrs| % 4 == 0 && 32 + |r.id| + |r.attrs| < BlockSize - 8)
  }

  class FFSFile {
    var data: seq<byte>
    var pos: nat
    var indexed: bool
    var fpos: nat
    var dataCount: nat
    var written: set<seq<byte>>
    var hasIndex: bool
    var base: nat
    var indexStart: int
    var indexEnd: int
    var nextItem: nat
    const block: array<byte>

    ghost var prefix: seq<Record>
    ghost var done: seq<seq<Record>>
    ghost var cur: seq<Record>

    ghost function History(): seq<Record>
      reads this`prefix, this`done, this`cur
    {
      prefix + Flat(done) + cur
    }

    /** What is in the file: closed sections and the records of the open one. */
    ghost predicate InFile()
      reads this`data, this`pos, this`hasIndex, this`base, this`prefix, this`done, this`cur
    {
      && Has(data, 0, Word(MAGIC)) && Has(data, 4, Stream(prefix))
      && (if !hasIndex then done == [] && cur == [] && pos == |data| == 4 + Len(prefix)
          else
            && SectionsAt(data, 4 + Len(prefix), 0, done, base) && base <= |data|
            && pos == base + BlockSize + Len(cur)
            && (if cur == [] then |data| == base else |data| == pos && Has(data, base + BlockSize, Stream(cur)))
            && DataCount(prefix) == 0)
    }

    /** The open index block holds the items of rs. */
    ghost predicate InBlock(rs: seq<Record>)
      reads this`nextItem, this`base, block
    {
      && block.Length == BlockSize && nextItem == 16 + Steps(Items(base + BlockSize, rs)) <= BlockSize - 4
      && ItemsAt(block[..], 16, Items(base + BlockSize, rs))
    }

    ghost predicate Book()
      reads this`dataCount, this`written, this`indexed, this`hasIndex, this`indexStart, this`prefix, this`done, this`cur
    {
      && dataCount == DataCount(prefix) + DataTotal(done) + DataCount(cur)
      && FormatsFirst(History()) && written == FormatIds(History()) && (hasIndex ==> indexed)
      && (indexed ==> DataCount(prefix) == 0) && (hasIndex ==> indexStart == DataTotal(done))
      && forall r :: r in History() ==> GoodRecord(r)
    }

    ghost predicate Valid()
      reads this, block
    {
      InFile() && Book() && fpos == pos && block.Length == BlockSize && (hasIndex ==> cur != [] && InBlock(cur))
    }

    /** open_FFSfd for writing. */
    constructor (index: bool)
      ensures Valid() && indexed == index && History() == [] && !hasIndex && fresh(block)
    {
      indexed := index;
      data := Word(MAGIC);
      pos, fpos := 4, 4;
      dataCount, written, hasIndex := 0, {}, false;
      base, indexStart, indexEnd, nextItem := 0, 0, 0, 0;
      block := new byte[BlockSize](_ => 0);
      prefix, done, cur := [], [], [];
    }

    /** init_write_index_block: reserve the next index block at the current position. */
    method InitWriteIndexBlock()
      modifies this
      ensures base == old(pos) && pos == fpos == base + BlockSize && nextItem == 16 && hasIndex
      ensures indexStart == (if old(hasIndex) then old(indexEnd) else 0)
      ensures unchanged(`data, `indexed, `dataCount, `written, `indexEnd, `prefix, `done, `cur)
    {
      if hasIndex {
        indexStart := indexEnd;
      } else {
        indexStart := 0;
        hasIndex := true;
      }
      base := pos;
      pos := pos + BlockSize;
      nextItem := 16;
      fpos := pos;
    }

    /** The end marker, and the header: size, next block, first and last data item. */
    method CompleteBlock(end: nat, ghost items: seq<Item>)
      requires block.Length == BlockSize && nextItem == 16 + Steps(items) <= BlockSize - 4 && ItemsAt(block[..], 16, items)
      modifies block
      ensures ItemsAt(block[..], 16, items) && Has(block[..], nextItem, Word(255))
      ensures Has(block[..], 0, Word(4 * TWO24 + BlockSize)) && Has(block[..], 4, Word(end))
      ensures Has(block[..], 8, NetInt(indexStart)) && Has(block[..], 12, NetInt(indexEnd))
    {
      hide Has, ItemsAt, Word, NetInt, Steps;
      ghost var b0 := block[..];
      Put(block, nextItem, Word(255));
      ghost var b1 := block[..];
      Put(block, 0, Word(4 * TWO24 + BlockSize));
      ghost var b2 := block[..];
      Put(block, 4, Word(end));
      ghost var b3 := block[..];
      Put(block, 8, NetInt(indexStart));
      ghost var b4 := block[..];
      Put(block, 12, NetInt(indexEnd));
      Completed(b0, b1, b2, b3, b4, block[..], items, Word(4 * TWO24 + BlockSize), Word(end),
                NetInt(indexStart), NetInt(indexEnd));
    }

    /** dump_index_block: complete the block, write it where it was reserved, start another. */
    method DumpIndexBlock()
      requires InFile() && hasIndex && cur != [] && InBlock(cur) && indexStart == DataTotal(done)
      requires dataCount == DataTotal(done) + DataCount(cur)
      modifies this, block
      ensures InFile() && hasIndex && done == old(done) + [old(cur)] && cur == [] && prefix == old(prefix)
      ensures nextItem == 16 && fpos == pos && indexEnd == dataCount - 1 && base == |data|
      ensures unchanged(`indexed, `dataCount, `written)
    {
      hide Has, ItemsAt, Stream, Word, NetInt, SectionsAt, Items, Steps;
      var end := pos;
      indexEnd := dataCount - 1;
      CompleteBlock(end, Items(base + BlockSize, cur));
      CloseSection(data, block[..], 4 + Len(prefix), 0, done, base, cur, end);
      ghost var was := data;
      WriteHas(data, base, block[..]);
      HeadKept(data, base, block[..], prefix, done);
      data := WriteAt(data, base, block[..]);
      pos := end;
      InitWriteIndexBlock();
      done := done + [cur];
      cur := [];
      StreamEmpty();
    }

    /** Everything but the open block's items. */
    ghost predicate Ready()
      reads this`data, this`pos, this`fpos, this`dataCount, this`written, this`indexed, this`hasIndex, this`base, this`indexStart, this`prefix, this`done, this`cur
    {
      InFile() && Book() && fpos == pos && (indexed ==> hasIndex)
    }

    /** Reserve the first index block, behind whatever is in the file. */
    method FirstBlock()
      requires Valid() && indexed && !hasIndex
      modifies this
      ensures Ready() && hasIndex && InBlock(cur) && nextItem == 16
      ensures unchanged(`prefix, `done, `cur, `written, `dataCount, `indexed)
    {
      hide Has, ItemsAt, Stream, SectionsAt, FormatsFirst, FormatIds, GoodRecord, Items;
      InitWriteIndexBlock();
      NoSections(data, base);
      NoItems(block[..], base);
    }

    /** Complete the open index block and reserve another. */
    method NextBlock()
      requires Ready() && hasIndex && cur != [] && InBlock(cur)
      modifies this, block
      ensures Ready() && hasIndex && InBlock(cur) && nextItem == 16
      ensures History() == old(History()) && unchanged(`written, `dataCount, `indexed)
    {
      hide InFile, SectionsAt, FormatsFirst, FormatIds, GoodRecord, ItemsAt, Items, Steps;
      ghost var p, d, c := prefix, done, cur;
      Counts();
      DumpIndexBlock();
      FlatAppend(d, c);
      indexStart := dataCount;
      NoItems(block[..], base);
      StreamEmpty();
      assert p + (Flat(d) + c) + [] == p + Flat(d) + c;
    }

    lemma Counts()
      requires Ready() && hasIndex
      ensures dataCount == DataTotal(done) + DataCount(cur) && DataCount(prefix) == 0 && indexStart == DataTotal(done)
    {
    }

    /** prepare_index_item: make sure an item of this length fits before the end marker. */
    method PrepareIndexItem(itemLen: nat)
      requires Valid() && indexed && 16 + itemLen < BlockSize - 8
      modifies this, block
      ensures Ready() && hasIndex && InBlock(cur) && nextItem + itemLen < BlockSize - 8
      ensures History() == old(History()) && unchanged(`written, `dataCount, `indexed)
    {
      hide InFile, Book, InBlock, Items, Steps;
      var isNew := !hasIndex;
      if isNew {
        FirstBlock();
      }
      if !isNew && nextItem + itemLen >= BlockSize - 8 {
        NextBlock();
      }
    }

    lemma NoIndex()
      requires InFile()
      ensures !hasIndex ==> done == [] && cur == []
    {
    }

    lemma Positions()
      requires InFile() && hasIndex
      ensures pos == base + BlockSize + Len(cur)
    {
    }

    /** Add an item to the open index block. */
    method PutItem(i: Item, ghost rs: seq<Record>, ghost r: Record)
      requires InBlock(rs) && ItemOf(base + BlockSize + Len(rs), r) == [i] && nextItem + ItemLen(i) < BlockSize - 8
      modifies this`nextItem, block
      ensures InBlock(rs + [r])
    {
      hide Has, ItemsAt, Stream, ItemBytes, Items;
      ghost var b0 := block[..];
      Put(block, nextItem, ItemBytes(i));
      ghost var b1 := block[..];
      Put1(b0, b1, nextItem, ItemBytes(i));
      Prefix(b0, b1, nextItem, ItemBytes(i), nextItem);
      assert b1[16..nextItem] == b1[..nextItem][16..] == b0[..nextItem][16..] == b0[16..nextItem];
      ItemsKept(b0, b1, 16, nextItem, 16, Items(base + BlockSize, rs));
      ItemsNext(b1, base + BlockSize, rs, r, i);
      nextItem := nextItem + WriteStep(i);
    }

    method OutputFormatIndex(id: seq<byte>, ghost r: Record)
      requires Valid() && GoodRecord(r) && r.FormatRec? && r.id == id
      modifies this, block
      ensures Ready() && block.Length == BlockSize && (indexed ==> InBlock(cur + [r]))
      ensures History() == old(History()) && unchanged(`written, `dataCount, `indexed)
    {
      hide InFile, Book, GoodRecord, ItemsAt, Items;
      if !indexed { return; }
      GoodRoom(r);
      PrepareIndexItem(12 + |id|);
      Positions();
      PutItem(FormatItem(fpos, id), cur, r);
    }

    method OutputDataIndex(id: seq<byte>, attrs: seq<byte>, ghost r: Record)
      requires Valid() && GoodRecord(r) && r.DataRec? && r.id == id && r.attrs == attrs
      modifies this, block
      ensures Ready() && block.Length == BlockSize && (indexed ==> InBlock(cur + [r]))
      ensures History() == old(History()) && unchanged(`written, `dataCount, `indexed)
    {
      hide InFile, Book, GoodRecord, ItemsAt, Items;
      if !indexed { return; }
      GoodRoom(r);
      PrepareIndexItem(12 + (4 + |id| + |attrs|));
      Positions();
      PutItem(DataItem(fpos, id, attrs), cur, r);
    }

    /** Write the record itself. */
    method WriteRecord(r: Record)
      requires Ready() || (Valid() && r.Comment?)
      modifies this`data, this`pos, this`fpos, this`prefix, this`cur
      ensures InFile() && fpos == pos && done == old(done) && base == old(base)
      ensures if hasIndex then cur == old(cur) + [r] && prefix == old(prefix) else prefix == old(prefix) + [r] && cur == old(cur)
    {
      hide Has, SectionsAt, Stream, FormatsFirst, FormatIds, RecordBytes, GoodRecord, WriteAt;
      ghost var b := data;
      Appended(data, pos, r, prefix, done, base, cur, hasIndex);
      data := WriteAt(data, pos, RecordBytes(r));
      pos := pos + |RecordBytes(r)|;
      fpos := pos;
      if hasIndex { cur := cur + [r]; } else { prefix := prefix + [r]; }
    }

    method WriteComment(text: seq<byte>)
      requires Valid() && GoodRecord(Comment(text))
      modifies this, block
      ensures Valid() && History() == old(History()) + [Comment(text)]
      ensures indexed == old(indexed) && hasIndex == old(hasIndex)
    {
      hide InFile, FormatsFirst, FormatIds, RecordBytes, GoodRecord, ItemsAt, Items;
      ghost var p, d, c := prefix, done, cur;
      NoIndex();
      WriteRecord(Comment(text));
      HistoryNext(p + Flat(d) + c, p, d, c, Comment(text), hasIndex);
      CommentItems(base + BlockSize, c, Comment(text));
      GoodNext(p + Flat(d) + c, Comment(text));
    }

    method WriteFormat(id: seq<byte>, rep: seq<byte>)
      requires Valid() && GoodRecord(FormatRec(id, rep)) && id !in written
      modifies this, block
      ensures Valid() && History() == old(History()) + [FormatRec(id, rep)]
      ensures indexed == old(indexed) && (indexed ==> hasIndex) && written == old(written) + {id} && dataCount == old(dataCount)
    {
      hide InFile, FormatsFirst, FormatIds, RecordBytes, GoodRecord, ItemsAt, Items;
      var r := FormatRec(id, rep);
      OutputFormatIndex(id, r);
      ghost var p, d, c := prefix, done, cur;
      NoIndex();
      WriteRecord(r);
      written := written + {id};
      HistoryNext(p + Flat(d) + c, p, d, c, r, hasIndex);
      GoodNext(p + Flat(d) + c, r);
    }

    /** A data record of a format the file has. */
    method PutData(id: seq<byte>, payload: seq<byte>, attrs: seq<byte>)
      requires Valid() && GoodRecord(DataRec(id, payload, attrs)) && id in written
      modifies this, block
      ensures Valid() && History() == old(History()) + [DataRec(id, payload, attrs)]
      ensures indexed == old(indexed) && (indexed ==> hasIndex) && dataCount == old(dataCount) + 1
    {
      hide InFile, FormatsFirst, FormatIds, RecordBytes, GoodRecord, ItemsAt, Items;
      var r := DataRec(id, payload, attrs);
      OutputDataIndex(id, attrs, r);
      ghost var p, d, c := prefix, done, cur;
      NoIndex();
      WriteRecord(r);
      HistoryNext(p + Flat(d) + c, p, d, c, r, hasIndex);
      GoodNext(p + Flat(d) + c, r);
      dataCount := dataCount + 1;
    }

    /** write_FFSfile_attrs: the format first if the file does not have it yet; attributes are
        kept in the index, so only an indexed file has them. */
    method WriteData(id: seq<byte>, rep: seq<byte>, payload: seq<byte>, attrs: seq<byte>)
      requires Valid() && GoodRecord(FormatRec(id, rep)) && GoodRecord(DataRec(id, payload, if indexed then attrs else []))
      modifies this, block
      ensures Valid() && indexed == old(indexed) && (indexed ==> hasIndex)
      ensures History() == old(History()) + (if id in old(written) then [] else [FormatRec(id, rep)])
        + [DataRec(id, payload, if indexed then attrs else [])]
      ensures dataCount == old(dataCount) + 1
    {
      hide Valid, History, GoodRecord;
      if id !in written {
        WriteFormat(id, rep);
      }
      PutData(id, payload, if indexed then attrs else []);
    }

    /** Close the file: an indexed one gets its last index block. */
    method Close()
      requires Valid() && (indexed ==> hasIndex)
      modifies this, block
      ensures FileIs(data, prefix, done) && prefix + Flat(done) == old(History())
      ensures FormatsFirst(prefix + Flat(done)) && forall r :: r in prefix + Flat(done) ==> GoodRecord(r)
      ensures !old(indexed) ==> done == []
      ensures old(indexed) ==> DataCount(prefix) == 0
    {
      hide FormatsFirst, FormatIds, RecordBytes, GoodRecord, ItemsAt, Items, SectionsAt, Stream, Has, Steps;
      StreamEmpty();
      ghost var d, c := done, cur;
      assert prefix + Flat(d) + c == prefix + (Flat(d) + c);
      if indexed {
        FlatAppend(d, c);
        DumpIndexBlock();
      } else {
        NoSections(data, |data|);
      }
    }
  }

  lemma GoodNext(h: seq<Record>, r: Record)
    requires GoodRecord(r) && forall x :: x in h ==> GoodRecord(x)
    ensures forall x :: x in h + [r] ==> GoodRecord(x)
  {
  }

  lemma GoodRoom(r: Record)
    requires GoodRecord(r) && !r.Comment?
    ensures r.FormatRec? ==> 28 + |r.id| < BlockSize - 8
    ensures r.DataRec? ==> 32 + |r.id| + |r.attrs| < BlockSize - 8
  {
  }

  lemma CommentItems(pos: nat, rs: seq<Record>, r: Record)
    requires r.Comment?
    ensures Items(pos, rs + [r]) == Items(pos, rs)
  {
    ItemsOfAppend(pos, rs, r);
  }

  /** The books after one more record, in the prefix or in the open section. */
  lemma HistoryNext(h: seq<Record>, prefix: seq<Record>, done: seq<seq<Record>>, cur: seq<Record>, r: Record, inSection: bool)
    requires h == prefix + Flat(done) + cur && FormatsFirst(h) && (!inSection ==> done == [] && cur == [])
    requires (r.FormatRec? ==> r.id !in FormatIds(h)) && (r.DataRec? ==> r.id in FormatIds(h))
    ensures FormatsFirst(h + [r]) && FormatIds(h + [r]) == FormatIds(h) + (if r.FormatRec? then {r.id} else {})
    ensures h + [r] == if inSection then prefix + Flat(done) + (cur + [r]) else prefix + [r] + Flat(done) + cur
    ensures DataCount(cur + [r]) == DataCount(cur) + (if r.DataRec? then 1 else 0)
    ensures DataCount(prefix + [r]) == DataCount(prefix) + (if r.DataRec? then 1 else 0)
  {
    hide FormatsFirst, FormatIds, DataCount, Items, ItemOf, Stream;
    FormatsFirstAppend(h, r);
    ItemsOfAppend(0, cur, r);
    ItemsOfAppend(0, prefix, r);
    if !inSection { StreamEmpty(); }
  }

  /** The file after one more record. */
  lemma Appended(b: seq<byte>, pos: nat, r: Record, prefix: seq<Record>, done: seq<seq<Record>>, base: nat, cur: seq<Record>, hasIndex: bool)
    requires Has(b, 0, Word(MAGIC)) && Has(b, 4, Stream(prefix))
    requires if !hasIndex then pos == |b| == 4 + Len(prefix)
      else
        && SectionsAt(b, 4 + Len(prefix), 0, done, base) && base <= |b| && pos == base + BlockSize + Len(cur)
        && (if cur == [] then |b| == base else |b| == pos && Has(b, base + BlockSize, Stream(cur)))
    ensures var c := WriteAt(b, pos, RecordBytes(r));
      && |c| == pos + |RecordBytes(r)| && Has(c, 0, Word(MAGIC))
      && (if !hasIndex then Has(c, 4, Stream(prefix + [r])) && Len(prefix + [r]) == Len(prefix) + |RecordBytes(r)|
          else
            && Has(c, 4, Stream(prefix)) && SectionsAt(c, 4 + Len(prefix), 0, done, base)
            && Has(c, base + BlockSize, Stream(cur + [r])) && Len(cur + [r]) == Len(cur) + |RecordBytes(r)|)
  {
    hide Has, SectionsAt, RecordBytes, Word;
    var c := WriteAt(b, pos, RecordBytes(r));
    WriteHas(b, pos, RecordBytes(r));
    HasBound(b, 4, Stream(prefix));
    HasBound(b, 0, Word(MAGIC));
    if !hasIndex {
      StreamAppend(prefix, r);
      WriteAfter(b, pos, RecordBytes(r), 0, Word(MAGIC));
      WriteAfter(b, pos, RecordBytes(r), 4, Stream(prefix));
      HasJoin(c, 4, Stream(prefix), RecordBytes(r));
    } else {
      SectionsOrder(b, 4 + Len(prefix), 0, done, base);
      WriteAfter(b, pos, RecordBytes(r), 0, Word(MAGIC));
      WriteAfter(b, pos, RecordBytes(r), 4, Stream(prefix));
      SectionsKept(b, c, 4 + Len(prefix), 0, done, base);
      StreamAppend(cur, r);
      if cur == [] {
        Nothing(c, base + BlockSize);
      } else {
        WriteAfter(b, pos, RecordBytes(r), base + BlockSize, Stream(cur));
      }
      HasJoin(c, base + BlockSize, Stream(cur), RecordBytes(r));
    }
  }

  lemma StreamEmpty()
    ensures Stream([]) == [] && DataCount([]) == 0 && Flat([]) == [] && DataTotal([]) == 0
  {
  }

  lemma NoSections(b: seq<byte>, pos: nat)
    ensures SectionsAt(b, pos, 0, [], pos)
  {
  }

  lemma NoItems(block: seq<byte>, base: nat)
    ensures Items(base + BlockSize, []) == [] && Steps([]) == 0 && ItemsAt(block, 16, []) && Stream([]) == []
  {
  }

  /** Magic number and prefix come before every section. */
  lemma HeadKept(b: seq<byte>, base: nat, s: seq<byte>, prefix: seq<Record>, ss: seq<seq<Record>>)
    requires Has(b, 0, Word(MAGIC)) && Has(b, 4, Stream(prefix)) && SectionsAt(b, 4 + Len(prefix), 0, ss, base)
    ensures Has(WriteAt(b, base, s), 0, Word(MAGIC)) && Has(WriteAt(b, base, s), 4, Stream(prefix))
  {
    hide Has, Stream;
    SectionsOrder(b, 4 + Len(prefix), 0, ss, base);
    WriteAfter(b, base, s, 0, Word(MAGIC));
    WriteAfter(b, base, s, 4, Stream(prefix));
  }

  /** The block with its end marker and the four words of its header. */
  lemma Completed(b0: seq<byte>, b1: seq<byte>, b2: seq<byte>, b3: seq<byte>, b4: seq<byte>, b5: seq<byte>, items: seq<Item>,
                  w1: seq<byte>, w2: seq<byte>, w3: seq<byte>, w4: seq<byte>)
    requires |b0| == BlockSize && ItemsAt(b0, 16, items) && 16 + Steps(items) + 4 <= BlockSize && |w1| == |w2| == |w3| == |w4| == 4
    requires Written(b0, b1, 16 + Steps(items), Word(255)) && Written(b1, b2, 0, w1) && Written(b2, b3, 4, w2)
    requires Written(b3, b4, 8, w3) && Written(b4, b5, 12, w4)
    ensures |b5| == BlockSize && ItemsAt(b5, 16, items) && Has(b5, 16 + Steps(items), Word(255))
    ensures Has(b5, 0, w1) && Has(b5, 4, w2) && Has(b5, 8, w3) && Has(b5, 12, w4)
  {
    hide Has, Word, ItemsAt, Steps;
    var n := 16 + Steps(items);
    Put1(b0, b1, n, Word(255));
    Put1(b1, b2, 0, w1);
    Put1(b2, b3, 4, w2);
    Put1(b3, b4, 8, w3);
    Put1(b4, b5, 12, w4);
    StillHas(b1, b2, 0, w1, n, Word(255));
    StillHas(b2, b3, 4, w2, n, Word(255));
    StillHas(b3, b4, 8, w3, n, Word(255));
    StillHas(b4, b5, 12, w4, n, Word(255));
    StillHas(b2, b3, 4, w2, 0, w1);
    StillHas(b3, b4, 8, w3, 0, w1);
    StillHas(b4, b5, 12, w4, 0, w1);
    StillHas(b3, b4, 8, w3, 4, w2);
    StillHas(b4, b5, 12, w4, 4, w2);
    StillHas(b4, b5, 12, w4, 8, w3);
    assert b5[16..n] == b0[16..n];
    ItemsKept(b0, b5, 16, n, 16, items);
  }
}
