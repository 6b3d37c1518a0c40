/** How an FFS file is laid out: comments and formats before the first index block, then
    sections, each an index block and the records it indexes. */
module FileLayout {
  import opened Bytes
  import opened ByteOrder
  import opened Framing
  import opened IndexBlock

  const MAGIC: nat := 0x4356_ffa9

  /** The index item of a record whose header is at pos; comments have none. */
  function ItemOf(pos: nat, r: Record): seq<Item> {
    match r
    case Comment(_) => []
    case FormatRec(id, _) => [FormatItem(pos, id)]
    case DataRec(id, _, attrs) => [DataItem(pos, id, attrs)]
  }

  function Items(pos: nat, rs: seq<Record>): seq<Item>
    decreases |rs|
  {
    if rs == [] then [] else ItemOf(pos, rs[0]) + Items(pos + |RecordBytes(rs[0])|, rs[1..])
  }

  function DataCount(rs: seq<Record>): nat {
    if rs == [] then 0 else (if rs[0].DataRec? then 1 else 0) + DataCount(rs[1..])
  }

  function DataTotal(ss: seq<seq<Record>>): nat {
    if ss == [] then 0 else DataCount(ss[0]) + DataTotal(ss[1..])
  }

  function Flat(ss: seq<seq<Record>>): seq<Record> {
    if ss == [] then [] else ss[0] + Flat(ss[1..])
  }

  lemma {:induction false} ItemsOfAppend(pos: nat, rs: seq<Record>, r: Record)
    ensures Items(pos, rs + [r]) == Items(pos, rs) + ItemOf(pos + Len(rs), r)
    ensures DataCount(rs + [r]) == DataCount(rs) + (if r.DataRec? then 1 else 0)
    decreases |rs|
  {
    hide RecordBytes, ItemOf;
    if rs == [] {
      assert [] + [r] == [r] && [r][1..] == [];
    } else {
      var first := ItemOf(pos, rs[0]);
      assert (rs + [r])[1..] == rs[1..] + [r];
      ItemsOfAppend(pos + |RecordBytes(rs[0])|, rs[1..], r);
      Associates(first, Items(pos + |RecordBytes(rs[0])|, rs[1..]), ItemOf(pos + Len(rs), r));
    }
  }

  lemma Associates<T>(a: seq<T>, b: seq<T>, c: seq<T>)
    ensures a + (b + c) == a + b + c
  {
  }

  lemma {:induction false} FlatAppend(ss: seq<seq<Record>>, s: seq<Record>)
    ensures Flat(ss + [s]) == Flat(ss) + s && DataTotal(ss + [s]) == DataTotal(ss) + DataCount(s)
  {
    if ss == [] {
      assert [] + [s] == [s] && [s][1..] == [];
    } else {
      assert (ss + [s])[1..] == ss[1..] + [s];
      FlatAppend(ss[1..], s);
    }
  }

  /** Closed sections from pos to end; `start` data records come before them. */
  ghost predicate SectionsAt(b: seq<byte>, pos: nat, start: nat, ss: seq<seq<Record>>, end: nat)
    decreases |ss|
  {
    if ss == [] then pos == end
    else
      var next := pos + BlockSize + Len(ss[0]);
      && SectionAt(b, pos, start, ss[0])
      && SectionsAt(b, next, start + DataCount(ss[0]), ss[1..], end)
  }

  ghost predicate SectionAt(b: seq<byte>, pos: nat, start: nat, s: seq<Record>) {
    && BlockAt(b, pos, pos + BlockSize + Len(s), start, start + DataCount(s) - 1, Items(pos + BlockSize, s))
    && Has(b, pos + BlockSize, Stream(s))
  }

  lemma {:induction false} SectionsAppend(b: seq<byte>, pos: nat, start: nat, ss: seq<seq<Record>>, mid: nat, s: seq<Record>)
    requires SectionsAt(b, pos, start, ss, mid) && SectionAt(b, mid, start + DataTotal(ss), s)
    ensures SectionsAt(b, pos, start, ss + [s], mid + BlockSize + Len(s))
    decreases |ss|
  {
    hide SectionAt;
    if ss == [] {
      assert [] + [s] == [s] && [s][1..] == [];
    } else {
      assert (ss + [s])[1..] == ss[1..] + [s];
      SectionsAppend(b, pos + BlockSize + Len(ss[0]), start + DataCount(ss[0]), ss[1..], mid, s);
    }
  }

  /** Closed sections do not depend on what comes after them. */
  lemma {:induction false} SectionsKept(b: seq<byte>, c: seq<byte>, pos: nat, start: nat, ss: seq<seq<Record>>, end: nat)
    requires SectionsAt(b, pos, start, ss, end) && end <= |b| && end <= |c| && b[..end] == c[..end]
    ensures SectionsAt(c, pos, start, ss, end)
    decreases |ss|
  {
    hide SectionAt;
    if ss != [] {
      var next := pos + BlockSize + Len(ss[0]);
      SectionsOrder(b, next, start + DataCount(ss[0]), ss[1..], end);
      SectionKept(b, c, pos, start, ss[0], end);
      SectionsKept(b, c, next, start + DataCount(ss[0]), ss[1..], end);
    }
  }

  lemma {:induction false} SectionsOrder(b: seq<byte>, pos: nat, start: nat, ss: seq<seq<Record>>, end: nat)
    requires SectionsAt(b, pos, start, ss, end)
    ensures pos <= end
    decreases |ss|
  {
    hide SectionAt;
    if ss != [] {
      SectionsOrder(b, pos + BlockSize + Len(ss[0]), start + DataCount(ss[0]), ss[1..], end);
    }
  }

  lemma SectionKept(b: seq<byte>, c: seq<byte>, pos: nat, start: nat, s: seq<Record>, end: nat)
    requires SectionAt(b, pos, start, s) && pos + BlockSize + Len(s) <= end <= |b| && end <= |c| && b[..end] == c[..end]
    ensures SectionAt(c, pos, start, s)
  {
    hide Has, Word, NetInt, Items, ItemsAt, Stream;
    var items, last := Items(pos + BlockSize, s), start + DataCount(s) - 1;
    assert b[0..end] == c[0..end];
    HasKept(b, c, 0, end, pos, Word(4 * TWO24 + BlockSize));
    HasKept(b, c, 0, end, pos + 4, Word(pos + BlockSize + Len(s)));
    HasKept(b, c, 0, end, pos + 8, NetInt(start));
    HasKept(b, c, 0, end, pos + 12, NetInt(last));
    ItemsKept(b, c, 0, end, pos + 16, items);
    HasKept(b, c, 0, end, pos + 16 + Steps(items), Word(255));
    HasKept(b, c, 0, end, pos + BlockSize, Stream(s));
  }

  /** A complete file. */
  ghost predicate FileIs(b: seq<byte>, prefix: seq<Record>, ss: seq<seq<Record>>) {
    && Has(b, 0, Word(MAGIC)) && Has(b, 4, Stream(prefix))
    && SectionsAt(b, 4 + Len(prefix), 0, ss, |b|)
  }

  // ----- formats come first

  function FormatIds(rs: seq<Record>): set<seq<byte>> {
    set r | r in rs && r.FormatRec? :: r.id
  }

  /** Each format is written once, and before its first data record. */
  ghost predicate FormatsFirst(rs: seq<Record>) {
    forall i :: 0 <= i < |rs| ==> InTurn(rs, i)
  }

  ghost predicate InTurn(rs: seq<Record>, i: nat)
    requires i < |rs|
  {
    && (rs[i].FormatRec? ==> rs[i].id !in FormatIds(rs[..i]))
    && (rs[i].DataRec? ==> rs[i].id in FormatIds(rs[..i]))
  }

  lemma FormatsFirstAppend(rs: seq<Record>, r: Record)
    requires FormatsFirst(rs)
    requires r.FormatRec? ==> r.id !in FormatIds(rs)
    requires r.DataRec? ==> r.id in FormatIds(rs)
    ensures FormatsFirst(rs + [r])
    ensures FormatIds(rs + [r]) == FormatIds(rs) + (if r.FormatRec? then {r.id} else {})
  {
    hide FormatIds;
    var t := rs + [r];
    forall i | 0 <= i < |t|
      ensures InTurn(t, i)
    {
      if i < |rs| {
        assert InTurn(rs, i) && t[..i] == rs[..i];
      } else {
        assert t[..i] == rs;
      }
    }
    IdsAppend(rs, r);
  }

  lemma IdsAppend(rs: seq<Record>, r: Record)
    ensures FormatIds(rs + [r]) == FormatIds(rs) + (if r.FormatRec? then {r.id} else {})
  {
    var t := rs + [r];
    assert forall x :: x in t <==> x in rs || x == r;
    forall id
      ensures id in FormatIds(t) <==> id in FormatIds(rs) + (if r.FormatRec? then {r.id} else {})
    {
      if id in FormatIds(t) {
        var x :| x in t && x.FormatRec? && x.id == id;
      }
      if r.FormatRec? && id == r.id { assert r in t; }
    }
  }

  // ----- data positions

  /** Where the header of the k-th data record of a section is. */
  function DataAt(pos: nat, rs: seq<Record>, k: nat): nat
    decreases |rs|
  {
    if rs == [] then pos
    else if rs[0].DataRec? && k == 0 then pos
    else DataAt(pos + |RecordBytes(rs[0])|, rs[1..], if rs[0].DataRec? then k - 1 else k)
  }

  /** Where the header of the k-th data record of the sections is. */
  function DataIn(pos: nat, ss: seq<seq<Record>>, k: nat): nat
    decreases |ss|
  {
    if ss == [] then pos
    else if k < DataCount(ss[0]) then DataAt(pos + BlockSize, ss[0], k)
    else DataIn(pos + BlockSize + Len(ss[0]), ss[1..], k - DataCount(ss[0]))
  }
}
