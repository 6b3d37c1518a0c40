/** Index blocks of an indexed file: items packed between a header and an end marker. */
module IndexBlock {
  import opened Bytes
  import opened ByteOrder
  import opened Framing

  const BlockSize: nat := 256

  datatype Item = FormatItem(fpos: nat, id: seq<byte>) | DataItem(fpos: nat, id: seq<byte>, attrs: seq<byte>)

  /** Bytes the item asks room for. */
  function ItemLen(i: Item): nat {
    if i.FormatItem? then 12 + |i.id| else 16 + |i.id| + |i.attrs|
  }

  function ItemBytes(i: Item): (s: seq<byte>)
    ensures |s| == ItemLen(i)
  {
    match i
    case FormatItem(fpos, id) => Word(|id| * 256) + Word(fpos / TWO32) + Word(fpos) + id
    case DataItem(fpos, id, attrs) =>
      Word(1 + (4 + |id| + |attrs|) * 256) + Word(fpos / TWO32) + Word(fpos) + (Word(|id|) + id + attrs)
  }

  /** How far the writer moves on. */
  function WriteStep(i: Item): (n: nat)
    ensures ItemLen(i) <= n < ItemLen(i) + 4
  {
    if i.FormatItem? then 12 + |i.id| else 12 + Align4(4 + |i.id| + |i.attrs|)
  }

  /** How far the parser moves on. */
  function ParseStep(idLen: nat, attrLen: nat, isFormat: bool): nat {
    if isFormat then Align4(idLen + 12) else (idLen + attrLen + 16) / 4 * 4
  }

  /** The parser lands on the next item exactly when the lengths are multiples of 4. */
  lemma StepsAgree(i: Item)
    ensures ParseStep(|i.id|, if i.DataItem? then |i.attrs| else 0, i.FormatItem?) == WriteStep(i)
      <==> (if i.FormatItem? then |i.id| % 4 == 0 else (|i.id| + |i.attrs|) % 4 == 0)
  {
    if i.DataItem? {
      var n := |i.id| + |i.attrs|;
      assert n == 4 * (n / 4) + n % 4;
      assert (n + 16) / 4 == n / 4 + 4;
    }
  }

  function Steps(items: seq<Item>): nat {
    if items == [] then 0 else WriteStep(items[0]) + Steps(items[1..])
  }

  /** The items are in the block, one after the other. */
  ghost predicate ItemsAt(b: seq<byte>, p: nat, items: seq<Item>)
    decreases |items|
  {
    items == [] || (Has(b, p, ItemBytes(items[0])) && ItemsAt(b, p + WriteStep(items[0]), items[1..]))
  }

  lemma {:induction false} ItemsAppend(b: seq<byte>, p: nat, items: seq<Item>, i: Item)
    requires ItemsAt(b, p, items) && Has(b, p + Steps(items), ItemBytes(i))
    ensures ItemsAt(b, p, items + [i]) && Steps(items + [i]) == Steps(items) + WriteStep(i)
    decreases |items|
  {
    hide Has, ItemBytes, WriteStep;
    if items == [] {
      assert [] + [i] == [i] && [i][1..] == [];
    } else {
      assert (items + [i])[1..] == items[1..] + [i];
      ItemsAppend(b, p + WriteStep(items[0]), items[1..], i);
    }
  }

  lemma HasKept(b: seq<byte>, c: seq<byte>, lo: nat, hi: nat, p: nat, s: seq<byte>)
    requires lo <= hi <= |b| && hi <= |c| && b[lo..hi] == c[lo..hi] && Has(b, p, s) && lo <= p && p + |s| <= hi
    ensures Has(c, p, s)
  {
    forall i | p <= i < p + |s|
      ensures c[i] == b[i]
    {
      assert c[lo..hi][i - lo] == b[lo..hi][i - lo];
    }
    assert c[p..p + |s|] == b[p..p + |s|];
  }

  /** Writing behind the items leaves them. */
  lemma {:induction false} ItemsKept(b: seq<byte>, c: seq<byte>, lo: nat, hi: nat, p: nat, items: seq<Item>)
    requires ItemsAt(b, p, items) && lo <= p && p + Steps(items) <= hi <= |b| && hi <= |c| && b[lo..hi] == c[lo..hi]
    ensures ItemsAt(c, p, items)
    decreases |items|
  {
    hide Has, ItemBytes, WriteStep;
    if items != [] {
      StepCovers(items[0]);
      HasKept(b, c, lo, hi, p, ItemBytes(items[0]));
      ItemsKept(b, c, lo, hi, p + WriteStep(items[0]), items[1..]);
    }
  }

  lemma StepCovers(i: Item)
    ensures |ItemBytes(i)| <= WriteStep(i)
  {
  }

  lemma HasMoved(b: seq<byte>, p: nat, s: seq<byte>, c: seq<byte>, q: nat)
    requires Has(b, p, s) && Has(c, q, b)
    ensures Has(c, q + p, s)
  {
    forall i | p <= i < p + |s|
      ensures c[q + i] == b[i]
    {
      assert c[q..q + |b|][i] == b[i];
    }
    assert c[q + p..q + p + |s|] == b[p..p + |s|];
  }

  /** The same items in a copy of the block somewhere else. */
  lemma {:induction false} ItemsMoved(b: seq<byte>, p: nat, c: seq<byte>, q: nat, items: seq<Item>)
    requires ItemsAt(b, p, items) && Has(c, q, b)
    ensures ItemsAt(c, q + p, items)
    decreases |items|
  {
    hide Has, ItemBytes, WriteStep;
    if items != [] {
      HasMoved(b, p, ItemBytes(items[0]), c, q);
      ItemsMoved(b, p + WriteStep(items[0]), c, q, items[1..]);
    }
  }

  // ----- parsing

  /** What the parser makes of an item. Of a data item it takes the 4 bytes before the
      format ID and all but the last 4 of the ID for the ID. */
  datatype Parsed =
    | ParsedFormat(fpos: nat, id: seq<byte>)
    | ParsedData(fpos: nat, id: seq<byte>, attrs: seq<byte>)
    | Unknown

  datatype ParsedBlock = ParsedBlock(next: nat, start: int, last: int, items: seq<Parsed>)

  function Signed(v: nat): int {
    if v < TWO31 then v else v - TWO32
  }

  function Filepos(b: seq<byte>, p: nat): nat {
    WordAt(b, p + 4) * TWO32 + WordAt(b, p + 8)
  }

  /** Items from p on, up to the end marker. */
  function ParseItems(b: seq<byte>, p: nat): seq<Parsed>
    decreases |b| - p
  {
    if p >= |b| then []
    else
      var w := WordAt(b, p);
      if w % 256 == 0 then
        var n := w / 256;
        [ParsedFormat(Filepos(b, p), Load(b, p + 12, n))] + ParseItems(b, p + ParseStep(n, 0, true))
      else if w % 256 == 1 then
        var n, total := WordAt(b, p + 12), w / 256;
        if total < n + 4 then [Unknown]
        else
          var a := total - n - 4;
          [ParsedData(Filepos(b, p), Load(b, p + 12, n), if a <= 1 then [] else Load(b, p + 16 + n, a))]
          + ParseItems(b, p + ParseStep(n, a, false))
      else if w % 256 == 255 then []
      else [Unknown] + ParseItems(b, p + 1)
  }

  function ParseBlock(b: seq<byte>, p: nat): ParsedBlock {
    ParsedBlock(WordAt(b, p + 4), Signed(WordAt(b, p + 8)), Signed(WordAt(b, p + 12)), ParseItems(b, p + 16))
  }

  predicate Sound(i: Item) {
    && i.fpos < TWO32 * TWO32 && |i.id| % 4 == 0
    && (i.DataItem? ==> |i.attrs| % 4 == 0)
    && ItemLen(i) < BlockSize
  }

  function AsParsed(i: Item): Parsed {
    match i
    case FormatItem(fpos, id) => ParsedFormat(fpos, id)
    case DataItem(fpos, id, attrs) => ParsedData(fpos, (Word(|id|) + id)[..|id|], attrs)
  }

  /** The ID taken 4 bytes early is the ID exactly when the ID is its own length over and over. */
  lemma EarlyIdExact(id: seq<byte>)
    ensures (Word(|id|) + id)[..|id|] == id <==> forall i :: 0 <= i < |id| ==> id[i] == Word(|id|)[i % 4]
  {
    hide Word;
    var w := Word(|id|);
    var early := (w + id)[..|id|];
    if early == id {
      forall i | 0 <= i < |id|
        ensures id[i] == w[i % 4]
      {
        EarlyByte(w, id, i);
      }
    }
    if forall i :: 0 <= i < |id| ==> id[i] == w[i % 4] {
      forall i | 0 <= i < |id|
        ensures early[i] == id[i]
      {
        if i >= 4 { assert early[i] == id[i - 4] && (i - 4) % 4 == i % 4; }
      }
    }
  }

  lemma {:induction false} EarlyByte(w: seq<byte>, id: seq<byte>, i: nat)
    requires |w| == 4 && i < |id| && (w + id)[..|id|] == id
    ensures id[i] == w[i % 4]
  {
    assert id[i] == (w + id)[..|id|][i];
    if i >= 4 { EarlyByte(w, id, i - 4); }
  }

  /** So of a data item the parser gets the ID wrong, unless it is such an ID. */
  lemma ParsedIdExact(i: Item)
    requires i.DataItem?
    ensures AsParsed(i).id == i.id <==> forall k :: 0 <= k < |i.id| ==> i.id[k] == Word(|i.id|)[k % 4]
  {
    hide Word;
    EarlyIdExact(i.id);
  }

  function AllParsed(items: seq<Item>): (s: seq<Parsed>)
    ensures |s| == |items|
  {
    seq(|items|, i requires 0 <= i < |items| => AsParsed(items[i]))
  }

  /** One item read back. */
  lemma ItemBack(b: seq<byte>, p: nat, i: Item)
    requires Has(b, p, ItemBytes(i)) && Sound(i)
    ensures p < |b| && Filepos(b, p) == i.fpos
    ensures i.FormatItem? ==> WordAt(b, p) == |i.id| * 256 && Load(b, p + 12, |i.id|) == i.id
    ensures i.DataItem? ==>
      && WordAt(b, p) == 1 + (4 + |i.id| + |i.attrs|) * 256 && WordAt(b, p + 12) == |i.id|
      && Load(b, p + 12, |i.id|) == (Word(|i.id|) + i.id)[..|i.id|] && Load(b, p + 16 + |i.id|, |i.attrs|) == i.attrs
  {
    hide Has, Word, WordAt, Load;
    HasBound(b, p, ItemBytes(i));
    var w1, w2, w3 := Word(if i.FormatItem? then |i.id| * 256 else 1 + (4 + |i.id| + |i.attrs|) * 256), Word(i.fpos / TWO32), Word(i.fpos);
    var rest := if i.FormatItem? then i.id else Word(|i.id|) + i.id + i.attrs;
    HasSplit(b, p, w1 + w2 + w3, rest);
    HasSplit(b, p, w1 + w2, w3);
    HasSplit(b, p, w1, w2);
    WordBack(b, p, if i.FormatItem? then |i.id| * 256 else 1 + (4 + |i.id| + |i.attrs|) * 256);
    WordBack(b, p + 4, i.fpos / TWO32);
    WordBack(b, p + 8, i.fpos);
    if i.FormatItem? {
      HasLoad(b, p + 12, i.id);
    } else {
      HasSplit(b, p + 12, Word(|i.id|) + i.id, i.attrs);
      HasSplit(b, p + 12, Word(|i.id|), i.id);
      WordBack(b, p + 12, |i.id|);
      HasLoad(b, p + 16 + |i.id|, i.attrs);
      var both := Word(|i.id|) + i.id;
      assert both == both[..|i.id|] + both[|i.id|..];
      HasSplit(b, p + 12, both[..|i.id|], both[|i.id|..]);
      HasLoad(b, p + 12, both[..|i.id|]);
    }
  }

  /** The parser takes one item and goes on behind it. */
  lemma FirstBack(b: seq<byte>, p: nat, i: Item)
    requires Has(b, p, ItemBytes(i)) && Sound(i)
    ensures ParseItems(b, p) == [AsParsed(i)] + ParseItems(b, p + WriteStep(i))
  {
    hide Has, Word, WordAt, Load, Filepos, ItemBytes, ParseStep, WriteStep;
    ItemBack(b, p, i);
    StepsAgree(i);
    hide ParseItems;
    if i.FormatItem? {
      ParsesFormat(b, p, |i.id|);
    } else {
      ParsesData(b, p, |i.id|, |i.attrs|);
    }
  }

  lemma ParsesFormat(b: seq<byte>, p: nat, n: nat)
    requires p < |b| && WordAt(b, p) == n * 256
    ensures ParseItems(b, p) == [ParsedFormat(Filepos(b, p), Load(b, p + 12, n))] + ParseItems(b, p + ParseStep(n, 0, true))
  {
    hide WordAt, Load, Filepos, ParseStep;
    assert n * 256 % 256 == 0 && n * 256 / 256 == n;
  }

  lemma ParsesData(b: seq<byte>, p: nat, n: nat, a: nat)
    requires p < |b| && WordAt(b, p) == 1 + (4 + n + a) * 256 && WordAt(b, p + 12) == n
    ensures ParseItems(b, p) ==
      [ParsedData(Filepos(b, p), Load(b, p + 12, n), if a <= 1 then [] else Load(b, p + 16 + n, a))] + ParseItems(b, p + ParseStep(n, a, false))
  {
    hide WordAt, Load, Filepos, ParseStep;
    var w := 1 + (4 + n + a) * 256;
    assert w % 256 == 1 && w / 256 == 4 + n + a;
  }

  lemma AllParsedSplit(items: seq<Item>)
    requires items != []
    ensures AllParsed(items) == [AsParsed(items[0])] + AllParsed(items[1..])
  {
  }

  /** Parsing a block returns the items that were written. */
  lemma {:induction false} ItemsBack(b: seq<byte>, p: nat, items: seq<Item>)
    requires ItemsAt(b, p, items) && Has(b, p + Steps(items), Word(255))
    requires forall k :: 0 <= k < |items| ==> Sound(items[k])
    ensures ParseItems(b, p) == AllParsed(items)
    decreases |items|
  {
    hide Has, Word, WordAt, Load, Filepos, ItemBytes, ParseStep, WriteStep;
    if items == [] {
      HasBound(b, p, Word(255));
      WordBack(b, p, 255);
    } else {
      var i := items[0];
      assert Sound(i);
      ItemsBack(b, p + WriteStep(i), items[1..]);
      FirstBack(b, p, i);
      AllParsedSplit(items);
    }
  }

  /** An int in network order. */
  function NetInt(v: int): (s: seq<byte>)
    ensures |s| == 4
  {
    Word(v % TWO32)
  }

  /** A complete index block in the file. */
  ghost predicate BlockAt(b: seq<byte>, p: nat, next: nat, start: nat, last: int, items: seq<Item>) {
    && last >= -1
    && Has(b, p, Word(4 * TWO24 + BlockSize)) && Has(b, p + 4, Word(next))
    && Has(b, p + 8, NetInt(start)) && Has(b, p + 12, NetInt(last))
    && ItemsAt(b, p + 16, items) && Has(b, p + 16 + Steps(items), Word(255))
    && 16 + Steps(items) + 4 <= BlockSize && p + BlockSize <= |b|
  }

  lemma BlockBack(b: seq<byte>, p: nat, next: nat, start: nat, last: int, items: seq<Item>)
    requires BlockAt(b, p, next, start, last, items) && next < TWO32 && start < TWO31 && last < TWO31
    requires forall k :: 0 <= k < |items| ==> Sound(items[k])
    ensures HeadAt(b, p) == HIndex(BlockSize)
    ensures ParseBlock(b, p) == ParsedBlock(next, start, last, AllParsed(items))
  {
    hide Has, Word, WordAt, ParseItems, ItemsAt;
    WordBack(b, p, 4 * TWO24 + BlockSize);
    WordBack(b, p + 4, next);
    WordBack(b, p + 8, start % TWO32);
    WordBack(b, p + 12, last % TWO32);
    ItemsBack(b, p + 16, items);
  }
}
