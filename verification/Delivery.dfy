/** What becomes of strings and pointers, said of memory, message and image alone: every place
    that holds one leads to its bytes, and nothing else of an object is changed. */
module Delivery {
  import opened Bytes
  import opened Formats
  import opened ObjectGraph
  import opened EncodeSpec
  import opened EncodeFrame
  import opened EncodeReady
  import opened EncodeMeaning
  import opened DecodeSpec
  import opened RoundTrip
  import opened Places

  /** The string at p: n bytes that are not zero, then a zero byte or the end of memory. */
  ghost predicate IsString(mem: seq<byte>, p: nat, n: nat) {
    && (n > 0 ==> p + n <= |mem| && forall i :: p <= i < p + n ==> mem[i] != 0)
    && (p + n < |mem| ==> mem[p + n] == 0)
  }

  /** The n bytes at p in memory are at q + shift in m. */
  predicate CopiedTo(mem: seq<byte>, p: nat, n: nat, m: seq<byte>, q: int) {
    0 <= q && q + n <= |m| && m[q..q + n] == Load(mem, p, n)
  }

  /** What is stored for a string or pointer that was p in memory. A stored pointer q stands for
      the bytes at q + shift: in a message the shift is the length of the header, in an image
      at address base it is -base. */
  ghost predicate PlaceDelivered(sch: Schema, mem: seq<byte>, m: seq<byte>, shift: int, objs: seq<Block>, p: nat, q: nat, to: Target) {
    match to
    case CString =>
      if p == 0 then q == 0
      else q != 0 && forall n: nat :: IsString(mem, p, n) ==> CopiedTo(mem, p, n + 1, m, q + shift)
    case Data(_, t) =>
      if p == 0 || Size(sch, t, []) == 0 then q == 0
      else q != 0 && exists j :: 0 < j < |objs| && objs[j].src == p && objs[j].target == to && objs[j].off == q + shift
    case Record(_) => false
  }

  /** No string or pointer of the object covers its byte i. */
  ghost predicate Plain(sch: Schema, mem: seq<byte>, t: Target, p: nat, i: nat)
    requires ValidSchema(sch) && ValidTarget(sch, t)
  {
    forall off: nat, to :: ObjectAt(sch, mem, t, p, off, to) ==> i < off || off + 8 <= i
  }

  ghost predicate ObjectDelivered(sch: Schema, mem: seq<byte>, m: seq<byte>, shift: int, objs: seq<Block>, b: Block)
    requires ValidSchema(sch)
  {
    && ValidTarget(sch, b.target)
    && b.size == TargetSize(sch, mem, b.src, b.target) && b.off + b.size <= |m|
    && (forall off: int, to :: ObjectAt(sch, mem, b.target, b.src, off, to) ==>
          && 0 <= off && off + 8 <= b.size
          && PlaceDelivered(sch, mem, m, shift, objs, LoadPtr(mem, b.src + off), LoadPtr(m, b.off + off), to))
    && (forall i: nat :: i < b.size && Plain(sch, mem, b.target, b.src, i) ==>
          m[b.off + i] == Load(mem, b.src, b.size)[i])
  }

  /** Every object in m, the record first. */
  ghost predicate Delivered(sch: Schema, f: nat, mem: seq<byte>, root: nat, m: seq<byte>, at: nat, shift: int, objs: seq<Block>)
    requires ValidSchema(sch)
  {
    && |objs| > 0 && objs[0].src == root && objs[0].target == Record(f) && objs[0].off == at
    && forall k :: 0 <= k < |objs| ==> ObjectDelivered(sch, mem, m, shift, objs, objs[k])
  }

  // ----- bytes outside the places

  lemma PlainOutside(sch: Schema, mem: seq<byte>, b: Block, i: nat)
    requires ValidSchema(sch) && ValidTarget(sch, b.target) && Plain(sch, mem, b.target, b.src, i)
    ensures OutsideSlots(TargetSlots(sch, mem, b.src, b.target), b.off, b.off + i)
  {
    hide ValidSchema, ValidTarget, TargetSlots, ObjectAt, LoadPtr;
    var slots := TargetSlots(sch, mem, b.src, b.target);
    TargetSlotsPtrs(sch, mem, b.src, b.target);
    forall k | 0 <= k < |slots|
      ensures b.off + i < b.off + slots[k].rel || b.off + slots[k].rel + 8 <= b.off + i
    {
      assert IsSlot(mem, slots[k], b.src, 0, slots[k].rel, slots[k].target);
      ObjectPlaces(sch, mem, b.target, b.src, slots[k].rel, slots[k].target);
    }
  }

  /** The slot of a place. */
  lemma PlaceSlot(sch: Schema, mem: seq<byte>, t: Target, p: nat, off: int, to: Target) returns (i: nat)
    requires ValidSchema(sch) && ValidTarget(sch, t) && ObjectAt(sch, mem, t, p, off, to)
    ensures var slots := TargetSlots(sch, mem, p, t);
      i < |slots| && off >= 0 && slots[i].rel == off && slots[i].target == to && slots[i].ptr == LoadPtr(mem, p + off)
      && off + 8 <= TargetSize(sch, mem, p, t) && !to.Record?
  {
    hide ValidSchema, ValidTarget, TargetSlots, ObjectAt, LoadPtr, TargetSize;
    ObjectPlaces(sch, mem, t, p, off, to);
    TargetSlotsIn(sch, mem, p, t);
    var slots := TargetSlots(sch, mem, p, t);
    i :| 0 <= i < |slots| && IsSlot(mem, slots[i], p, 0, off, to);
  }

  lemma StringIs(mem: seq<byte>, p: nat, n: nat)
    requires IsString(mem, p, n)
    ensures StrLen(mem, p) == n
  {
    var l := StrLen(mem, p);
    if n < l { StringByte(mem, p, n); }
  }

  lemma StringByte(mem: seq<byte>, p: nat, i: nat)
    requires i < StrLen(mem, p)
    ensures p + i < |mem| && mem[p + i] != 0
  {
    assert NonZero(mem, p + i);
  }

  lemma StringLength(mem: seq<byte>, p: nat)
    ensures IsString(mem, p, StrLen(mem, p))
  {
    var n := StrLen(mem, p);
    forall i | p <= i < p + n
      ensures i < |mem| && mem[i] != 0
    {
      StringByte(mem, p, i - p);
    }
    if n > 0 { StringByte(mem, p, n - 1); }
  }

  // ----- in a message

  lemma WholeString(sch: Schema, mem: seq<byte>, m: seq<byte>, log: seq<Block>, delta: nat, b: Block)
    requires ValidSchema(sch) && BlockOk(sch, mem, m, log, delta, b) && b.target.CString?
    ensures b.off + b.size <= |m| && m[b.off..b.off + b.size] == Load(mem, b.src, b.size)
  {
    hide ValidSchema, SlotsSet, ValidTarget, Load;
    var slots := TargetSlots(sch, mem, b.src, b.target);
    assert slots == [];
    forall i | 0 <= i < b.size
      ensures m[b.off + i] == Load(mem, b.src, b.size)[i]
    {
      assert OutsideSlots(slots, b.off, b.off + i);
    }
  }

  /** A string the message holds is there in full. */
  lemma StringSent(sch: Schema, mem: seq<byte>, m: seq<byte>, log: seq<Block>, delta: nat, b: Block)
    requires ValidSchema(sch) && BlockOk(sch, mem, m, log, delta, b) && b.target.CString? && b.size == TargetSize(sch, mem, b.src, b.target)
    ensures forall n: nat :: IsString(mem, b.src, n) ==> CopiedTo(mem, b.src, n + 1, m, b.off)
  {
    hide ValidSchema, SlotsSet, ValidTarget;
    forall n: nat | IsString(mem, b.src, n)
      ensures CopiedTo(mem, b.src, n + 1, m, b.off)
    {
      StringIs(mem, b.src, n);
      WholeString(sch, mem, m, log, delta, b);
    }
  }

  /** What one pointer of the message became. */
  lemma PointerSent(sch: Schema, mem: seq<byte>, m: seq<byte>, log: seq<Block>, delta: nat, slot: Slot, loc: nat)
    requires ValidSchema(sch) && SlotSet(sch, mem, m, log, delta, slot, loc) && !slot.target.Record?
    requires BlocksOk(sch, mem, m, log, delta, 0)
    requires forall k :: 0 <= k < |log| ==> log[k].size == TargetSize(sch, mem, log[k].src, log[k].target)
    requires forall k :: 0 < k < |log| ==> log[k].off > delta
    ensures PlaceDelivered(sch, mem, m, delta, log, slot.ptr, LoadPtr(m, loc + slot.rel), slot.target)
  {
    hide ValidSchema, ValidTarget, BlockOk, LoadPtr, Size, StrLen, CopiedTo, IsString;
    if Leads(sch, mem, slot) {
      var k :| 0 < k < |log| && PointsTo(log[k], slot) && LoadPtr(m, loc + slot.rel) + delta == log[k].off;
      assert BlockOk(sch, mem, m, log, delta, log[k]);
      if slot.target.CString? { StringSent(sch, mem, m, log, delta, log[k]); }
    }
  }

  lemma ObjectSent(sch: Schema, mem: seq<byte>, m: seq<byte>, log: seq<Block>, delta: nat, b: Block)
    requires ValidSchema(sch) && BlockOk(sch, mem, m, log, delta, b) && b.size == TargetSize(sch, mem, b.src, b.target)
    requires BlocksOk(sch, mem, m, log, delta, 0)
    requires forall k :: 0 <= k < |log| ==> log[k].size == TargetSize(sch, mem, log[k].src, log[k].target)
    requires forall k :: 0 < k < |log| ==> log[k].off > delta
    ensures ObjectDelivered(sch, mem, m, delta, log, b)
  {
    hide ValidSchema, ValidTarget, BlocksOk, LoadPtr, TargetSlots, TargetSize, ObjectAt, PlaceDelivered, Plain, SlotSet, OutsideSlots, Load;
    forall off: int, to | ObjectAt(sch, mem, b.target, b.src, off, to)
      ensures 0 <= off && off + 8 <= b.size
        && PlaceDelivered(sch, mem, m, delta, log, LoadPtr(mem, b.src + off), LoadPtr(m, b.off + off), to)
    {
      var i := PlaceSlot(sch, mem, b.target, b.src, off, to);
      PointerSent(sch, mem, m, log, delta, TargetSlots(sch, mem, b.src, b.target)[i], b.off);
    }
    forall i: nat | i < b.size && Plain(sch, mem, b.target, b.src, i)
      ensures m[b.off + i] == Load(mem, b.src, b.size)[i]
    {
      PlainOutside(sch, mem, b, i);
    }
  }

  /** In the message of a record, all that any of its objects points to. */
  lemma PlacesSent(sch: Schema, f: nat, id: seq<byte>, mem: seq<byte>, root: nat, nodes: set<Node>, junk: byte, base: nat)
    requires Encodable(sch, f, id, mem, root, nodes, junk, base)
    ensures var r := Encode(sch, f, id, mem, root, true, junk); var h := HeaderSize(|id|, true);
      Delivered(sch, f, mem, root, r.buf, h, h, r.log)
  {
    hide ValidSchema, Encode, HeaderSize, Graph, BlockOk, TargetSize, ObjectDelivered;
    MessageBlocks(sch, f, id, mem, root, nodes, junk, base);
    var r := Encode(sch, f, id, mem, root, true, junk);
    LaterOffsets(sch, mem, root, nodes, r);
    forall k | 0 <= k < |r.log|
      ensures r.log[k].size == TargetSize(sch, mem, r.log[k].src, r.log[k].target)
    {
      BlockInside(sch, mem, root, nodes, r, k, r.delta);
    }
    forall k | 0 <= k < |r.log|
      ensures ObjectDelivered(sch, mem, r.buf, r.delta, r.log, r.log[k])
    {
      assert BlockOk(sch, mem, r.buf, r.log, r.delta, r.log[k]);
      ObjectSent(sch, mem, r.buf, r.log, r.delta, r.log[k]);
    }
  }

  // ----- in a decoded image

  lemma StringBack(sch: Schema, mem: seq<byte>, image: seq<byte>, base: nat, objs: seq<Block>, k: nat)
    requires ValidSchema(sch) && k < |objs| && Rebuilt(sch, mem, image, base, objs, k) && objs[k].target.CString?
    ensures forall n: nat :: IsString(mem, objs[k].src, n) ==> CopiedTo(mem, objs[k].src, n + 1, image, objs[k].off)
  {
    hide ValidSchema, ValidTarget, PointerRebuilt, Load, IsString;
    var b := objs[k];
    assert TargetSlots(sch, mem, b.src, b.target) == [];
    forall i | 0 <= i < b.size
      ensures image[b.off + i] == Load(mem, b.src, b.size)[i]
    {
      assert OutsideSlots([], b.off, b.off + i);
    }
    assert image[b.off..b.off + b.size] == Load(mem, b.src, b.size);
    forall n: nat | IsString(mem, b.src, n)
      ensures CopiedTo(mem, b.src, n + 1, image, b.off)
    {
      StringIs(mem, b.src, n);
    }
  }

  lemma PointerBack(sch: Schema, mem: seq<byte>, image: seq<byte>, base: nat, objs: seq<Block>, slot: Slot, loc: nat)
    requires ValidSchema(sch) && PointerRebuilt(sch, mem, image, base, objs, slot, loc) && !slot.target.Record?
    requires forall k :: 0 <= k < |objs| ==> Rebuilt(sch, mem, image, base, objs, k)
    requires forall k :: 0 < k < |objs| ==> objs[k].off > 0
    ensures PlaceDelivered(sch, mem, image, -(base as int), objs, slot.ptr, LoadPtr(image, loc + slot.rel), slot.target)
  {
    hide ValidSchema, ValidTarget, Rebuilt, LoadPtr, Size, StrLen, CopiedTo, IsString;
    if Leads(sch, mem, slot) {
      var k :| 0 < k < |objs| && PointsTo(objs[k], slot) && LoadPtr(image, loc + slot.rel) == base + objs[k].off;
      assert Rebuilt(sch, mem, image, base, objs, k);
      if slot.target.CString? { StringBack(sch, mem, image, base, objs, k); }
    }
  }

  lemma ObjectBack(sch: Schema, mem: seq<byte>, image: seq<byte>, base: nat, objs: seq<Block>, k: nat)
    requires ValidSchema(sch) && k < |objs|
    requires forall k :: 0 <= k < |objs| ==> Rebuilt(sch, mem, image, base, objs, k)
    requires forall k :: 0 < k < |objs| ==> objs[k].off > 0
    ensures ObjectDelivered(sch, mem, image, -(base as int), objs, objs[k])
  {
    hide ValidSchema, ValidTarget, LoadPtr, TargetSlots, TargetSize, ObjectAt, PlaceDelivered, Plain, PointerRebuilt, OutsideSlots, Load;
    var b := objs[k];
    assert Rebuilt(sch, mem, image, base, objs, k);
    forall off: int, to | ObjectAt(sch, mem, b.target, b.src, off, to)
      ensures 0 <= off && off + 8 <= b.size
        && PlaceDelivered(sch, mem, image, -(base as int), objs, LoadPtr(mem, b.src + off), LoadPtr(image, b.off + off), to)
    {
      var i := PlaceSlot(sch, mem, b.target, b.src, off, to);
      hide Rebuilt;
      PointerBack(sch, mem, image, base, objs, TargetSlots(sch, mem, b.src, b.target)[i], b.off);
    }
    forall i: nat | i < b.size && Plain(sch, mem, b.target, b.src, i)
      ensures image[b.off + i] == Load(mem, b.src, b.size)[i]
    {
      PlainOutside(sch, mem, b, i);
    }
  }

  /** In the image the decoder leaves, all that any object of the record points to. */
  lemma PlacesBack(sch: Schema, f: nat, mem: seq<byte>, root: nat, image: seq<byte>, base: nat, objs: seq<Block>)
    requires ValidSchema(sch) && SameGraph(sch, f, mem, root, image, base, objs)
    requires objs[0].size > 0
    ensures Delivered(sch, f, mem, root, image, objs[0].off, -(base as int), objs)
  {
    hide ValidSchema, Rebuilt, ObjectDelivered;
    forall k | 0 <= k < |objs|
      ensures ObjectDelivered(sch, mem, image, -(base as int), objs, objs[k])
    {
      ObjectBack(sch, mem, image, base, objs, k);
    }
  }
}
