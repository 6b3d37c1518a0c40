/** The gather vector and the contiguous buffer describe one message: same length, same
    bytes everywhere but in alignment padding. */
module Gather {
  import opened Bytes
  import opened Formats
  import opened ObjectGraph
  import opened EncodeSpec
  import opened EncodeFrame
  import opened EncodeReady
  import opened EncodeMeaning
  import opened RoundTrip

  function Len(v: Iov): nat {
    v.len
  }

  /** Bytes a vector covers. */
  function Total(iov: seq<Iov>): nat {
    if iov == [] then 0 else Total(iov[..|iov| - 1]) + Len(iov[|iov| - 1])
  }

  function Piece(mem: seq<byte>, buf: seq<byte>, v: Iov): (s: seq<byte>)
    ensures |s| == Len(v)
  {
    match v
    case Tmp(off, len) => Load(buf, off, len)
    case Pad(len) => Fill(len, 0)
    case User(addr, len) => Load(mem, addr, len)
  }

  /** What writing the vector out produces. */
  function Gathered(mem: seq<byte>, buf: seq<byte>, iov: seq<Iov>): (s: seq<byte>)
    ensures |s| == Total(iov)
  {
    if iov == [] then [] else Gathered(mem, buf, iov[..|iov| - 1]) + Piece(mem, buf, iov[|iov| - 1])
  }

  lemma TotalAppend(iov: seq<Iov>, v: Iov)
    ensures Total(iov + [v]) == Total(iov) + Len(v)
  {
    assert (iov + [v])[..|iov|] == iov;
  }

  /** Entry i of the vector contributes its piece at position Total(iov[..i]). */
  lemma {:induction false} GatheredAt(mem: seq<byte>, buf: seq<byte>, iov: seq<Iov>, i: nat)
    requires i < |iov|
    ensures Total(iov[..i]) + Len(iov[i]) <= Total(iov)
    ensures Gathered(mem, buf, iov)[Total(iov[..i])..Total(iov[..i]) + Len(iov[i])] == Piece(mem, buf, iov[i])
    decreases |iov|
  {
    hide Piece;
    var n := |iov| - 1;
    var g, x := Gathered(mem, buf, iov[..n]), Piece(mem, buf, iov[n]);
    if i < n {
      GatheredAt(mem, buf, iov[..n], i);
      assert iov[..n][..i] == iov[..i];
      InFront(g, x, Total(iov[..i]), Total(iov[..i]) + Len(iov[i]));
    } else {
      AtEnd(g, x);
    }
  }

  lemma InFront(g: seq<byte>, x: seq<byte>, lo: nat, hi: nat)
    requires lo <= hi <= |g|
    ensures (g + x)[lo..hi] == g[lo..hi]
  {
  }

  lemma AtEnd(g: seq<byte>, x: seq<byte>)
    ensures (g + x)[|g|..|g| + |x|] == x
  {
  }

  // ----- the joint state of both encoders

  /** One object in both messages. */
  ghost predicate SameBlock(c: Block, v: Block) {
    && c.src == v.src && c.off == v.off && c.size == v.size && c.target == v.target && c.tracked == v.tracked && c.copied
  }

  /** Entry i serves object b, at b's message offset. */
  ghost predicate Serves(iov: seq<Iov>, i: nat, b: Block) {
    && i < |iov| && Total(iov[..i]) == b.off
    && if b.copied then iov[i].Tmp? && iov[i].off == b.tmp && iov[i].len >= b.size
       else iov[i] == User(b.src, b.size)
  }

  ghost predicate Served(iov: seq<Iov>, b: Block) {
    b.size > 0 ==> exists i: nat :: Serves(iov, i, b)
  }

  /** The object's bytes agree: in the two buffers, or in the message and user memory. */
  ghost predicate SameBytes(mem: seq<byte>, cb: seq<byte>, vb: seq<byte>, b: Block) {
    && b.off + b.size <= |cb|
    && if b.copied then b.tmp + b.size <= |vb| && cb[b.off..b.off + b.size] == vb[b.tmp..b.tmp + b.size]
       else cb[b.off..b.off + b.size] == Load(mem, b.src, b.size)
  }

  ghost predicate Apart2(b1: Block, b2: Block) {
    b1.off + b1.size <= b2.off && (b1.copied && b2.copied ==> b1.tmp + b1.size <= b2.tmp)
  }

  ghost predicate InBuffer(iov: seq<Iov>, n: nat) {
    forall i :: 0 <= i < |iov| && iov[i].Tmp? ==> iov[i].off + iov[i].len <= n
  }

  ghost predicate Twins(mem: seq<byte>, c: EState, v: EState) {
    && Contiguous(c) && !v.copyAll
    && c.outLen == v.outLen && c.delta == v.delta && c.addrs == v.addrs && c.delta <= c.outLen
    && |c.log| == |v.log| && |v.iov| > 0 && Total(v.iov) == v.outLen && InBuffer(v.iov, |v.buf|)
    && v.iov[0].Tmp? && v.iov[0].off == 0 && v.iov[0].len >= v.delta
    && v.delta <= |v.buf| && v.buf[..v.delta] == c.buf[..c.delta]
    && (forall k :: 0 <= k < |v.log| ==>
          && SameBlock(c.log[k], v.log[k]) && Served(v.iov, v.log[k]) && SameBytes(mem, c.buf, v.buf, v.log[k])
          && v.delta <= v.log[k].off && (v.log[k].copied ==> v.delta <= v.log[k].tmp))
    && (forall k, l :: 0 <= k < l < |v.log| ==> Apart2(v.log[k], v.log[l]))
  }

  // ----- the vector only grows, at its end

  ghost predicate Grows(x: seq<Iov>, y: seq<Iov>) {
    && |x| <= |y|
    && forall i :: 0 <= i < |x| ==> Extends(x, y, i)
  }

  ghost predicate Extends(x: seq<Iov>, y: seq<Iov>, i: nat)
    requires i < |x| && i < |y|
  {
    && Total(y[..i]) == Total(x[..i])
    && (y[i] == x[i] || (x[i].Tmp? && y[i].Tmp? && y[i].off == x[i].off && y[i].len >= x[i].len))
  }

  lemma ServedStill(x: seq<Iov>, y: seq<Iov>, b: Block)
    requires Grows(x, y) && Served(x, b)
    ensures Served(y, b)
  {
    hide Total;
    if b.size > 0 {
      var i: nat :| Serves(x, i, b);
      assert Extends(x, y, i);
      assert Serves(y, i, b);
    }
  }

  lemma GrowsAppend(x: seq<Iov>, v: Iov)
    ensures Grows(x, x + [v])
  {
    forall i | 0 <= i < |x|
      ensures Extends(x, x + [v], i)
    {
      assert (x + [v])[..i] == x[..i];
    }
  }

  lemma GrowsLast(x: seq<Iov>, pad: nat)
    requires |x| > 0 && x[|x| - 1].Tmp?
    ensures var y := x[|x| - 1 := Tmp(x[|x| - 1].off, x[|x| - 1].len + pad)]; Grows(x, y) && Total(y) == Total(x) + pad
  {
    var y := x[|x| - 1 := Tmp(x[|x| - 1].off, x[|x| - 1].len + pad)];
    assert y[..|y| - 1] == x[..|x| - 1];
    forall i | 0 <= i < |x|
      ensures Extends(x, y, i)
    {
      assert y[..i] == x[..i];
    }
  }

  lemma GrowsTrans(x: seq<Iov>, y: seq<Iov>, z: seq<Iov>)
    requires Grows(x, y) && Grows(y, z)
    ensures Grows(x, z)
  {
    hide Total;
    forall i | 0 <= i < |x|
      ensures Extends(x, z, i)
    {
      assert Extends(x, y, i) && Extends(y, z, i);
    }
  }

  /** Making room in the temporary buffer keeps every entry in place and in bounds. */
  lemma AllocateGrows(v: EState, n: nat, align: nat)
    requires IsAlignment(align) && |v.iov| > 0 && Total(v.iov) == v.outLen && InBuffer(v.iov, |v.buf|)
    ensures var (r, off, at) := AllocateTmpSpace(v, n, align);
      && Grows(v.iov, r.iov) && Total(r.iov) == off == v.outLen + PadTo(align, v.outLen) && r.outLen == off + n
      && |v.buf| <= at && at + n <= |r.buf| && r.buf[..|v.buf|] == v.buf && InBuffer(r.iov, |r.buf|)
  {
    hide Total;
    var pad := PadTo(align, v.outLen);
    var last := v.iov[|v.iov| - 1];
    if pad != 0 {
      if last.Tmp? {
        GrowsLast(v.iov, pad);
      } else {
        GrowsAppend(v.iov, Pad(pad));
        TotalAppend(v.iov, Pad(pad));
      }
    } else {
      GrowsSelf(v.iov);
    }
  }

  lemma GrowsSelf(x: seq<Iov>)
    ensures Grows(x, x)
  {
  }

  /** What the vector encoder does with a new object, as far as the twins are concerned. */
  lemma PlaceGrows(sch: Schema, mem: seq<byte>, slot: Slot, v: EState)
    requires |v.iov| > 0 && Total(v.iov) == v.outLen && InBuffer(v.iov, |v.buf|)
    requires TargetSize(sch, mem, slot.ptr, slot.target) > 0
    ensures var r := Place(sch, mem, slot, v); var b := r.log[|v.log|];
      && Grows(v.iov, r.iov) && Total(r.iov) == r.outLen && InBuffer(r.iov, |r.buf|) && Served(r.iov, b)
  {
    hide TargetSize, TargetFlat, Total, AllocateTmpSpace;
    var n := TargetSize(sch, mem, slot.ptr, slot.target);
    var align := Alignment(slot.target);
    var r := Place(sch, mem, slot, v);
    var b := r.log[|v.log|];
    if InPlace(sch, slot.target, v.copyAll) {
      var pad := PadTo(align, v.outLen);
      var iov1 := if pad == 0 then v.iov else v.iov + [Pad(pad)];
      GrowsSelf(v.iov);
      GrowsAppend(v.iov, Pad(pad));
      TotalAppend(v.iov, Pad(pad));
      GrowsAppend(iov1, User(slot.ptr, n));
      TotalAppend(iov1, User(slot.ptr, n));
      GrowsTrans(v.iov, iov1, iov1 + [User(slot.ptr, n)]);
      assert (iov1 + [User(slot.ptr, n)])[..|iov1|] == iov1;
      assert Serves(r.iov, |iov1|, b);
    } else {
      AllocateGrows(v, n, align);
      var (v1, off, at) := AllocateTmpSpace(v, n, align);
      GrowsAppend(v1.iov, Tmp(at, n));
      TotalAppend(v1.iov, Tmp(at, n));
      GrowsTrans(v.iov, v1.iov, v1.iov + [Tmp(at, n)]);
      assert (v1.iov + [Tmp(at, n)])[..|v1.iov|] == v1.iov;
      assert Serves(r.iov, |v1.iov|, b);
    }
  }

  lemma PlaceTwins(sch: Schema, mem: seq<byte>, slot: Slot, c: EState, v: EState)
    requires Twins(mem, c, v) && TargetSize(sch, mem, slot.ptr, slot.target) > 0
    ensures Twins(mem, Place(sch, mem, slot, c), Place(sch, mem, slot, v))
  {
    hide TargetSize, TargetFlat, Total, AllocateTmpSpace, Place, Served, InBuffer, InPlace;
    PlaceShape(sch, mem, slot, c);
    PlaceShape(sch, mem, slot, v);
    PlaceContiguous(sch, mem, slot, c);
    PlaceGrows(sch, mem, slot, v);
    var c1 := Place(sch, mem, slot, c);
    var v1 := Place(sch, mem, slot, v);
    var n := |v.log|;
    assert Extends(v.iov, v1.iov, 0);
    assert v1.buf[..v.delta] == v1.buf[..|v.buf|][..v.delta];
    assert c1.buf[..c.delta] == c1.buf[..|c.buf|][..c.delta];
    forall k | 0 <= k < |v1.log|
      ensures SameBlock(c1.log[k], v1.log[k]) && Served(v1.iov, v1.log[k]) && SameBytes(mem, c1.buf, v1.buf, v1.log[k])
      ensures v1.delta <= v1.log[k].off && (v1.log[k].copied ==> v1.delta <= v1.log[k].tmp)
    {
      if k < n {
        assert v1.log[k] == v1.log[..n][k] && c1.log[k] == c1.log[..n][k];
        ServedStill(v.iov, v1.iov, v.log[k]);
        BytesStill(mem, c.buf, v.buf, c1.buf, v1.buf, v.log[k]);
      }
    }
    forall k, l | 0 <= k < l < |v1.log|
      ensures Apart2(v1.log[k], v1.log[l])
    {
      assert v1.log[k] == v1.log[..n][k];
      if l < n { assert v1.log[l] == v1.log[..n][l]; }
    }
  }

  lemma PrefixSlice(x: seq<byte>, y: seq<byte>, lo: nat, hi: nat)
    requires lo <= hi <= |y| <= |x| && x[..|y|] == y
    ensures x[lo..hi] == y[lo..hi]
  {
    forall i | lo <= i < hi
      ensures x[i] == y[i]
    {
      assert x[i] == x[..|y|][i];
    }
  }

  lemma BytesStill(mem: seq<byte>, c: seq<byte>, v: seq<byte>, c1: seq<byte>, v1: seq<byte>, b: Block)
    requires SameBytes(mem, c, v, b) && |c| <= |c1| && |v| <= |v1| && c1[..|c|] == c && v1[..|v|] == v
    ensures SameBytes(mem, c1, v1, b)
  {
    PrefixSlice(c1, c, b.off, b.off + b.size);
    if b.copied {
      PrefixSlice(v1, v, b.tmp, b.tmp + b.size);
    }
  }

  /** Patching a pointer of object m, in both buffers. */
  lemma PatchTwins(mem: seq<byte>, c: EState, v: EState, m: nat, rel: nat, x: nat)
    requires Twins(mem, c, v) && m < |v.log| && v.log[m].copied && rel + 8 <= v.log[m].size
    ensures Twins(mem, c.(buf := StorePtr(c.buf, v.log[m].off + rel, x)), v.(buf := StorePtr(v.buf, v.log[m].tmp + rel, x)))
  {
    hide Total, Served, InBuffer, ToLE, SameBytes;
    var b := v.log[m];
    var c1 := c.(buf := StorePtr(c.buf, b.off + rel, x));
    var v1 := v.(buf := StorePtr(v.buf, b.tmp + rel, x));
    assert SameBytes(mem, c.buf, v.buf, b);
    forall k | 0 <= k < |v.log|
      ensures SameBytes(mem, c1.buf, v1.buf, v.log[k])
    {
      assert k < m ==> Apart2(v.log[k], b);
      assert m < k ==> Apart2(b, v.log[k]);
      PatchBytes(mem, c.buf, v.buf, b, rel, x, v.log[k]);
    }
    assert v1.buf[..v.delta] == v.buf[..v.delta];
    assert c1.buf[..c.delta] == c.buf[..c.delta];
  }

  lemma PatchBytes(mem: seq<byte>, c: seq<byte>, v: seq<byte>, b: Block, rel: nat, x: nat, o: Block)
    requires SameBytes(mem, c, v, b) && SameBytes(mem, c, v, o) && b.copied && rel + 8 <= b.size
    requires o == b || Apart2(o, b) || Apart2(b, o)
    ensures SameBytes(mem, StorePtr(c, b.off + rel, x), StorePtr(v, b.tmp + rel, x), o)
  {
    hide StorePtr, ToLE;
    if o == b {
      PatchSelf(c, b.off, b.size, rel, x);
      PatchSelf(v, b.tmp, b.size, rel, x);
    } else {
      PatchOther(c, o.off, o.size, b.off + rel, x);
      if o.copied {
        PatchOther(v, o.tmp, o.size, b.tmp + rel, x);
      }
    }
  }

  /** The patched part of a buffer depends on that part only. */
  lemma PatchSelf(c: seq<byte>, at: nat, n: nat, rel: nat, x: nat)
    requires at + n <= |c| && rel + 8 <= n
    ensures at + n <= |StorePtr(c, at + rel, x)|
    ensures StorePtr(c, at + rel, x)[at..at + n] == c[at..at + n][..rel] + ToLE(x, 8) + c[at..at + n][rel + 8..]
  {
    hide ToLE;
    var c1 := StorePtr(c, at + rel, x);
    assert c1[at..at + rel] == c[at..at + n][..rel];
    assert c1[at + rel..at + rel + 8] == ToLE(x, 8);
    assert c1[at + rel + 8..at + n] == c[at..at + n][rel + 8..];
    assert c1[at..at + n] == c1[at..at + rel] + c1[at + rel..at + rel + 8] + c1[at + rel + 8..at + n];
  }

  lemma PatchOther(c: seq<byte>, at: nat, n: nat, p: nat, x: nat)
    requires at + n <= |c| && p + 8 <= |c| && (p + 8 <= at || at + n <= p)
    ensures at + n <= |StorePtr(c, p, x)| && StorePtr(c, p, x)[at..at + n] == c[at..at + n]
  {
    hide ToLE;
  }

  lemma FollowTwins(sch: Schema, mem: seq<byte>, slot: Slot, m: nat, c: EState, v: EState)
    requires Twins(mem, c, v) && TargetSize(sch, mem, slot.ptr, slot.target) > 0
    requires m < |v.log| && v.log[m].copied && slot.rel + 8 <= v.log[m].size
    ensures Twins(mem, Follow(sch, mem, slot, v.log[m].off, c), Follow(sch, mem, slot, v.log[m].tmp, v))
  {
    hide TargetSize, Place, Served, InBuffer, Total, StorePtr, SameBytes;
    PlaceTwins(sch, mem, slot, c, v);
    var c1, v1 := Place(sch, mem, slot, c), Place(sch, mem, slot, v);
    assert v1.log[m] == v1.log[..|v.log|][m];
    assert SameBlock(c1.log[|v.log|], v1.log[|v.log|]);
    PatchTwins(mem, c1, v1, m, slot.rel, v1.log[|v.log|].off - v.delta);
  }

  /** The two walks stay twins. */
  lemma {:induction false} EmitTwins(sch: Schema, mem: seq<byte>, slots: seq<Slot>, m: nat, c: EState, v: EState)
    requires ValidSchema(sch) && Twins(mem, c, v) && m < |v.log| && v.log[m].copied && SlotsIn(sch, slots, 0, v.log[m].size)
    requires v.delta <= v.outLen
    ensures Twins(mem, Emit(sch, mem, slots, v.log[m].off, c), Emit(sch, mem, slots, v.log[m].tmp, v))
    decreases Unseen(v.addrs), MaxRank(sch, slots), |slots| + 1
  {
    hide ValidSchema, Twins, MaxRank, TargetRank, Unseen, EmitSlot, ValidSlot;
    TwinsDelta(mem, c, v);
    if slots != [] {
      var rest := slots[1..];
      HeadRank(sch, slots);
      EmitSlotTwins(sch, mem, slots[0], m, c, v);
      var c1 := EmitSlot(sch, mem, slots[0], v.log[m].off, c);
      var v1 := EmitSlot(sch, mem, slots[0], v.log[m].tmp, v);
      UnseenMonotone(v.addrs, v1.addrs);
      assert v1.log[m] == v.log[m];
      EmitTwins(sch, mem, rest, m, c1, v1);
    }
  }

  lemma TwinsDelta(mem: seq<byte>, c: EState, v: EState)
    requires Twins(mem, c, v)
    ensures c.delta <= c.outLen && v.delta <= v.outLen && c.addrs == v.addrs && |c.log| == |v.log| && c.copyAll && !v.copyAll
    ensures forall k :: 0 <= k < |v.log| ==> SameBlock(c.log[k], v.log[k])
  {
    hide Served, SameBytes, InBuffer, Total;
  }

  lemma {:induction false} EmitSlotTwins(sch: Schema, mem: seq<byte>, slot: Slot, m: nat, c: EState, v: EState)
    requires ValidSchema(sch) && ValidSlot(sch, slot) && Twins(mem, c, v) && c.delta <= c.outLen && v.delta <= v.outLen
    requires m < |v.log| && v.log[m].copied && slot.rel + PointerSize <= v.log[m].size
    ensures Twins(mem, EmitSlot(sch, mem, slot, v.log[m].off, c), EmitSlot(sch, mem, slot, v.log[m].tmp, v))
    decreases Unseen(v.addrs), if Descends(slot) then TargetRank(sch, slot.target) + 1 else 0, 0
  {
    hide ValidSchema, Twins, MaxRank, TargetRank, Unseen, ValidSlot, Follow, Find, TargetSize, TargetSlots, TargetFlat, StorePtr, Emit, ValidSlots, Tracked, AddrSet;
    TwinsDelta(mem, c, v);
    match Decide(sch, mem, slot, v.addrs)
    case Leave =>
    case Reuse(o) => PatchTwins(mem, c, v, m, slot.rel, o);
    case Clear => PatchTwins(mem, c, v, m, slot.rel, 0);
    case New =>
      FollowTwins(sch, mem, slot, m, c, v);
      var c1 := Follow(sch, mem, slot, v.log[m].off, c);
      var v1 := Follow(sch, mem, slot, v.log[m].tmp, v);
      if !TargetFlat(sch, slot.target) {
        FlatOrData(sch, slot);
        var sub := TargetSlots(sch, mem, slot.ptr, slot.target);
        Descent(sch, mem, slot, v.log[m].tmp, v);
        Descent(sch, mem, slot, v.log[m].off, c);
        TargetSlotsIn(sch, mem, slot.ptr, slot.target);
        NewCopied(sch, mem, slot, m, c, v);
        TwinsDelta(mem, c1, v1);
        EmitTwins(sch, mem, sub, |v.log|, c1, v1);
      }
  }

  lemma NewCopied(sch: Schema, mem: seq<byte>, slot: Slot, m: nat, c: EState, v: EState)
    requires Twins(mem, c, v) && m < |v.log| && !TargetFlat(sch, slot.target) && TargetSize(sch, mem, slot.ptr, slot.target) > 0
    ensures var v1 := Follow(sch, mem, slot, v.log[m].tmp, v); var c1 := Follow(sch, mem, slot, v.log[m].off, c); var k := |v.log|;
      && v1.log[k].copied && v1.log[k].size == TargetSize(sch, mem, slot.ptr, slot.target)
      && c1.log[k].tmp == c1.log[k].off == v1.log[k].off
  {
    hide TargetSize, TargetFlat, Place, Total, Served, InBuffer, SameBytes;
    PlaceShape(sch, mem, slot, v);
    PlaceShape(sch, mem, slot, c);
    PlaceContiguous(sch, mem, slot, c);
  }

  // ----- the messages

  /** Both forms of the message, for any record: the vector covers exactly the length of the
      contiguous form, starts with the same header, and holds every object at the same
      place with the same bytes. What remains is padding. */
  ghost predicate SameMessage(mem: seq<byte>, c: EState, v: EState) {
    var g := Gathered(mem, v.buf, v.iov);
    && |g| == c.outLen == v.outLen && |c.buf| == c.outLen
    && c.delta == v.delta <= c.outLen && g[..c.delta] == c.buf[..c.delta]
    && |c.log| == |v.log|
    && (forall k :: 0 <= k < |c.log| ==> SameObject(g, c, v, k))
    && (forall k, l :: 0 <= k < l < |c.log| ==> c.log[k].off + c.log[k].size <= c.log[l].off)
  }

  ghost predicate SameObject(g: seq<byte>, c: EState, v: EState, k: nat)
    requires k < |c.log| && k < |v.log|
  {
    var b := c.log[k];
    && SameBlock(b, v.log[k]) && b.off + b.size <= |g| && b.off + b.size <= |c.buf|
    && g[b.off..b.off + b.size] == c.buf[b.off..b.off + b.size]
  }

  lemma TwinsGather(mem: seq<byte>, c: EState, v: EState)
    requires Twins(mem, c, v)
    ensures SameMessage(mem, c, v)
  {
    hide Total, Gathered, InBuffer, Served, SameBytes, Piece, SameBlock;
    var g := Gathered(mem, v.buf, v.iov);
    GatheredHead(mem, v);
    forall k | 0 <= k < |c.log|
      ensures SameObject(g, c, v, k)
    {
      BlockGathered(mem, c, v, k);
    }
    forall k, l | 0 <= k < l < |c.log|
      ensures c.log[k].off + c.log[k].size <= c.log[l].off
    {
      assert Apart2(v.log[k], v.log[l]);
      TwinsDelta(mem, c, v);
      assert SameBlock(c.log[k], v.log[k]) && SameBlock(c.log[l], v.log[l]);
      SameExtent(c.log[k], v.log[k]);
      SameExtent(c.log[l], v.log[l]);
    }
  }

  lemma SameExtent(b: Block, o: Block)
    requires SameBlock(b, o)
    ensures b.off == o.off && b.size == o.size
  {
  }

  lemma GatheredHead(mem: seq<byte>, v: EState)
    requires |v.iov| > 0 && v.iov[0].Tmp? && v.iov[0].off == 0 && v.delta <= v.iov[0].len && v.delta <= |v.buf|
    ensures v.delta <= Total(v.iov) && Gathered(mem, v.buf, v.iov)[..v.delta] == v.buf[..v.delta]
  {
    hide Total, Gathered;
    var g := Gathered(mem, v.buf, v.iov);
    GatheredAt(mem, v.buf, v.iov, 0);
    EmptyTotal(v.iov);
    HeadPiece(v.buf, v.iov[0].len, v.delta);
    assert g[..v.delta] == g[0..v.iov[0].len][..v.delta];
  }

  /** An object is in the gathered message, with the bytes the contiguous one has there. */
  lemma BlockGathered(mem: seq<byte>, c: EState, v: EState, k: nat)
    requires k < |v.log| == |c.log| && SameBlock(c.log[k], v.log[k]) && Served(v.iov, v.log[k])
    requires SameBytes(mem, c.buf, v.buf, v.log[k]) && |c.buf| == Total(v.iov)
    ensures SameObject(Gathered(mem, v.buf, v.iov), c, v, k)
  {
    hide Total, Gathered;
    var b := v.log[k];
    if b.size > 0 {
      var g := Gathered(mem, v.buf, v.iov);
      var i: nat :| Serves(v.iov, i, b);
      PieceGathered(mem, c.buf, v.buf, v.iov, i, b);
    }
  }

  lemma PieceGathered(mem: seq<byte>, cb: seq<byte>, vb: seq<byte>, iov: seq<Iov>, i: nat, b: Block)
    requires Serves(iov, i, b) && SameBytes(mem, cb, vb, b)
    ensures b.off + b.size <= Total(iov) && Gathered(mem, vb, iov)[b.off..b.off + b.size] == cb[b.off..b.off + b.size]
  {
    hide Total, Gathered;
    GatheredAt(mem, vb, iov, i);
    if b.copied {
      HeadOfPiece(vb, b.tmp, iov[i].len, b.size);
      var g := Gathered(mem, vb, iov);
      assert g[b.off..b.off + b.size] == g[b.off..b.off + iov[i].len][..b.size];
    }
  }

  lemma EmptyTotal(iov: seq<Iov>)
    ensures Total(iov[..0]) == 0
  {
  }

  lemma HeadPiece(buf: seq<byte>, n: nat, k: nat)
    requires k <= n && k <= |buf|
    ensures Load(buf, 0, n)[..k] == buf[..k]
  {
  }

  lemma HeadOfPiece(buf: seq<byte>, a: nat, n: nat, k: nat)
    requires k <= n && a + k <= |buf|
    ensures Load(buf, a, n)[..k] == buf[a..a + k]
  {
  }

  /** Both encoders start alike. */
  lemma StartTwins(sch: Schema, f: nat, id: seq<byte>, mem: seq<byte>, root: nat, junk: byte)
    requires f < |sch| && sch[f].variant
    ensures Twins(mem, AfterStart(sch, f, id, mem, root, true, junk), AfterStart(sch, f, id, mem, root, false, junk))
  {
    hide HeaderSize, Header, AllocateTmpSpace, AfterStart, Fill, PadTo;
    var c, v := AfterStart(sch, f, id, mem, root, true, junk), AfterStart(sch, f, id, mem, root, false, junk);
    StartShape(sch, f, id, mem, root, true, junk);
    StartShape(sch, f, id, mem, root, false, junk);
    StartVector(sch, f, id, mem, root, true, junk);
    StartVector(sch, f, id, mem, root, false, junk);
    StartContiguous(sch, f, id, mem, root, junk);
    var h, n := HeaderSize(|id|, true), sch[f].recordLength;
    assert c.buf == v.buf && c.iov == v.iov && c.log == v.log;
    StartTotal(v.iov, h, n, PadTo(8, h + n));
    PadAfterHeader(h, n);
    assert SameBytes(mem, c.buf, v.buf, v.log[0]);
    if n > 0 {
      assert v.iov[..1] == [v.iov[0]];
      assert Total([v.iov[0]]) == Total([]) + h;
      assert Serves(v.iov, 1, v.log[0]);
    }
  }

  lemma StartTotal(iov: seq<Iov>, h: nat, n: nat, pad: nat)
    requires iov == if n == 0 then [Tmp(0, h + pad)] else [Tmp(0, h), Tmp(h, n + pad)]
    ensures Total(iov) == h + n + pad
  {
    if n == 0 {
      TotalAppend([], Tmp(0, h + pad));
      assert iov == [] + [Tmp(0, h + pad)];
    } else {
      TotalAppend([], Tmp(0, h));
      TotalAppend([Tmp(0, h)], Tmp(h, n + pad));
      assert iov == [Tmp(0, h)] + [Tmp(h, n + pad)] && [Tmp(0, h)] == [] + [Tmp(0, h)];
    }
  }

  lemma StartVector(sch: Schema, f: nat, id: seq<byte>, mem: seq<byte>, root: nat, copyAll: bool, junk: byte)
    requires f < |sch| && sch[f].variant
    ensures var s := AfterStart(sch, f, id, mem, root, copyAll, junk); var h := HeaderSize(|id|, true); var n := sch[f].recordLength; var pad := PadTo(8, h + n);
      && s.copyAll == copyAll
      && s.iov == (if n == 0 then [Tmp(0, h + pad)] else [Tmp(0, h), Tmp(h, n + pad)])
      && s.buf == Header(id, true) + Load(mem, root, n) + Fill(pad, 0)
  {
    hide HeaderSize, Header, AfterBase, PadTo, CopyToTmp;
    BaseVector(sch, f, id, mem, root, copyAll, junk);
    BaseShape(sch, f, id, mem, root, copyAll, junk);
    var s1 := AfterBase(sch, f, id, mem, root, copyAll, junk);
    AlignEmpty(if sch[f].recursive then s1.(addrs := [Entry(root, s1.log[0].off)]) else s1);
  }

  lemma BaseVector(sch: Schema, f: nat, id: seq<byte>, mem: seq<byte>, root: nat, copyAll: bool, junk: byte)
    requires f < |sch| && sch[f].variant
    ensures var s := AfterBase(sch, f, id, mem, root, copyAll, junk); var h := HeaderSize(|id|, true); var n := sch[f].recordLength;
      && s.copyAll == copyAll
      && s.iov == (if n == 0 then [Tmp(0, h)] else [Tmp(0, h), Tmp(h, n)])
      && s.buf == Header(id, true) + Load(mem, root, n)
  {
    hide HeaderSize, Header;
  }

  /** A record without pointers is written as header and record, copied or left in place. */
  lemma BaseTwins(sch: Schema, f: nat, id: seq<byte>, mem: seq<byte>, root: nat, junk: byte)
    requires f < |sch| && !sch[f].variant
    ensures Twins(mem, AfterBase(sch, f, id, mem, root, true, junk), AfterBase(sch, f, id, mem, root, false, junk))
  {
    hide HeaderSize, Header;
    var c, v := AfterBase(sch, f, id, mem, root, true, junk), AfterBase(sch, f, id, mem, root, false, junk);
    BaseShape(sch, f, id, mem, root, true, junk);
    BaseShape(sch, f, id, mem, root, false, junk);
    var h, n := HeaderSize(|id|, false), sch[f].recordLength;
    TotalAppend([], Tmp(0, h));
    assert [Tmp(0, h)] == [] + [Tmp(0, h)];
    TotalAppend([Tmp(0, h)], User(root, n));
    if n > 0 {
      assert v.iov[..1] == [Tmp(0, h)];
      assert Serves(v.iov, 1, v.log[0]);
    }
    assert SameBytes(mem, c.buf, v.buf, v.log[0]);
  }

  /** Writing the record length into the header keeps the messages alike. */
  lemma LengthTwins(mem: seq<byte>, c: EState, v: EState, at: nat, data: seq<byte>)
    requires Twins(mem, c, v) && at + |data| <= c.delta
    ensures Twins(mem, c.(buf := Store(c.buf, at, data)), v.(buf := Store(v.buf, at, data)))
  {
    hide Total, Served, InBuffer;
    var c1, v1 := c.(buf := Store(c.buf, at, data)), v.(buf := Store(v.buf, at, data));
    forall k | 0 <= k < |v.log|
      ensures SameBytes(mem, c1.buf, v1.buf, v.log[k])
    {
      var b := v.log[k];
      assert SameBytes(mem, c.buf, v.buf, b);
      assert c1.buf[b.off..b.off + b.size] == c.buf[b.off..b.off + b.size];
      if b.copied {
        assert v1.buf[b.tmp..b.tmp + b.size] == v.buf[b.tmp..b.tmp + b.size];
      }
    }
    forall i | 0 <= i < c.delta
      ensures c1.buf[i] == v1.buf[i]
    {
      assert c.buf[..c.delta][i] == v.buf[..v.delta][i];
    }
  }

  // ----- what is not an object is padding

  /** The objects follow the header and each other: strings at once, everything else, and
      whatever comes first after the record, at the next multiple of 8. */
  ghost predicate Packed(s: EState) {
    && |s.log| > 0 && s.log[0].off == s.delta
    && (forall k :: 0 <= k < |s.log| ==> CloseTo(s.log, s.outLen, k))
    && (forall k :: 0 <= k && k + 1 < |s.log| ==> Follows(s.log, k))
    && ((|s.log| == 1 && s.outLen % 8 == 0) || s.outLen == s.log[|s.log| - 1].off + s.log[|s.log| - 1].size)
  }

  ghost predicate Follows(log: seq<Block>, k: nat)
    requires k + 1 < |log|
  {
    var end := log[k].off + log[k].size;
    log[k + 1].off == if k > 0 && log[k + 1].target.CString? then end else (end + 7) / 8 * 8
  }

  /** Something has been placed after the record, or the next place is a multiple of 8. */
  predicate Even(s: EState) {
    |s.log| > 1 || s.outLen % 8 == 0
  }

  /** Object k ends less than 8 bytes before the next one, or the message, does. */
  ghost predicate CloseTo(log: seq<Block>, outLen: nat, k: nat)
    requires k < |log|
  {
    var next := if k + 1 < |log| then log[k + 1].off else outLen;
    log[k].off + log[k].size <= next < log[k].off + log[k].size + 8
  }

  /** A new object starts at the next aligned place; a string, at the end. */
  lemma PlaceNext(sch: Schema, mem: seq<byte>, slot: Slot, s: EState)
    ensures var r := Place(sch, mem, slot, s); var b := r.log[|s.log|];
      && b.off == (if slot.target.CString? then s.outLen else (s.outLen + 7) / 8 * 8)
      && b.target == slot.target && r.outLen == b.off + b.size
  {
    hide TargetSize, TargetFlat;
  }

  lemma PlacePacked(sch: Schema, mem: seq<byte>, slot: Slot, s: EState)
    requires Packed(s) && Even(s)
    ensures Packed(Place(sch, mem, slot, s)) && Even(Place(sch, mem, slot, s))
  {
    hide TargetSize, TargetFlat;
    PlaceNext(sch, mem, slot, s);
    hide Place;
    var r := Place(sch, mem, slot, s);
    var n := |s.log|;
    assert CloseTo(s.log, s.outLen, n - 1);
    forall k | 0 <= k <= n
      ensures CloseTo(r.log, r.outLen, k)
    {
      if k < n {
        assert r.log[k] == s.log[k] && CloseTo(s.log, s.outLen, k);
      }
    }
    forall k | 0 <= k && k + 1 < |r.log|
      ensures Follows(r.log, k)
    {
      if k + 1 < n {
        assert r.log[k] == s.log[k] && r.log[k + 1] == s.log[k + 1] && Follows(s.log, k);
      } else {
        assert r.log[k] == s.log[k];
      }
    }
  }

  lemma {:induction false} EmitPacked(sch: Schema, mem: seq<byte>, slots: seq<Slot>, loc: nat, s: EState)
    requires ValidSchema(sch) && ValidSlots(sch, slots) && Packed(s) && Even(s) && s.delta <= s.outLen
    ensures Packed(Emit(sch, mem, slots, loc, s)) && Even(Emit(sch, mem, slots, loc, s))
    decreases Unseen(s.addrs), MaxRank(sch, slots), |slots| + 1
  {
    hide ValidSchema, Packed, Even, TargetRank, Unseen, EmitSlot, ValidSlot;
    if slots != [] {
      EmitSlotPacked(sch, mem, slots[0], loc, s);
      var s1 := EmitSlot(sch, mem, slots[0], loc, s);
      UnseenMonotone(s.addrs, s1.addrs);
      assert forall i :: 1 <= i < |slots| ==> slots[i] == slots[1..][i - 1];
      EmitPacked(sch, mem, slots[1..], loc, s1);
    }
  }

  lemma {:induction false} EmitSlotPacked(sch: Schema, mem: seq<byte>, slot: Slot, loc: nat, s: EState)
    requires ValidSchema(sch) && ValidSlot(sch, slot) && Packed(s) && Even(s) && s.delta <= s.outLen
    ensures Packed(EmitSlot(sch, mem, slot, loc, s)) && Even(EmitSlot(sch, mem, slot, loc, s))
    decreases Unseen(s.addrs), if Descends(slot) then TargetRank(sch, slot.target) + 1 else 0, 0
  {
    hide ValidSchema, Packed, Even, MaxRank, TargetRank, Unseen, ValidSlot, Follow, TargetSlots, TargetFlat, Emit, Decide, StorePtr, ValidSlots, Tracked;
    BufferPacked(s, StorePtr(s.buf, loc + slot.rel, 0));
    match Decide(sch, mem, slot, s.addrs)
    case Leave =>
    case Clear =>
    case Reuse(o) => BufferPacked(s, StorePtr(s.buf, loc + slot.rel, o));
    case New =>
      var s1 := Follow(sch, mem, slot, loc, s);
      FollowPacked(sch, mem, slot, loc, s);
      if !TargetFlat(sch, slot.target) {
        FlatOrData(sch, slot);
        Descent(sch, mem, slot, loc, s);
        EmitPacked(sch, mem, TargetSlots(sch, mem, slot.ptr, slot.target), s1.log[|s.log|].tmp, s1);
      }
  }

  lemma BufferPacked(s: EState, buf: seq<byte>)
    requires Packed(s)
    ensures Packed(s.(buf := buf)) && Even(s.(buf := buf)) == Even(s)
  {
  }

  lemma FollowPacked(sch: Schema, mem: seq<byte>, slot: Slot, loc: nat, s: EState)
    requires Packed(s) && Even(s) && s.delta <= s.outLen
    ensures Packed(Follow(sch, mem, slot, loc, s)) && Even(Follow(sch, mem, slot, loc, s))
  {
    hide Place, StorePtr;
    PlacePacked(sch, mem, slot, s);
  }

  lemma StartPacked(sch: Schema, f: nat, id: seq<byte>, mem: seq<byte>, root: nat, copyAll: bool, junk: byte)
    requires f < |sch|
    ensures !sch[f].variant ==> Packed(AfterBase(sch, f, id, mem, root, copyAll, junk))
    ensures sch[f].variant ==> Packed(AfterStart(sch, f, id, mem, root, copyAll, junk)) && Even(AfterStart(sch, f, id, mem, root, copyAll, junk))
  {
    hide AfterBase, AfterStart, HeaderSize, Header;
    if sch[f].variant {
      StartShape(sch, f, id, mem, root, copyAll, junk);
    } else {
      BaseShape(sch, f, id, mem, root, copyAll, junk);
    }
  }

  /** Main result. For every format, memory and root: writing the gather vector produces a
      message as long as the contiguous one, with the same header and the same bytes in every
      object; in both, header and objects follow each other, a string at once and anything else
      at the next multiple of 8, so all that may differ is alignment padding. */
  lemma VectorRefines(sch: Schema, f: nat, id: seq<byte>, mem: seq<byte>, root: nat, junk: byte)
    requires ValidSchema(sch) && f < |sch|
    ensures SameMessage(mem, Encode(sch, f, id, mem, root, true, junk), Encode(sch, f, id, mem, root, false, junk))
    ensures Packed(Encode(sch, f, id, mem, root, true, junk))
  {
    hide ValidSchema, Twins, Packed, SameMessage, AfterStart, AfterBase, Emit, HeaderSize, TargetSlots, ValidSlots, Store, ToLE, SlotsIn;
    var c, v := Encode(sch, f, id, mem, root, true, junk), Encode(sch, f, id, mem, root, false, junk);
    StartPacked(sch, f, id, mem, root, true, junk);
    if sch[f].variant {
      StartTwins(sch, f, id, mem, root, junk);
      RunTwins(sch, f, id, mem, root, junk);
    } else {
      BaseTwins(sch, f, id, mem, root, junk);
    }
    TwinsGather(mem, c, v);
  }

  lemma RunTwins(sch: Schema, f: nat, id: seq<byte>, mem: seq<byte>, root: nat, junk: byte)
    requires ValidSchema(sch) && f < |sch| && sch[f].variant
    ensures Twins(mem, Encode(sch, f, id, mem, root, true, junk), Encode(sch, f, id, mem, root, false, junk))
    ensures Packed(Encode(sch, f, id, mem, root, true, junk))
  {
    hide ValidSchema, Twins, Packed, AfterStart, AfterBase, Emit, HeaderSize, Header, TargetSlots, ValidSlots, Store, ToLE, SlotsIn;
    StartTwins(sch, f, id, mem, root, junk);
    StartPacked(sch, f, id, mem, root, true, junk);
    StartShape(sch, f, id, mem, root, true, junk);
    StartShape(sch, f, id, mem, root, false, junk);
    var c, v := AfterStart(sch, f, id, mem, root, true, junk), AfterStart(sch, f, id, mem, root, false, junk);
    var slots := TargetSlots(sch, mem, root, Record(f));
    TargetSlotsIn(sch, mem, root, Record(f));
    FieldSlotsIn(sch, mem, f, 0, root, 0);
    TwinsDelta(mem, c, v);
    EmitTwins(sch, mem, slots, 0, c, v);
    EmitPacked(sch, mem, slots, c.log[0].tmp, c);
    var c1, v1 := Emit(sch, mem, slots, c.log[0].tmp, c), Emit(sch, mem, slots, v.log[0].tmp, v);
    SameLength(mem, c1, v1);
    LengthTwins(mem, c1, v1, |id|, ToLE(c1.outLen - c1.delta, 8));
    BufferPacked(c1, Store(c1.buf, |id|, ToLE(c1.outLen - c1.delta, 8)));
  }

  lemma SameLength(mem: seq<byte>, c: EState, v: EState)
    requires Twins(mem, c, v)
    ensures c.outLen == v.outLen && c.delta == v.delta
  {
    hide Total, Served, SameBytes, InBuffer;
  }
}
