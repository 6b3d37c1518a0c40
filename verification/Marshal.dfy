/** Encoder and decoder together. */
module Marshal {
  import opened Bytes
  import opened Formats
  import opened ObjectGraph
  import opened EncodeSpec
  import opened EncodeMeaning
  import opened DecodeSpec
  import opened RoundTrip
  import opened ControlRange
  import opened FieldDelivery
  import E = Encoder
  import D = Decoder

  /** Encode a record and decode it in place, on a host with the sender's layout: the graph
      comes back, sharing and cycles included. Control fields must hold counts in the signed
      range of their size, since the encoder reads them unsigned and the decoder signed. */
  method EncodeDecode(sch: Schema, f: nat, id: seq<byte>, mem: seq<byte>, root: nat, junk: byte, base: nat, ghost nodes: set<Node>)
    returns (image: seq<byte>, ghost objs: seq<Block>)
    requires Encodable(sch, f, id, mem, root, nodes, junk, base) && D.StridesOk(sch)
    requires forall n :: n in nodes ==> TargetFits(sch, mem, n.0, n.1)
    ensures SameGraph(sch, f, mem, root, image, base, objs)
    ensures objs == Encode(sch, f, id, mem, root, true, junk).log
    ensures |objs| > 0 && objs[0].off == HeaderSize(|id|, true)
    ensures var log := Encode(sch, f, id, mem, root, true, junk).log;
      && RecordDelivered(sch, f, mem, root, image, HeaderSize(|id|, true), -(base as int), log)
      && AllDelivered(sch, mem, image, -(base as int), log)
  {
    hide ValidSchema, Encode, SameGraph, HeaderSize, TargetFits, D.StridesOk, EncodeMeaning.Graph, RecordDelivered, AllDelivered;
    var msg, _ := E.FFSencode(sch, f, id, mem, root, junk);
    objs := Encode(sch, f, id, mem, root, true, junk).log;
    EncodedLayout(sch, f, id, mem, root, nodes, junk, base);
    DecodeEncode(sch, f, id, mem, root, nodes, junk, base);
    MessageBlocks(sch, f, id, mem, root, nodes, junk, base);
    forall k | 0 <= k < |objs|
      ensures TargetFits(sch, msg, objs[k].off, objs[k].target)
    {
      ImageFits(sch, f, id, mem, root, nodes, junk, base, k);
    }
    image := D.FFSdecodeInPlace(sch, f, Message(msg, HeaderSize(|id|, true), base), objs);
    RecordBack(sch, f, mem, root, image, base, objs);
  }

  lemma ImageFits(sch: Schema, f: nat, id: seq<byte>, mem: seq<byte>, root: nat, nodes: set<Node>, junk: byte, base: nat, k: nat)
    requires Encodable(sch, f, id, mem, root, nodes, junk, base)
    requires k < |Encode(sch, f, id, mem, root, true, junk).log| && forall n :: n in nodes ==> TargetFits(sch, mem, n.0, n.1)
    ensures var r := Encode(sch, f, id, mem, root, true, junk); TargetFits(sch, r.buf, r.log[k].off, r.log[k].target)
  {
    hide ValidSchema, Encode, HeaderSize, TargetFits, EncodeMeaning.Graph, KeptOutside, TargetSlots, TargetSize, BlockOk;
    MessageBlocks(sch, f, id, mem, root, nodes, junk, base);
    var r := Encode(sch, f, id, mem, root, true, junk);
    var b := r.log[k];
    assert EncodeMeaning.BlockShape(sch, mem, r, k, nodes) && (b.src, b.target) in nodes;
    assert BlockOk(sch, mem, r.buf, r.log, r.delta, b);
    BlockKept(sch, mem, r.buf, r.log, r.delta, b);
    TargetFitsKept(sch, r.buf, b.off, mem, b.src, b.target);
  }

  /** The decoder reads a control value as the encoder did exactly when it is below half the
      range of its 1, 2 or 4 byte field. */
  lemma SignedCountAgrees(size: nat, v: nat)
    requires size in {1, 2, 4, 8} && v < Pow256(size)
    ensures SignExtended(size, v) == v <==> size == 8 || 2 * v < Pow256(size)
  {
    Pow64Is();
    assert Pow256(4) == 0x1_0000_0000 && Pow256(2) == 0x1_0000 && Pow256(1) == 0x100;
  }
}
