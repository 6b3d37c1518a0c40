# FFS, verified

A Dafny model of the FFS binary marshalling library, with proofs of what it promises: records
with pointers survive encoding and decoding, generated COD code does what the source says,
transposed arrays can be transposed back, format descriptions and indexed files are read back
as they were written, structs are laid out, hashed and matched as documented.

`dafny verify dfyconfig.toml` checks everything (Dafny 4.11). The host modelled is a 64-bit
little-endian one with growable buffers; integer widths and wrap-around are written out where
they matter.

## The parts

**Encoder and decoder** (`Bytes`, `Formats`, `ObjectGraph`, `EncodeSpec`, `EncodeFrame`,
`EncodeReady`, `EncodeMeaning`, `Encoder`, `DecodeSpec`, `DecodeFrame`, `Lockstep`, `RoundTrip`,
`ControlRange`, `Decoder`, `Marshal`, `SharedGraph`, `Gather`, `Places`, `Delivery`,
`FieldDelivery`, `LeftInPlace`, `SampleMessage`).
Memory is a byte sequence; a schema gives formats with fields, pointers, strings, static and
variable arrays. `ObjectGraph` lists the pointers ("slots") inside a value; what a pointer leads
to is its type with the dimensions worked out, whatever record holds it. `EncodeSpec.Emit` is
the encoder's walk as a function on its state (output length, buffer, gather vector, address
list), with a log of the blocks placed; the class `Encoder` does the same on bytes, with the
source's recursion over fields and type descriptors, and is proved equal to it. The walk ends on
every memory, cycles included: following a pointer either records a new address or descends in
the type graph. `EncodeMeaning` says what a finished message contains, `DecodeSpec.Conv` what the
decoder does to it, `Lockstep` runs both walks side by side (the decoder's "offset not above the
last one entered" test holds exactly for objects met before), and `RoundTrip.DecodeEncode` puts
it together: the decoded image holds a graph isomorphic to the one encoded. `ControlRange` says
when the decoder's signed reading of control values does not matter, and `SharedGraph` shows the
theorem at work on a ring of nodes with any values and an array that records of two formats
share. `Gather` runs the
contiguous and the gather-vector encoder side by side. `Places` says of the types alone where in
a value strings and pointers lie, `Delivery` that in message and image all of these places lead to
what they led to in memory and nothing else changed, `FieldDelivery` what that means for each kind
of field, byte by byte; `LeftInPlace` says what the vector does not copy, and `SampleMessage` is one
message in full.

**Conversion** (`Planner`, `FieldConvert`, `PlanMeaning`, `ConvertBytes`, `Resize`, `Revisit`,
`EncodedVisits`, `SharedResize`, `Transpose`).
`Planner` sorts the target's fields and runs the loop that settles how a record has to be converted, `FieldConvert` converts
integers byte by byte, in place or into another buffer, `PlanMeaning` joins the two (what a plan
leaves out needs no change), `ConvertBytes` gives every byte of the result, `Resize` is the placement of dynamic
blocks when element sizes change, `Revisit` the addresses given to blocks met again,
`EncodedVisits` joins it to the encoder (what it meets in an encoded message is in the order it
relies on), `SharedResize` follows one shared array through it, `Transpose` is the odometer loop
between row-major and column-major arrays of any number of dimensions.

**COD code generator** (`CodSource`, `CodMachine`, `CodGen`, `CodCorrect`, `CodRuns`, `CodSteady`,
`CodProgram`, `CodEmit`, `CodValues`, `CodLoops`).
`CodSource` has the statements and expressions over int locals and two meanings: the *promised*
one of C, left to right, and the *emitted* one, which has the two departures the generator really
has (the left operand of an operator that is a local is read after the right operand ran, and a
`>=` at the top of a do-while test is taken as `>`). `CodMachine` is a register machine for the
emitted instructions. `CodGen` is the translation as a function, the class `CodEmit.Stream` the
generator itself, which appends to a stream and allocates registers and labels. The code is
proved to realise the emitted meaning for every program. `CodSteady` says exactly when the two
meanings show every operator the same operands and turn every do loop the same way, run by run;
then the code does what was promised. For each departure there is a program on which it does not.
`CodValues` says in numbers and bits what the operators compute and what the code of small functions
returns, `CodLoops` the same for the statements.

**Formats** (`ByteOrder`, `Wire`, `WireCode`, `KnownFormat`, `Layout`, `Variant`, `Topology`).
`Wire` is the byte-level printed form of a format and its parser as functions, `WireCode` the
buffer-filling and parsing loops, `KnownFormat` the position of every item in the printed bytes. `Layout` is the layout of structs by repeated rounds, `Variant`
the propagation of the variable-length flag, `Topology` the order of subformats and the alignment
sweep that relies on it.

**Files** (`Framing`, `IndexBlock`, `FileLayout`, `FileWriter`, `FileReader`, `FileRun`, `KnownFile`).
Record headers, index blocks with their items, the shape of a file written and closed, the class
`FFSFile` that writes it, the class `IndexedReader` that seeks in it, any sequence of write
requests followed by reading, and the bytes of records, index items and one file.

**Hash and matching** (`Words`, `Lookup3`, `KnownHashes`, `Evol`, `KnownMatches`).
32-bit words and their bits, the three load widths of lookup3 and the word hash, and its values for
three keys; the merge of two field lists in name order, the comparison of formats, the choice of the
closest one, and the same by plain search and in numbers.

## Where the code departs from the obvious reading

- The root record's offset is recorded counted from the header while later ones are counted from
  the data, so a tracked pointer back to the root decodes to a place behind it
  (`RoundTrip.RootPointerShifted`); the round trip excludes such pointers.
- The encoder reads control values unsigned, the decoder signed: they agree exactly below half of
  the field's range (`Marshal.SignedCountAgrees`).
- An operator gets the operands promised exactly when its right operand leaves the local that its
  left operand sits in with the value it had (`CodSteady.OperandExact`, `CodSteady.OpAssignExact`,
  and for whole expressions `CodSteady.SteadyExact`): the code of `x + (x = b)` does not
  (`CodProgram.LateOperand`).
- A do loop turns as its test says exactly when the test does not compare equal operands by a
  top-level `>=` (`CodSteady.BackEdgeExact`, `CodProgram.DoTestExact`, `CodProgram.LateExit`).
- A byte-reversed format keeps the writing host's order for its float kind
  (`Wire.ReversedFloat`), and its optional info trips an assertion unless the lengths of the
  blocks, as stored byte-reversed and rounded up, add up to as much as the lengths themselves
  (`WireCode.ReversedCursor`); below 128 bytes that means every block is empty
  (`WireCode.ShortBlocks`).
- The index-block parser steps over an item by the same distance as the writer exactly when the
  lengths are multiples of 4 (`IndexBlock.StepsAgree`); it reads a data item's format ID 4 bytes
  early, which gives the ID exactly when the ID is its own length over and over
  (`IndexBlock.ParsedIdExact`).
- A pointer met again in a size-changing conversion gets the address of its block exactly when
  the growths and paddings since the block add up to more than -8 and at most 0
  (`Revisit.RevisitExact`). With offsets that are multiples of 8 only the growths count
  (`Revisit.RevisitBySchema`), and when nothing shrinks the address is right exactly when nothing
  grew either (`Revisit.RevisitWhenGrowing`). An array that a list and a node of a ring share comes
  apart whenever its elements grow (`SharedResize.RingResized`, `SharedResize.RingSplits`). A
  single struct that grows is not counted (`Resize.SingleExact`).
- A size-changing conversion follows the pointers of a record in the order of the target's fields
  and converts everything exactly when each pointer leads further into the message than those
  before (`Resize.AllConverted`): of two pointer fields that lie the other way round in the target,
  what one leads to is passed over (`Resize.PassedOver`).
- With arrays to transpose the planner's answer depends on where the fields lie in the target: the
  lowest field that triggers a restart decides, unless a dynamic part changes size
  (`Planner.LayoutExact`, `Planner.LayoutMatters`). The order in which the caller lists them does not
  matter (`Planner.OrderFree`).
- The alignment sweep trips its assertion exactly when a listed format holds, by value, one that
  is not later in the list (`Topology.SweepAlignments`); without cycles it never does
  (`Topology.AcyclicHeldLater`), with them it can (`Topology.CycleTrips`).

## Model

| member | source | states |
|---|---|---|
| EncodeSpec.Descent | ffs/ffs.c:585-651 | following a pointer uses up an unseen address of the memory, or, untracked, leads to pointers of lower rank in the type graph: the measure that ends the encoder on every heap |
| EncodeSpec.Emit | ffs/ffs.c:486-710 | the walk ends for every memory; addresses and blocks once recorded are never dropped or changed, the header base and the data before it stay |
| EncodeSpec.HeaderSize | ffs/ffs.c:51-78 | the header is a multiple of 8 and has room for the ID and, with pointers, the record length |
| ObjectGraph.TargetSlotsIn | ffs/ffs.c:486-710 | every pointer inside an object lies within its bytes, for every type, count and nesting |
| ObjectGraph.AimShared | ffs/ffs.c:585-651 | two tracked pointers, from records of any formats and with any values in other fields, have one target if and only if their types agree once the dimensions are worked out |
| EncodeMeaning.EmitMeaning | ffs/ffs.c:556-710 | the walk leaves every reachable object in the message once, copied, with each pointer set to 0 or the offset of the object it leads to; everything else is untouched |
| EncodeMeaning.FollowInv | ffs/ffs.c:585-651 | placing one more object keeps the log of disjoint, increasing, aligned blocks and the address list in step |
| Encoder.Encoder.EnsureWritevRoom | ffs/ffs.c:84-111 | after the call the gather vector has room for the entries asked for |
| Encoder.Encoder.AllocateTmpSpace | ffs/ffs.c:130-160 | padding extends the last buffer entry or adds a zero entry, and message offset and buffer place come out as specified |
| Encoder.Encoder.AddDataIovec | ffs/ffs.c:196-223 | user data left in place gets an entry of its own, after padding |
| Encoder.Encoder.SearchAddrList | ffs/ffs.c:382-393 | the offset recorded for an address, the last one if there are several, or -1 |
| Encoder.Encoder.DetermineSize | ffs/ffs.c:521-554 | the bytes of a value of any type, all its dimensions multiplied, controls read from the copied record |
| Encoder.Encoder.HandleSubfields | ffs/ffs.c:486-502 | following the fields of a record on bytes is the walk over the record's pointers, in order |
| Encoder.Encoder.HandleSubfield | ffs/ffs.c:556-710 | so is following one value of any type: strings, pointers, static and variable arrays, nested records |
| Encoder.Encoder.EncodeRecord | ffs/ffs.c:238-304 | header, base record, dynamic part and length give exactly the specified message state |
| Encoder.Encoder.FixupOutputVector | ffs/ffs.c:318-354 | the vector handed out is 16-aligned, has three spare entries before it and one after, and leaves the data alone |
| Encoder.FFSencode | ffs/ffs.c:238-310 | the contiguous message and its length |
| Encoder.FFSencodeVector | ffs/ffs.c:404-460 | the gather vector, its buffer extended only behind the data |
| Gather.GatheredAt | ffs/ffs.c:404-460 | entry i of a vector contributes its bytes at the sum of the lengths before it |
| Gather.EmitTwins | ffs/ffs.c:130-223 | the two encoders stay in step over the whole walk: same length, same blocks, vector lengths summing to the output length, equal bytes in every object |
| Gather.LengthTwins | ffs/ffs.c:238-304 | writing the record length keeps them in step |
| Gather.BaseTwins | ffs/ffs.c:238-304 | so does a record without pointers, left in place by one and copied by the other |
| Gather.EmitPacked | ffs/ffs.c:130-160 | each object follows the one before it at once if it is a string, else at the next multiple of 8, where the first one after the record comes too: nothing else is in the message |
| Gather.VectorRefines | ffs/ffs.c:404-460 | for every format, memory and root the gathered message has the contiguous one's length, its header, and its bytes in every object |
| Lockstep.CurBelowEnd | ffs/ffs_conv.c:1366-1394 | the next object placed lies beyond every offset the decoder has entered |
| Lockstep.ReuseBelowCur | ffs/ffs_conv.c:1366-1394 | the offset stored for an object met before is not above the last one entered, nor 0 |
| Lockstep.WalkTogether | ffs/ffs_conv.c:1366-1517 | wherever the encoder's walk is in the finished message, the decoder's walk visits the same objects in the same order and converts each once |
| DecodeSpec.TargetShape | ffs/ffs_conv.c:1366-1517 | an object's image in the message has its pointers in the same places, to targets of the same type and extent |
| RoundTrip.MessageBlocks | ffs/ffs.c:238-304 | each object of the finished message holds the source bytes with its pointers replaced by offsets |
| RoundTrip.DecodeEncode | ffs/ffs_conv.c:1366-1589 | encoding a finite graph, shared and cyclic pointers included, and decoding it rebuilds an isomorphic graph |
| RoundTrip.RootPointerShifted | ffs/ffs.c:281 | a tracked pointer to the root decodes to the root's address plus the header length |
| SharedGraph.RingEncodable | ffs/ffs.c:585-651 | a ring of two nodes with whatever values in their fields, and an array shared by nodes and a record of another format, meet everything the round trip asks for |
| SharedGraph.SampleIs | ffs/ffs.c:585-651 | there are memories with such a ring, for any two values |
| Decoder.Decoder.ConvertAddressField | ffs/ffs_conv.c:1264-1294 | an offset becomes the address it stands for, 0 stays 0, and nothing shifts between equal layouts |
| Decoder.Decoder.ConvertField | ffs/ffs_conv.c:1366-1517 | converting one value of any type in place is the decoder's walk over its pointers |
| Decoder.Decoder.ConvertRecord | ffs/ffs_conv.c:1519-1589 | so is converting a record, field by field |
| Decoder.FFSdecodeInPlace | ffs/ffs.c:1319-1463 | decoding in place yields the image of the decoder's walk from the base record |
| ControlRange.TargetFitsKept | ffs/ffs.c:505-554 | an object whose control values read the same signed and unsigned has such an image in the message, for every type and nesting |
| Marshal.EncodeDecode | ffs/ffs.c:1445-1463 | encoding a record and decoding the bytes gives the graph back, its objects being those the encoder placed; in the image the record and everything behind it are delivered, in the sense of the `FieldDelivery` rows |
| Places.ObjectPlaces | ffs/ffs.c:556-710 | for every object, the walk finds a string or pointer at an offset, leading to a target, if and only if the relation on types, with control values and array strides worked out, says there is one |
| Delivery.StringLength | ffs/ffs.c:652-663 | every address has a string: bytes that are not zero up to a zero byte or the end of memory |
| Delivery.PlacesSent | ffs/ffs.c:556-710 | in every object of the message each such place holds 0 for NULL or an empty array, else leads to the bytes of the string up to its zero byte, or to the object of that address and type; every byte outside these places is memory's |
| Delivery.PlacesBack | ffs/ffs_conv.c:1366-1589 | so in the decoded image, with addresses for offsets |
| FieldDelivery.RecordSent | ffs/ffs.c:238-304 | the message delivers the record at the end of the header, and everything behind it |
| FieldDelivery.RecordBack | ffs/ffs_conv.c:1519-1589 | the decoded image delivers it at the place of the base record |
| FieldDelivery.HeaderSent | ffs/ffs.c:51-78 | a message begins with the ID, the length of all behind the header in 8 bytes and zeroes up to the next multiple of 8 |
| FieldDelivery.TextRoundTrip | ffs/ffs.c:652-673 | for every string field, at p in memory and n bytes long, message and image lead to the n + 1 bytes at p; NULL comes back as NULL |
| FieldDelivery.TextField | ffs/ffs.c:652-673 | a string field of any record delivered leads to the bytes of its string |
| FieldDelivery.TextArray | ffs/ffs.c:652-701 | so does each element of an array of strings, 8 bytes apart |
| FieldDelivery.TextTable | ffs/ffs.c:652-701 | and of a table of strings, row after row |
| FieldDelivery.PlainField | ffs/ffs.c:238-304 | a field that is no string, pointer or record has the bytes it had in memory |
| FieldDelivery.PlainArray | ffs/ffs.c:238-304 | an array of them has, too |
| FieldDelivery.RecordOfArray | ffs/ffs.c:673-707 | every record held by value in a delivered record is delivered |
| FieldDelivery.RecordBehind | ffs/ffs.c:585-651 | a pointer to a record leads to the record delivered, and is 0 if and only if it was NULL, unless the record has no bytes |
| FieldDelivery.CountedData | ffs/ffs.c:505-651 | a pointer to as many elements as a control field of 1, 2, 4 or 8 bytes says leads to their bytes; it is 0 for NULL and for none |
| FieldDelivery.CountedTexts | ffs/ffs.c:505-673 | a pointer to so many strings leads to pointers that lead to the strings |
| FieldDelivery.CountedRecords | ffs/ffs.c:505-651 | a pointer to so many records leads to each of them delivered |
| FieldDelivery.CountIs | ffs/ffs.c:505-519 | a control value is the number its bytes hold, least significant first |
| FieldDelivery.PointerIs | ffs/ffs.c:652-673 | so is a pointer, in 8 bytes |
| LeftInPlace.PlainLeft | ffs/ffs.c:585-673 | strings and plain data are in the gather vector where they lie in user memory, not copied |
| LeftInPlace.HoldersCopied | ffs/ffs.c:585-651 | an object that holds a string or pointer is copied |
| LeftInPlace.FlatRecord | ffs/ffs.c:238-304 | a record without pointers: ID, zeroes and record in the message, header and the record itself in the vector |
| SampleMessage.KnownMessage | ffs/ffs.c:238-310 | the 63 bytes of one message with a counted array and a string |
| Marshal.SignedCountAgrees | ffs/ffs.c:505-554 | the decoder reads a control value as the encoder did if and only if it is below half of its field's range |
| Planner.Decide | ffs/ffs_conv.c:284-548 | a restart raises the class, and a field that converts never lowers it |
| Planner.CreateConversion | ffs/ffs_conv.c:206-574 | the target's fields are sorted by offset and the restart loop ends with a plan that is sound for all of them, of exactly the class `Final` works out from the sorted fields without restarting; a source record longer than the target gets a buffer at least |
| PlanMeaning.PlanExact | ffs/ffs_conv.c:253-548 | a plan for converting in place keeps exactly the fields that differ in elements, type, size, byte order, float format or layout, or hold pointers; any other plan keeps all |
| PlanMeaning.LeftOutSame | ffs/ffs_conv.c:377-396 | a field left out, records by value aside, lies at one offset, is its own conversion byte for byte, holds no pointer, has one float format and nothing to transpose |
| PlanMeaning.PlanMade | ffs/ffs_conv.c:284-548 | a plan is made if and only if every field asked for is there with its elements and type |
| PlanMeaning.TriggerExact | ffs/ffs_conv.c:284-548 | which differences make the loop start over, and which of them ask for copying everything |
| PlanMeaning.ClassExact | ffs/ffs_conv.c:284-548 | without transposition, each class is settled on if and only if the fields ask for it |
| PlanMeaning.ConvertPlanned | ffs/ffs_conv.c:1553-1585 | converting only the planned fields, in place, leaves every field asked for converted |
| Planner.RestartsRise | ffs/ffs_conv.c:284-548 | the classes restarted with rise strictly, so there are three restarts at most |
| Planner.SettleSound | ffs/ffs_conv.c:253-548 | every requested field is fit for the class settled on; below buffer every field has the same offset in source and target |
| Planner.SettleLeast | ffs/ffs_conv.c:253-548 | without transposition the class is the least that serves every field, whatever their order |
| Planner.SettleExact | ffs/ffs_conv.c:253-548 | arrays to transpose or not and in any order of the fields, the class settled on is the one worked out from the first field that triggers and from whether a dynamic part changes size |
| Planner.OrderFree | ffs/ffs_conv.c:232-233 | two listings of the same fields, no two at one offset, give the same plan |
| Planner.LowestFirst | ffs/ffs_conv.c:232-413 | the first field to trigger a restart is the one that lies lowest in the target |
| Planner.LayoutExact | ffs/ffs_conv.c:232-413 | when some field triggers, the plan copies everything if and only if a dynamic part changes size or the lowest field that triggers has to be transposed, and buffers otherwise |
| Planner.LayoutMatters | ffs/ffs_conv.c:232-413 | a moved field below a transposed one in the target settles for a buffer, above it everything is copied |
| FieldConvert.CutValue | ffs/ffs_conv.c:680-802 | storing a value in n bytes keeps it modulo 256^n, exactly when it fits |
| FieldConvert.ConvertedValue | ffs/ffs_conv.c:1592-1744 | a converted integer is the source value, byte-swapped and sign- or zero-extended, modulo its new width, and equal to it when not narrower |
| ConvertBytes.ConvertedByte | ffs/ffs_conv.c:680-802 | byte i of a converted integer is byte i of the source in native order; beyond the source it is 0, or 255 for a negative number |
| ConvertBytes.WideByte | ffs/ffs_conv.c:680-802 | of 16 bytes the low 8 are taken |
| ConvertBytes.OddByte | ffs/ffs_conv.c:680-802 | an integer of a width without a C type is read as -1, or 0 when unsigned |
| ConvertBytes.ElementByte | ffs/ffs_conv.c:1592-1744 | so for byte i of element e of any field, at their places in source and destination |
| FieldConvert.WidenNarrow | ffs/ffs_conv.c:680-802 | widening and narrowing back restores the bytes |
| FieldConvert.SwapInto | ffs/ffs_conv.c:680-802 | exchanging bytes from both ends reverses them, in place or into another buffer, and touches nothing else |
| FieldConvert.ConvertElement | ffs/ffs_conv.c:680-802 | one element is converted, or left out for widths that are not written, and nothing else changes |
| FieldConvert.ConvertField | ffs/ffs_conv.c:680-802 | every element of a static array holds the converted source element, in place or apart |
| FieldConvert.ConvertRecord | ffs/ffs_conv.c:1553-1585 | converting a record over itself gives every field the same bytes as converting it into a separate buffer, the converted source; bytes outside the fields stay |
| FieldConvert.DirectInPlace | ffs/ffs_conv.c:253-268 | fields planned directly to memory meet what conversion in place asks for |
| Resize.BlocksApart | ffs/ffs_conv.c:1298-1345 | for any mix of growing and shrinking elements and nesting the dynamic blocks of the destination are disjoint, in source order and 8-aligned |
| Revisit.WalkRuns | ffs/ffs_conv.c:1366-1484 | the conversion's nested walk is one list of steps, each adding its padding and growth |
| Revisit.RevisitExact | ffs/ffs_conv.c:1298-1385 | a pointer met again is given the address of its block if and only if the growths and paddings in between add up to more than -8 and at most 0 |
| Revisit.RevisitBySchema | ffs/ffs_conv.c:1298-1385 | with offsets that are multiples of 8, if and only if climbing by the growths, rounded up to 8 at each block, ends where it began |
| Revisit.RevisitWhenGrowing | ffs/ffs_conv.c:1298-1385 | when nothing shrinks, if and only if nothing in between grew |
| Resize.AllConverted | ffs/ffs_conv.c:1366-1590 | every pointer of a record has its block converted if and only if each leads further into the message than all before it |
| Resize.PassedOver | ffs/ffs_conv.c:1382-1387 | of two pointers in the other order only the higher block is converted, though both pointers are set |
| Resize.SingleExact | ffs/ffs_conv.c:1387-1394 | the block after a single struct is clear of it if and only if the padded gap makes up for its growth |
| Resize.Converter.ConvertAddress | ffs/ffs_conv.c:1297-1325 | the address given, the adjustment growing by the padding |
| Resize.Converter.ConvertField | ffs/ffs_conv.c:1366-1517 | converting a pointer is one step of the walk, with its size difference added to the adjustment |
| Resize.ConvertAll | ffs/ffs_conv.c:1404-1484 | converting a record writes the blocks and sets the pointers the walk says, and the blocks do not collide |
| Resize.KnownPlaces | ffs/ffs_conv.c:1298-1484 | where growing elements, strings, a struct and a pointer met again end up, in numbers |
| EncodedVisits.EncodedInOrder | ffs/ffs_conv.c:1366-1484 | what the conversion meets in any encoded message, shared and cyclic pointers included, is in message order when no single value grows |
| EncodedVisits.EncodedAligned | ffs/ffs.c:130-160 | whatever grows, all it meets but text is at multiples of 8 |
| EncodedVisits.EncodedApart | ffs/ffs_conv.c:1298-1484 | so converting any encoded graph to other sizes gives blocks that are disjoint, in order and aligned |
| EncodedVisits.EncodedShared | ffs/ffs_conv.c:1298-1385 | in an encoded graph a later pointer to a shared object is given the object's address if and only if the growths since, rounded up to 8 at each object, come to more than -8 and at most 0 |
| SharedResize.RingResized | ffs/ffs_conv.c:1298-1385 | in the message of any ring the list's and the node's pointer to the shared array are given one address if and only if the array keeps its size or shrinks by less than 8 bytes |
| SharedResize.RingSplits | ffs/ffs_conv.c:1298-1385 | they are given two whenever the elements grow |
| Transpose.RowBijection | ffs/ffs_conv.c:1149-1247 | row-major positions of indices are below the product and determine the index |
| Transpose.RowInverse | ffs/ffs_conv.c:1149-1247 | every position below the product is the row-major position of its index |
| Transpose.ColBijection | ffs/ffs_conv.c:1149-1247 | the same for column-major positions |
| Transpose.ColInverse | ffs/ffs_conv.c:1149-1247 | and back |
| Transpose.RowStep | ffs/ffs_conv.c:1192-1215 | one index further in a dimension is as many places on as the later dimensions have elements |
| Transpose.ColStep | ffs/ffs_conv.c:1192-1215 | in column-major order, as many as the earlier ones have |
| Transpose.Matrix | ffs/ffs_conv.c:1149-1247 | of r by c elements, number i * c + j of the result is number j * r + i of the source, and the other way round |
| Transpose.Cube | ffs/ffs_conv.c:1149-1247 | the same in three dimensions |
| Transpose.TransposedAt | ffs/ffs_conv.c:1149-1247 | every position of the result is determined by one position of the source |
| Transpose.RoundTrip | ffs/ffs_conv.c:1149-1247 | transposing one way and then the other restores every element |
| Transpose.Bases | ffs/ffs_conv.c:1192-1215 | the two positions of the start of a run, computed dimension by dimension |
| Transpose.MoveRun | ffs/ffs_conv.c:1215-1240 | one run of the last dimension is moved, each element to its place, nothing else |
| Transpose.MovesOnce | ffs/ffs_conv.c:1149-1247 | the moves of all multi-indices in row-major order write every position of the result once and read every position of the source once |
| Transpose.TransposeArray | ffs/ffs_conv.c:1149-1247 | for any two or more positive dimensions the odometer ends and moves every element between its two positions, the moves made being those of all multi-indices in row-major order; otherwise nothing changes |
| CodGen.Reverse | cod/cg.c:3989-4003 | the reversed branch is taken exactly when the comparison fails |
| CodGen.Direct | cod/cg.c:4005-4019 | the direct branch is taken exactly when the comparison holds, except for >= on equal operands |
| CodSource.ComplementIsXor | cod/cg.c:1631-1686 | complementing is exclusive or with all ones, on 32-bit words |
| CodMachine.OneEnd | cod/cg.c:4022-4123 | a run of the machine ends in one way only |
| CodCorrect.ExprRuns | cod/cg.c:2592-3120 | the code of any expression, anywhere in a program, computes its emitted value and locals, keeps the other registers, and traps when it does |
| CodCorrect.BranchRuns | cod/cg.c:4021-4074 | the branch code goes to its label or falls through as the condition says, either sense |
| CodRuns.RoundsRun | cod/cg.c:4094-4123 | from its start label a loop goes through its rounds, with break, continue, return and traps |
| CodRuns.StmtRuns | cod/cg.c:1236-1267 | the code of any statement follows its emitted meaning, or stays busy as long as the meaning does |
| CodProgram.ExprLabels | cod/cg.c:4021-4074 | an expression marks only labels it allocated, each once |
| CodProgram.StmtLabels | cod/cg.c:4076-4123 | so does a statement |
| CodSteady.Unwritten | cod/cg.c:1325-1412 | a local an expression does not write keeps its value, and a value in a local's register is the local's |
| CodSteady.OperandExact | cod/cg.c:1325-1412 | a binary operator or comparison gets the operands promised if and only if its right operand leaves the left one's local with its value |
| CodSteady.OpAssignExact | cod/cg.c:1325-1412 | an op= adds to the value on entry if and only if its right side leaves the local with it |
| CodSteady.SteadyExact | cod/cg.c:1325-1441 | all operators of an expression, at any depth, get the operands promised if and only if that holds wherever one is evaluated; then the value and the locals are those promised |
| CodSteady.EvalAgrees | cod/cg.c:1325-1441 | emitted and promised values agree where no operand writes a local the other reads |
| CodSteady.BackEdgeExact | cod/cg.c:4005-4019 | the branch at the end of a do loop turns as its test promised if and only if the test does not compare equal operands by >= |
| CodSteady.RunExact | cod/cg.c:4076-4123 | a run sees what was promised at every operator and every do test if and only if both conditions hold throughout; then it ends as promised |
| CodSteady.ExecAgrees | cod/cg.c:4076-4123 | the same for statements without a do-while test that is a >= |
| CodProgram.FunctionRuns | cod/cg.c:1236-1267 | the code of every function ends as its emitted meaning says, or runs as long as it does |
| CodProgram.CompileSteady | cod/cg.c:2592-3120 | a function whose runs meet those conditions ends with given locals and value, off its end, or in a trap, if and only if its code does |
| CodProgram.CompileCorrect | cod/cg.c:2592-3120 | so does a function safe as it stands, for any arguments |
| CodProgram.NeverEnds | cod/cg.c:4094-4123 | a function whose runs meet them and never end has code that never ends |
| CodProgram.LateSumSteady | cod/cg.c:1325-1412 | x + (x = b) gets the operands promised if and only if x is b already |
| CodProgram.LateOperand | cod/cg.c:1325-1412 | the code of x + (x = b) returns b + b, not a + b |
| CodProgram.DoTestExact | cod/cg.c:4005-4019 | the branch at the end of a do loop agrees with its test if and only if the test is not a >= on equal operands |
| CodProgram.LateExit | cod/cg.c:4094-4123 | a do loop with a >= test leaves one round early |
| CodValues.DivExact | cod/cg.c:1631-1703 | quotients are rounded towards zero, remainders have the sign of the dividend; division traps if and only if by zero or when the quotient does not fit |
| CodValues.ArithExact | cod/cg.c:1631-1703 | sums, differences and products are right modulo 2^32, and right when they fit |
| CodValues.BitsExact | cod/cg.c:1631-1703 | every bit of and, or and exclusive or |
| CodValues.DivisionRuns | cod/cg.c:2160-2230 | the code of `return x / y` and `return x % y` halts with that quotient and remainder |
| CodValues.SumsRun | cod/cg.c:2160-2230 | the code of +, - and * halts with the sums |
| CodValues.ComparisonsReturn | cod/cg.c:2160-2230 | the code of the six comparisons halts with 1 or 0 as they hold |
| CodValues.NegateReturns | cod/cg.c:1631-1703 | the code of -x |
| CodValues.ComplementReturns | cod/cg.c:1631-1703 | the code of ~x |
| CodValues.NotReturns | cod/cg.c:1631-1703 | the code of !x |
| CodValues.StepReturns | cod/cg.c:2592-3120 | the code of ++ and --, before and after: the value and the local |
| CodValues.LogicReturns | cod/cg.c:1414-1441 | the code of && and \|\| runs its right side only when it has to |
| CodValues.ChoiceReturns | cod/cg.c:2592-3120 | the code of a conditional with comma and assignment inside |
| CodValues.OpAssignReturns | cod/cg.c:2592-3120 | the code of `return x op= y` halts with x op y and leaves it in x |
| CodValues.OddSumRuns | cod/cg.c:4094-4123 | the code of a for loop with break and continue that adds the odd numbers below n returns the square of n / 2, for every n |
| CodLoops.WhileReturns | cod/cg.c:4094-4123 | the code of a while loop that counts x down and adds 2 each time returns 2 * x, for every x |
| CodLoops.DoReturns | cod/cg.c:4094-4123 | the same with do |
| CodLoops.LargerReturns | cod/cg.c:4076-4092 | the code of if and else returns the larger of two numbers |
| CodEmit.Stream.CgExpr | cod/cg.c:2592-3120 | the generator appends exactly the expression's code, with the registers and labels it says |
| CodEmit.Stream.OperatorPrep | cod/cg.c:1324-1412 | both operands' code in order, and where their values are |
| CodEmit.Stream.ShortCircuit | cod/cg.c:1414-1441 | the code of && and \|\| with one result register and one label |
| CodEmit.Stream.CgOperator | cod/cg.c:1631-1686 | the code of every operator, comparisons and short-circuit forms included |
| CodEmit.Stream.BranchIfFalse | cod/cg.c:4021-4074 | the branch code of a condition, either sense |
| CodEmit.Stream.CgStatement | cod/cg.c:1236-1267 | the code of a statement, break and continue going to the labels of the nearest loop |
| CodEmit.Stream.CgIteration | cod/cg.c:4094-4123 | the code of a loop: start label, test, body, iteration label, step, way back, end label |
| CodEmit.CompileFunction | cod/cg.c:1236-1267 | translating a function by these methods gives code with unique labels that is faithful to it |
| ByteOrder.ReadBack | fm/fm_formats.c:3428-3540 | a reader of either byte order reads the integer a writer of either order meant |
| Wire.SubBack | fm/fm_formats.c:3428-3540 | a printed format anywhere in a buffer is parsed back, on a host of either order |
| Wire.FormatBack | fm/fm_formats.c:3559-3599 | so are a format and its subformats |
| Wire.WireRoundTrip | fm/fm_formats.c:3559-3599 | a natively ordered format is parsed back unchanged by a reader of either order; its length is the size computed up front and a multiple of 4 |
| Wire.ReversedFloat | fm/fm_formats.c:1193-1321 | a byte-reversed format keeps its float kind if and only if the kind's two bytes are equal |
| Wire.IdLengthExact | fm/fm_formats.c:3969-3990 | the length in a format ID gives the length back if and only if it is below 2^26 |
| KnownFormat.HeadBytes | fm/fm_formats.c:1193-1321 | what each of the 28 bytes of a printed format's header holds, for every format, order and place |
| KnownFormat.Printed | fm/fm_formats.c:1193-1321 | name, field entries with the places of their strings, sizes and offsets, and optional info up to its end mark stand where the header says |
| KnownFormat.TopBytes | fm/fm_formats.c:1323-1352 | the 8 bytes a description begins with |
| KnownFormat.SubPrinted | fm/fm_formats.c:1323-1352 | the subformats stand one after the other |
| KnownFormat.UnknownFloat | fm/fm_formats.c:3428-3540 | a format that does not say its float kind is read as IEEE in its own byte order |
| KnownFormat.IdBytes | fm/fm_formats.c:3969-3990 | what each byte of a format ID holds |
| WireCode.MeasureRep | fm/fm_formats.c:1196-1236 | the size computed up front is the size printed |
| WireCode.AddSubformatRep | fm/fm_formats.c:1193-1321 | the loops append exactly the printed form, keeping what was there |
| WireCode.BuildServerFormatRep | fm/fm_formats.c:1323-1352 | a format and its subformats are printed in order, or nothing with 100 subformats or more |
| WireCode.ExpandFormat | fm/fm_formats.c:3559-3599 | the parsing loops read what the parser function reads |
| WireCode.PrintAndParse | fm/fm_formats.c:1323-1352 | printing on one host and parsing on another gives the description back |
| WireCode.ReversedCursor | fm/fm_formats.c:1296-1316 | whatever the lengths of the blocks, the cursor ends where the size says if and only if the stored, byte-reversed lengths rounded up add up to as much as the lengths |
| WireCode.ShortBlocks | fm/fm_formats.c:1296-1316 | for blocks below 128 bytes, if and only if every block is empty |
| Layout.SizedField | fm/fm_formats.c:818-910 | a field has a size if and only if every struct it holds has one; it then has an alignment, a power of 2 |
| Layout.SetSizesAndOffsets | fm/fm_formats.c:913-992 | a struct has a size after its turn if and only if it had one or everything it holds had one; sized structs keep their layout |
| Layout.Progress | fm/fm_formats.c:1017-1021 | a round that leaves something out has given some struct a size; a complete layout stays |
| Layout.FMlocalizeStructs | fm/fm_formats.c:994-1039 | after one round more than there are structs, exactly the structs whose by-value containment ends in non-empty structs have a layout, each a fixed point of the layout rule; integers of 1, 2, 4 and 8 bytes, floats of 4, 8 and 16, and pointers and strings lie at the least multiple of their size not below the end of the field before, and the struct ends at the least multiple of the largest; missing field sizes are filled in by type |
| Layout.FieldsFit | fm/fm_formats.c:913-992 | offsets are aligned, fields in order, apart and as close as alignment allows; the size is the least multiple of the alignment that holds them, and each field's alignment divides it |
| Layout.SettledInPlace | fm/fm_formats.c:818-992 | a settled struct has that layout in numbers |
| Layout.LayOutSamples | fm/fm_formats.c:994-1039 | the offsets and sizes of two structs, one holding the other |
| Layout.OneLayout | fm/fm_formats.c:994-1039 | two such layouts of one list agree on every struct that can be laid out |
| Variant.FixedIsClosed | fm/fm_formats.c:1774-1786 | at a fixed point everything that reaches a variant format is flagged |
| Variant.CanReachExact | fm/fm_formats.c:1774-1786 | reaching a variant format is having a path of references to one |
| Variant.BubbleVariant | fm/fm_formats.c:1774-1786 | after as many passes as formats, on any graph, a format is flagged if and only if it reaches one that was variant at the start |
| Topology.Walk.AddFormat | fm/fm_formats.c:1601-1630 | a call lists the unvisited formats reachable from its argument, each after all it refers to when there are no cycles |
| Topology.TopoOrderSubformats | fm/fm_formats.c:1634-1668 | the list has exactly the formats reachable from the top one, each once, without it; on an acyclic graph containers come first |
| Topology.ReachExact | fm/fm_formats.c:1601-1668 | what is listed is what a path of references leads to |
| Topology.ListFits | fm/fm_formats.c:1594-1640 | the lists stay within their 100 entries if and only if fewer than 100 formats are reachable |
| Topology.SetAlignment | fm/fm_formats.c:1110-1122 | a format's alignment is the largest its fields need, found if and only if those it holds have one |
| Topology.LargestIs | fm/fm_formats.c:818-859 | the largest alignment is no less than any plain field's, 8 for a pointer, and that of a format held, and is one of these |
| Topology.SweepAlignments | fm/fm_formats.c:1769-1773 | on any graph and list the sweep never needs an alignment that is not there yet if and only if everything held by value is a non-empty format later in the list; then all get one |
| Topology.AcyclicHeldLater | fm/fm_formats.c:1634-1668 | which the list made for an acyclic graph of non-empty formats satisfies |
| Topology.CycleTrips | fm/fm_formats.c:818-859 | and no list for a format pointing to one that holds it does |
| Framing.HeadExact | ffs/ffs_file.c:1408-1586 | a header gives the record's kind and exact lengths if and only if they are in range (comments below 2^24, data below 2^48) |
| Framing.RecordBack | ffs/ffs_file.c:1408-1586 | a record's parts are found where its header says |
| IndexBlock.StepsAgree | ffs/ffs_file.c:666-748 | parser and writer step alike if and only if the lengths are multiples of 4 |
| IndexBlock.ParsedIdExact | ffs/ffs_file.c:716-748 | of a data item the parser gets the ID if and only if the ID is its own 4-byte length repeated |
| IndexBlock.ItemBack | ffs/ffs_file.c:666-748 | one item is read back: kind, file position, lengths, ID and attributes |
| IndexBlock.ItemsBack | ffs/ffs_file.c:666-748 | parsing a block returns the items written |
| FileWriter.FFSFile.PrepareIndexItem | ffs/ffs_file.c:544-556 | after the call the item fits before the end marker, and the records written are the same |
| FileWriter.FFSFile.DumpIndexBlock | ffs/ffs_file.c:515-542 | the open section is closed by its completed index block, and the next block reserved behind it |
| FileWriter.FFSFile.WriteComment | ffs/ffs_file.c:797-820 | the file's records are those before and the comment |
| FileWriter.FFSFile.WriteFormat | ffs/ffs_file.c:751-795 | the file's records are those before and the format, indexed if the file is |
| FileWriter.FFSFile.WriteData | ffs/ffs_file.c:886-963 | the file's records are those before, the format if it was not written yet, and the data |
| FileWriter.FFSFile.Close | ffs/ffs_file.c:461-466 | a closed file is a prefix and sections, each with its index block, of exactly the records written, formats before their data |
| FileReader.FileBack | ffs/ffs_file.c:1408-1586 | a closed file is read back as its records in order, with the index blocks that describe them in between |
| FileReader.RecordsBack | ffs/ffs_file.c:1603-1636 | the records read are exactly the records written |
| FileReader.BlocksPartition | ffs/ffs_file.c:515-542 | the index blocks number the data records 0, 1, 2, ... in consecutive, possibly empty ranges |
| FileReader.DataInSection | ffs/ffs_file.c:1248-1300 | the item counted off in record k's block has record k's file position |
| FileReader.DataThere | ffs/ffs_file.c:1248-1300 | at that position record k is read |
| FileReader.IndexedReader.ReadIndex | ffs/ffs_file.c:1059-1117 | the next index block from the current position is kept, records in between skipped |
| FileReader.IndexedReader.FindBlock | ffs/ffs_file.c:1248-1300 | the block found has record k in its range |
| FileReader.IndexedReader.Seek | ffs/ffs_file.c:1248-1300 | seeking to k goes to where record k's header was written, so that record k is read next; the result is always 0 |
| FileRun.WriteFile | ffs/ffs_file.c:751-963 | any sequence of requests, written and closed, gives a file of exactly the records asked for, each format once and before its first data |
| FileRun.WriteThenRead | ffs/ffs_file.c:1408-1636 | a file so written and shorter than 2^31 bytes is read back as exactly those records |
| FileRun.WriteThenSeek | ffs/ffs_file.c:1248-1300 | and after seeking to k the record read next is the k-th data record asked for |
| KnownFile.RecordPrinted | ffs/ffs_file.c:751-963 | what each byte of a record's header holds, and its parts behind it |
| KnownFile.ItemPrinted | ffs/ffs_file.c:515-556 | what each byte of an index item holds |
| KnownFile.NextItem | ffs/ffs_file.c:515-556 | where the next item stands |
| KnownFile.SectionPrinted | ffs/ffs_file.c:515-542 | what the header of an index block holds, where its items, its end mark and the records are |
| KnownFile.FileBegins | ffs/ffs_file.c:379-390 | the four bytes every file begins with |
| KnownFile.WrittenComesBack | ffs/ffs_file.c:751-1636 | for any sequence of requests the comments and the data come back in the order they were put, each once |
| KnownFile.SoughtComesBack | ffs/ffs_file.c:1248-1300 | after seeking to k the payload put k-th is read |
| KnownFile.RoomExact | ffs/ffs_file.c:515-556 | what can be put into an indexed file, in lengths |
| KnownFile.KnownBytes | ffs/ffs_file.c:751-963 | the 35 bytes of a file with a comment, a format and a data record |
| Lookup3.MixBijective | fm/lookup3.c:115-123 | mixing can be undone from either side |
| Lookup3.FinalBijective | fm/lookup3.c:150-159 | so can the final mixing |
| Lookup3.RotIs | fm/lookup3.c:69 | rotating by k moves the low bits up and the high k bits below them |
| Lookup3.RotBits | fm/lookup3.c:69 | bit i of a word rotated by k is bit i - k, modulo 32, of the word |
| KnownHashes.KnownPairs | fm/lookup3.c:455-629 | the pairs of hashes of the empty key, of a key of one byte and of one of thirty |
| Lookup3.AddByWord | fm/lookup3.c:463-530 | up to four bytes added by one masked word load |
| Lookup3.AddByHalf | fm/lookup3.c:532-580 | the same by half words |
| Lookup3.AddByByte | fm/lookup3.c:582-626 | the same byte by byte |
| Lookup3.HashLittle2 | fm/lookup3.c:455-629 | the pair of hashes depends on the key's bytes only, whatever its address and so whichever of the three loads is used, and whatever follows it |
| Lookup3.HashWord | fm/lookup3.c:174-207 | over n words, the hash of their 4n bytes |
| Evol.MergeScan | ffs/evol.c:165-189 | the merge of two sorted lists counts on either side the fields without a match of name and type |
| Evol.UnmatchedCount | ffs/evol.c:165-189 | that is the names only one side has, and the clashes of type, which count on both |
| Evol.ClashSymmetric | ffs/evol.c:165-189 | the names whose types clash are the same from either side |
| Evol.SwapCounts | ffs/evol.c:133-231 | swapping the formats swaps the counts, subformats included, for formats of one name or not listed in themselves |
| Evol.NoSelfDifference | ffs/evol.c:143 | a format does not differ from itself, so leaving early changes nothing |
| Evol.FMformatCmpDiff | ffs/evol.c:133-231 | the differences of two formats and of their subformats of the same names are added, the first format being skipped where it is listed in itself, and the order tells which counts are 0 |
| Evol.IOformatListCmp | ffs/evol.c:274-304 | the first candidate of the same name whose (second, first) counts are lexicographically least, if better than before |
| Evol.FMformatCompatCmp | ffs/evol.c:340-375 | the closest pair over the format and its earlier versions, taken if exact or, with earlier versions, if less than a fifth of the fields are missing; none otherwise |
| KnownMatches.MissingIs | ffs/evol.c:80-189 | the merge counts the fields for which a search finds none of that name and an agreeing type |
| KnownMatches.PlainDiffs | ffs/evol.c:133-231 | formats without subformats differ by those on either side |
| KnownMatches.NestedDiffs | ffs/evol.c:190-222 | a subformat both have adds its own differences |
| KnownMatches.NestedAlone | ffs/evol.c:190-222 | one the other does not have adds none |
| KnownMatches.TotalCount | ffs/evol.c:233-247 | the fields counted are the format's own and, as often as it holds another by value, that one's |
| KnownMatches.ChooseOne | ffs/evol.c:340-360 | a lone candidate is taken if and only if it has the name and nothing is missing on either side |
| KnownMatches.ChooseVersion | ffs/evol.c:340-375 | of a format and an earlier version the one with fewer missing fields is chosen, and taken if and only if it matches exactly or less than a fifth of the candidate's fields are missing |

## Left out

- The just-in-time conversion generator, format server traffic, XML and text dumping, debug output and environment variables: emission to unseen libraries, network I/O, output.
- Custom marshalling, default values, no-leaf-copy, fixed-size buffers and append mode: side features that would weaken the main results.
- 32-bit and big-endian hosts (the wire form is proved for readers and writers of either order), long double, allocation failure, and memory release.
- `hashword2` and `hashbig`, which are not part of the agreement of the hashes.
- RoundTrip.DecodeEncode: no tracked pointer leads to the root record, a tracked address is used at one type and size (worked out; the holding record and its other fields do not matter), memory stays below 2^64 and the message is placed at a multiple of 8; by-value containment is acyclic and every cycle of pointer types passes a format flagged recursive (the flag registration sets), which the `level` of a format witnesses.
- RoundTrip.DecodeEncode: fields of a format do not overlap; registration checks this without counting the elements of static arrays, so it is a hypothesis here. Memory outside the image reads as zero, and uninitialised buffer bytes have an arbitrary value `junk`.
- Decoder.FFSdecodeInPlace: equal layouts on both sides; array strides equal the size of their elements. Conversion of sizes and byte order is in `FieldConvert` and `Resize`. Decoding to a separate destination only differs in where the image lies.
- Marshal.EncodeDecode: control fields that a variable array of an encoded object names hold values below half of the range of 1-, 2- and 4-byte fields; `Marshal.SignedCountAgrees` shows this is needed.
- CodProgram.CompileCorrect: int locals only, in the first registers; assignment, increment, arithmetic, comparison, logic, conditional and comma expressions; if, for, while and do with break and continue of the nearest loop, and return. Shifts, goto, calls, strings, floats, pointers, static blocks, initialisers and void returns are not modelled. Labels are parameters instead of fields of the syntax tree. A division that fails is a fault of the machine.
- Transpose.TransposeArray: elements instead of bytes (a byte offset is the element size times a position); the list of dimensions ends with its first zero, and an unreachable early return is omitted.
- Wire.WireRoundTrip: sizes and offsets below 2^31 and a known float kind; reading past the buffer gives zeroes.
- WireCode.AddSubformatRep: the blocks of a byte-reversed format's optional info have lengths that read the same from either end; otherwise the blocks would be written where their stored lengths say. `WireCode.ReversedCursor` says exactly when the code's own assertion fails.
- Layout.FMlocalizeStructs: scalars held in a record come with their sizes (floats at least 4 bytes); sizes of structs, strings and pointed-to data may be missing. Names of structs are resolved to positions in the list, and the bit tricks for rounding are written as arithmetic.
- Topology.TopoOrderSubformats: the references of a format are given in name order; releasing formats that are not reachable is left out. The lists grow as needed, while the code's have 100 entries, which it overruns from 100 reachable formats on (`Topology.ListFits`).
- FileRun.WriteThenRead: IDs and attributes have lengths that are multiples of 4 and an item fits in an empty index block; the file is below 2^31 bytes; an indexed file gets at least one data record before it is closed. Target formats, the header read ahead and the bytes behind an index block's end marker are not modelled.
- Planner.CreateConversion: default values and the creation of subformat conversions are left out; whether a field is dynamic is given. A failed plan is not told apart by its cause. The library's sort is an insertion sort, so fields at one offset of the target keep the caller's order.
- FieldConvert.ConvertRecord: integers only; floats are left out. A 16-byte integer keeps its low half only, as in the code.
- Resize.BlocksApart: addresses and sizes only, the bytes being converted as in `FieldConvert`; pointers are met in message order (`EncodedVisits.EncodedInOrder`) and single structs do not grow.
- EncodedVisits.EncodedInOrder: the target has every pointer field of the source, and they lie in the same order (`Resize.AllConverted` says what happens otherwise). Values of one source type have one size in the target. No theorem joins the places of the blocks to the converted bytes in them.
- Lookup3.HashLittle2: the three copies of the loop are one loop that chooses its load by the address. The single hash is the first of the pair with second seed 0.
- Evol.FMformatCmpDiff: formats are finite trees but for a format listed in itself, so mutually recursive formats, on which the comparison as written would not end, are not covered; the names of fields, and of a format and its subformats, are unique; a type is given as what its string says. The library's sort is an insertion sort by name.
- Evol.FMformatCompatCmp: the threshold is compared exactly instead of in floating point; with earlier versions, no candidate has a field of its own format, since counting the fields of its fields would not end.
