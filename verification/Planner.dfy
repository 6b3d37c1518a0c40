/** Planning a conversion: how much buffering the differences between two field lists call
    for. The plan is restarted whenever a field shows that more is needed. */
module Planner {
  datatype Option<T> = None | Some(value: T)

  /** IOconversion_type, in the order of restarts. */
  datatype Class = NoneRequired | Direct | Buffered | CopyDynamic {
    function Rank(): (r: nat)
      ensures r <= 3
    {
      match this
      case NoneRequired => 0
      case Direct => 1
      case Buffered => 2
      case CopyDynamic => 3
    }
  }

  /** A requested field beside the input field of its name. Variable arrays count one element;
      `sub` is the conversion already set for the field's subformat. */
  datatype Pair = Pair(
    found: bool, srcOffset: nat, destOffset: nat, srcSize: nat, destSize: nat,
    srcElements: nat, destElements: nat, srcType: nat, destType: nat, unknown: bool,
    dynamic: bool, flat: bool, multiDim: bool, floatOk: bool, sub: Option<Class>)

  /** What the two architectures differ in. */
  datatype Setting = Setting(byteReversal: bool, swapArrays: bool)

  datatype Outcome = Restart(c: Class) | Skip | Fail | Convert(c: Class)

  predicate Clash(p: Pair) {
    p.srcElements != p.destElements || p.srcType != p.destType
  }

  /** Identical in both layouts. */
  predicate Identical(p: Pair, s: Setting) {
    && !Clash(p) && !p.unknown && !s.byteReversal && p.floatOk && p.flat
    && (!s.swapArrays || !p.multiDim) && p.destSize == p.srcSize
  }

  predicate Nested(p: Pair) {
    p.unknown && !p.dynamic && p.sub.Some?
  }

  predicate Resized(p: Pair) {
    p.destSize != p.srcSize
  }

  /** One field, under the class planned so far. */
  function Decide(conv: Class, p: Pair, s: Setting): (o: Outcome)
    ensures o.Restart? ==> o.c.Rank() > conv.Rank()
    ensures o.Convert? ==> o.c.Rank() >= conv.Rank() && o.c != NoneRequired
  {
    if !p.found then Fail
    else if conv.Rank() <= 1 && p.destOffset != p.srcOffset then Restart(Buffered)
    else if conv.Rank() <= 1 && Identical(p, s) then Skip
    else if conv.Rank() <= 1 && p.srcElements != 1 && Resized(p) then Restart(Buffered)
    else if conv.Rank() <= 1 && s.swapArrays && p.multiDim then Restart(CopyDynamic)
    else if conv.Rank() <= 1 && Nested(p) && p.sub.value == CopyDynamic then Fail
    else if conv.Rank() <= 1 && Nested(p) && p.sub.value == Buffered then Restart(Buffered)
    else if conv.Rank() <= 1 && Nested(p) && p.sub.value == NoneRequired then Skip
    else if conv.Rank() <= 2 && p.dynamic && Resized(p) then Restart(CopyDynamic)
    else if Clash(p) then Fail
    else Convert(if conv.Rank() >= 2 then conv else Direct)
  }

  datatype Plan = Plan(kind: Class, fields: seq<Pair>)

  /** The plan that comes of the fields from i on, starting over when a field says so. */
  function Settle(conv: Class, ps: seq<Pair>, i: nat, done: seq<Pair>, s: Setting): Option<Plan>
    requires i <= |ps|
    decreases 3 - conv.Rank(), |ps| - i
  {
    if i == |ps| then Some(Plan(conv, done))
    else
      match Decide(conv, ps[i], s)
      case Fail => None
      case Skip => Settle(conv, ps, i + 1, done, s)
      case Restart(c) => Settle(c, ps, 0, [], s)
      case Convert(c) => Settle(c, ps, i + 1, done + [ps[i]], s)
  }

  /** A source record longer than the target always needs a buffer. */
  function Start(initial: Class, srcLength: nat, targetLength: nat): (c: Class)
    ensures c.Rank() >= initial.Rank()
  {
    if srcLength > targetLength && initial.Rank() <= 1 then Buffered else initial
  }

  /** The classes the loop restarts with, from field i on. */
  function Restarts(conv: Class, ps: seq<Pair>, i: nat, s: Setting): seq<Class>
    requires i <= |ps|
    decreases 3 - conv.Rank(), |ps| - i
  {
    if i == |ps| then []
    else
      match Decide(conv, ps[i], s)
      case Fail => []
      case Skip => Restarts(conv, ps, i + 1, s)
      case Restart(c) => [c] + Restarts(c, ps, 0, s)
      case Convert(c) => Restarts(c, ps, i + 1, s)
  }

  /** Each restart strictly raises the class, so there are three at most. */
  lemma {:induction false} RestartsRise(conv: Class, ps: seq<Pair>, i: nat, s: Setting)
    requires i <= |ps|
    ensures var r := Restarts(conv, ps, i, s);
      && |r| <= 3 - conv.Rank()
      && (forall k :: 0 <= k < |r| ==> r[k].Rank() > conv.Rank())
      && (forall k, l :: 0 <= k < l < |r| ==> r[k].Rank() < r[l].Rank())
    decreases 3 - conv.Rank(), |ps| - i
  {
    if i < |ps| {
      match Decide(conv, ps[i], s)
      case Fail =>
      case Skip => RestartsRise(conv, ps, i + 1, s);
      case Restart(c) => RestartsRise(c, ps, 0, s);
      case Convert(c) => RestartsRise(c, ps, i + 1, s);
    }
  }

  /** The class only rises. */
  lemma {:induction false} SettleRises(conv: Class, ps: seq<Pair>, i: nat, done: seq<Pair>, s: Setting)
    requires i <= |ps|
    ensures Settle(conv, ps, i, done, s).Some? ==> Settle(conv, ps, i, done, s).value.kind.Rank() >= conv.Rank()
    decreases 3 - conv.Rank(), |ps| - i
  {
    if i < |ps| {
      match Decide(conv, ps[i], s)
      case Fail =>
      case Skip => SettleRises(conv, ps, i + 1, done, s);
      case Restart(c) => SettleRises(c, ps, 0, [], s);
      case Convert(c) => SettleRises(c, ps, i + 1, done + [ps[i]], s);
    }
  }

  // ----- the target fields in the order of their offsets

  function Insert(p: Pair, ps: seq<Pair>): (r: seq<Pair>)
    ensures multiset(r) == multiset(ps) + multiset{p}
  {
    if ps == [] || p.destOffset < ps[0].destOffset then
      assert [p] + ps == [p] + ps;
      [p] + ps
    else
      assert ps == [ps[0]] + ps[1..];
      [ps[0]] + Insert(p, ps[1..])
  }

  /** The fields as qsort leaves them. */
  function SortByOffset(ps: seq<Pair>): (r: seq<Pair>)
    ensures multiset(r) == multiset(ps)
  {
    if ps == [] then []
    else
      assert ps == [ps[0]] + ps[1..];
      Insert(ps[0], SortByOffset(ps[1..]))
  }

  ghost predicate Ordered(ps: seq<Pair>) {
    forall k, l :: 0 <= k < l < |ps| ==> ps[k].destOffset <= ps[l].destOffset
  }

  lemma {:induction false} InsertOrdered(p: Pair, ps: seq<Pair>)
    requires Ordered(ps)
    ensures Ordered(Insert(p, ps))
  {
    if ps != [] && p.destOffset >= ps[0].destOffset {
      InsertOrdered(p, ps[1..]);
      var r := Insert(p, ps[1..]);
      forall k | 0 <= k < |r|
        ensures ps[0].destOffset <= r[k].destOffset
      {
        assert r[k] in multiset(r);
        assert r[k] == p || r[k] in ps[1..];
      }
    }
  }

  lemma {:induction false} SortOrdered(ps: seq<Pair>)
    ensures Ordered(SortByOffset(ps)) && forall p :: p in SortByOffset(ps) <==> p in ps
  {
    if ps != [] {
      SortOrdered(ps[1..]);
      InsertOrdered(ps[0], SortByOffset(ps[1..]));
    }
    assert forall p :: p in SortByOffset(ps) <==> p in multiset(SortByOffset(ps));
    assert forall p :: p in ps <==> p in multiset(ps);
  }

  /** create_conversion: sort the target fields, then plan. */
  method CreateConversion(initial: Class, srcLength: nat, targetLength: nat, fields: seq<Pair>, s: Setting) returns (plan: Option<Plan>)
    ensures plan == Settle(Start(initial, srcLength, targetLength), SortByOffset(fields), 0, [], s)
    ensures plan.Some? ==> Sound(plan.value, fields, s)
    ensures plan.Some? ==> plan.value.kind == Final(Start(initial, srcLength, targetLength), SortByOffset(fields), s)
    ensures plan.Some? && srcLength > targetLength ==> plan.value.kind == Buffered || plan.value.kind == CopyDynamic
    ensures srcLength <= targetLength ==> plan == Settle(initial, SortByOffset(fields), 0, [], s)
  {
    var ps := SortByOffset(fields);
    SettleRises(Start(initial, srcLength, targetLength), ps, 0, [], s);
    hide Final, Sound;
    SettleSound(Start(initial, srcLength, targetLength), ps, 0, [], s);
    SettleExact(Start(initial, srcLength, targetLength), ps, 0, [], s, Start(initial, srcLength, targetLength));
    var conv := initial;
    if srcLength > targetLength && conv.Rank() <= 1 { conv := Buffered; }
    var i, done := 0, [];
    while i < |ps|
      invariant 0 <= i <= |ps|
      invariant Settle(conv, ps, i, done, s) == Settle(Start(initial, srcLength, targetLength), ps, 0, [], s)
      decreases 3 - conv.Rank(), |ps| - i
    {
      match Decide(conv, ps[i], s) {
        case Fail => return None;
        case Skip => i := i + 1;
        case Restart(c) => conv, i, done := c, 0, [];
        case Convert(c) =>
          done := done + [ps[i]];
          conv, i := c, i + 1;
      }
    }
    plan := Some(Plan(conv, done));
    SoundUnsorted(plan.value, fields, s);
  }

  lemma SoundUnsorted(plan: Plan, fields: seq<Pair>, s: Setting)
    requires Sound(plan, SortByOffset(fields), s)
    ensures Sound(plan, fields, s)
  {
    hide Fit, Untouched;
    var ps := SortByOffset(fields);
    SortOrdered(fields);
    forall k | 0 <= k < |fields|
      ensures Fit(fields[k], plan.kind, s)
      ensures fields[k] in plan.fields || (plan.kind.Rank() <= 1 && Untouched(fields[k], s))
    {
      assert fields[k] in ps;
      var l :| 0 <= l < |ps| && ps[l] == fields[k];
    }
  }

  // ----- what a plan guarantees

  /** A field is fit for a class: converted directly only in place and without interleaving;
      resized dynamic parts only when everything is copied. */
  predicate Fit(p: Pair, c: Class, s: Setting) {
    && p.found
    && (c.Rank() <= 1 ==> p.destOffset == p.srcOffset)
    && (c.Rank() <= 1 && !Identical(p, s) ==> (p.srcElements == 1 || !Resized(p)) && !(s.swapArrays && p.multiDim))
    && (c.Rank() <= 2 && p.dynamic && !(c.Rank() <= 1 && Identical(p, s)) ==> !Resized(p))
  }

  /** Fields the plan may leave alone. */
  predicate Untouched(p: Pair, s: Setting) {
    Identical(p, s) || (Nested(p) && p.sub.value == NoneRequired)
  }

  ghost predicate Sound(plan: Plan, ps: seq<Pair>, s: Setting) {
    && (forall k :: 0 <= k < |ps| ==> Fit(ps[k], plan.kind, s))
    && (forall p :: p in plan.fields ==> p in ps && !Clash(p))
    && (forall k :: 0 <= k < |ps| ==> ps[k] in plan.fields || (plan.kind.Rank() <= 1 && Untouched(ps[k], s)))
    && (plan.kind == NoneRequired ==> plan.fields == [])
  }

  /** State of the loop before field i. */
  ghost predicate SoFar(conv: Class, ps: seq<Pair>, i: nat, done: seq<Pair>, s: Setting)
    requires i <= |ps|
  {
    && (forall k :: 0 <= k < i ==> Fit(ps[k], conv, s))
    && (forall p :: p in done ==> p in ps && !Clash(p))
    && (forall k :: 0 <= k < i ==> ps[k] in done || (conv.Rank() <= 1 && Untouched(ps[k], s)))
    && (conv == NoneRequired ==> done == [])
  }

  /** Main result. When the planner settles, every requested field is fit for the class it
      settled on; below Buffered in particular every field is at the same offset in both. */
  lemma {:induction false} SettleSound(conv: Class, ps: seq<Pair>, i: nat, done: seq<Pair>, s: Setting)
    requires i <= |ps| && SoFar(conv, ps, i, done, s)
    ensures var r := Settle(conv, ps, i, done, s); r.Some? ==> Sound(r.value, ps, s) && r.value.kind.Rank() >= conv.Rank()
    decreases 3 - conv.Rank(), |ps| - i
  {
    if i < |ps| {
      match Decide(conv, ps[i], s)
      case Fail =>
      case Skip => SettleSound(conv, ps, i + 1, done, s);
      case Restart(c) => SettleSound(c, ps, 0, [], s);
      case Convert(c) =>
        assert c == conv || (conv == NoneRequired && c == Direct);
        SettleSound(c, ps, i + 1, done + [ps[i]], s);
    }
  }

  // ----- the least class that will do

  /** What one field needs, taken alone. */
  function Needs(p: Pair, s: Setting): Class {
    if p.dynamic && Resized(p) then CopyDynamic
    else if p.destOffset != p.srcOffset || (p.srcElements != 1 && Resized(p)) || (Nested(p) && p.sub.value == Buffered) then Buffered
    else if Untouched(p, s) then NoneRequired
    else Direct
  }

  function Most(c: Class, d: Class): Class {
    if c.Rank() >= d.Rank() then c else d
  }

  function Needed(c: Class, ps: seq<Pair>, s: Setting): Class {
    if ps == [] then c else Most(Needs(ps[0], s), Needed(c, ps[1..], s))
  }

  lemma {:induction false} NeededCovers(c: Class, ps: seq<Pair>, s: Setting, k: nat)
    requires k < |ps|
    ensures Needed(c, ps, s).Rank() >= Needs(ps[k], s).Rank() && Needed(c, ps, s).Rank() >= c.Rank()
  {
    if k > 0 {
      NeededCovers(c, ps[1..], s, k - 1);
    } else {
      NeededStarts(c, ps[1..], s);
    }
  }

  lemma {:induction false} NeededStarts(c: Class, ps: seq<Pair>, s: Setting)
    ensures Needed(c, ps, s).Rank() >= c.Rank()
  {
    if ps != [] { NeededStarts(c, ps[1..], s); }
  }

  lemma {:induction false} NeededIsLeast(c: Class, ps: seq<Pair>, s: Setting, d: Class)
    requires c.Rank() <= d.Rank() && forall k :: 0 <= k < |ps| ==> Needs(ps[k], s).Rank() <= d.Rank()
    ensures Needed(c, ps, s).Rank() <= d.Rank()
  {
    if ps != [] {
      assert forall k :: 0 <= k < |ps| - 1 ==> ps[1..][k] == ps[k + 1];
      NeededIsLeast(c, ps[1..], s, d);
    }
  }

  /** When no array has to be transposed the planner settles on the least class that serves
      every field, whatever their order. */
  lemma {:induction false} SettleLeast(conv: Class, ps: seq<Pair>, i: nat, done: seq<Pair>, s: Setting, start: Class)
    requires i <= |ps| && !s.swapArrays
    requires start.Rank() <= conv.Rank() <= Needed(start, ps, s).Rank()
    requires forall k :: 0 <= k < i ==> Needs(ps[k], s).Rank() <= conv.Rank()
    ensures var r := Settle(conv, ps, i, done, s); r.Some? ==> r.value.kind == Needed(start, ps, s)
    decreases 3 - conv.Rank(), |ps| - i
  {
    hide Needed;
    if i < |ps| {
      NeededCovers(start, ps, s, i);
      match Decide(conv, ps[i], s)
      case Fail =>
      case Skip => SettleLeast(conv, ps, i + 1, done, s, start);
      case Restart(c) => SettleLeast(c, ps, 0, [], s, start);
      case Convert(c) => SettleLeast(c, ps, i + 1, done + [ps[i]], s, start);
    } else {
      NeededIsLeast(start, ps, s, conv);
    }
  }

  // ----- the class exactly, arrays to transpose or not

  /** A dynamic part whose elements change size. */
  predicate Stretches(p: Pair) {
    p.dynamic && Resized(p)
  }

  /** What a field restarts with while nothing is buffered, if it does. */
  function Trigger(p: Pair, s: Setting): Option<Class> {
    if p.destOffset != p.srcOffset then Some(Buffered)
    else if Identical(p, s) then None
    else if p.srcElements != 1 && Resized(p) then Some(Buffered)
    else if s.swapArrays && p.multiDim then Some(CopyDynamic)
    else if Nested(p) then (if p.sub.value == Buffered then Some(Buffered) else None)
    else if Stretches(p) then Some(CopyDynamic)
    else None
  }

  function FirstTrigger(ps: seq<Pair>, s: Setting): Option<Class> {
    if ps == [] then None
    else
      var t := Trigger(ps[0], s);
      if t.Some? then t else FirstTrigger(ps[1..], s)
  }

  predicate AnyStretches(ps: seq<Pair>) {
    exists k :: 0 <= k < |ps| && Stretches(ps[k])
  }

  predicate AllUntouched(ps: seq<Pair>, s: Setting) {
    forall k :: 0 <= k < |ps| ==> Untouched(ps[k], s)
  }

  /** The class a planner that settles has settled on: the order of the fields counts only for
      which of them triggers first. */
  function Final(start: Class, ps: seq<Pair>, s: Setting): Class {
    if start == CopyDynamic then CopyDynamic
    else
      var first := if start == Buffered then Some(Buffered) else FirstTrigger(ps, s);
      match first
      case None => if AllUntouched(ps, s) then start else Direct
      case Some(c) => if c == CopyDynamic || AnyStretches(ps) then CopyDynamic else Buffered
  }

  lemma {:induction false} FirstAt(ps: seq<Pair>, i: nat, s: Setting)
    requires i <= |ps| && forall k :: 0 <= k < i ==> Trigger(ps[k], s) == None
    ensures i == |ps| ==> FirstTrigger(ps, s) == None
    ensures i < |ps| && Trigger(ps[i], s).Some? ==> FirstTrigger(ps, s) == Trigger(ps[i], s)
  {
    hide Trigger;
    if i > 0 {
      assert forall k :: 0 <= k < |ps| - 1 ==> ps[1..][k] == ps[k + 1];
      FirstAt(ps[1..], i - 1, s);
    }
  }

  /** The state of the loop before field i. */
  ghost predicate Toward(conv: Class, ps: seq<Pair>, i: nat, s: Setting, start: Class)
    requires i <= |ps|
  {
    if conv.Rank() <= 1 then
      && start.Rank() <= 1 && (forall k :: 0 <= k < i ==> Trigger(ps[k], s) == None)
      && (conv == start ==> conv == Direct || forall k :: 0 <= k < i ==> Untouched(ps[k], s))
      && (conv != start ==> start == NoneRequired && conv == Direct && exists k :: 0 <= k < i && !Untouched(ps[k], s))
    else if conv == Buffered then
      && (start == Buffered || (start.Rank() <= 1 && FirstTrigger(ps, s) == Some(Buffered)))
      && forall k :: 0 <= k < i ==> !Stretches(ps[k])
    else Final(start, ps, s) == CopyDynamic
  }

  /** Decisions of the loop, in these terms. */
  lemma DecideTriggers(conv: Class, p: Pair, s: Setting)
    ensures conv.Rank() <= 1 && p.found ==>
      match Decide(conv, p, s)
      case Restart(c) => Trigger(p, s) == Some(c)
      case Skip => Trigger(p, s) == None && Untouched(p, s)
      case Convert(c) => Trigger(p, s) == None && !Untouched(p, s) && c == Direct
      case Fail => true
    ensures conv == Buffered && p.found ==>
      match Decide(conv, p, s)
      case Restart(c) => Stretches(p) && c == CopyDynamic
      case Skip => false
      case Convert(c) => !Stretches(p) && c == Buffered
      case Fail => true
    ensures conv == CopyDynamic ==> Decide(conv, p, s) == Convert(CopyDynamic) || Decide(conv, p, s) == Fail
  {
  }

  /** Main result. Whatever the order of fields and whether arrays are transposed, the planner
      settles on the class Final says. */
  lemma {:induction false} SettleExact(conv: Class, ps: seq<Pair>, i: nat, done: seq<Pair>, s: Setting, start: Class)
    requires i <= |ps| && Toward(conv, ps, i, s, start)
    ensures var r := Settle(conv, ps, i, done, s); r.Some? ==> r.value.kind == Final(start, ps, s)
    decreases 3 - conv.Rank(), |ps| - i
  {
    hide Decide, Trigger, FirstTrigger, Untouched, Stretches;
    if i < |ps| {
      FirstAtIf(conv, ps, i, s, start);
      DecideTriggers(conv, ps[i], s);
      NotFound(conv, ps[i], s);
      match Decide(conv, ps[i], s)
      case Fail =>
      case Skip => SettleExact(conv, ps, i + 1, done, s, start);
      case Restart(c) =>
        RestartToward(conv, ps, i, s, start, c);
        SettleExact(c, ps, 0, [], s, start);
      case Convert(c) => SettleExact(c, ps, i + 1, done + [ps[i]], s, start);
    } else {
      FirstAtIf(conv, ps, i, s, start);
    }
  }

  lemma FirstAtIf(conv: Class, ps: seq<Pair>, i: nat, s: Setting, start: Class)
    requires i <= |ps| && Toward(conv, ps, i, s, start)
    ensures conv.Rank() <= 1 && i == |ps| ==> FirstTrigger(ps, s) == None
    ensures conv.Rank() <= 1 && i < |ps| && Trigger(ps[i], s).Some? ==> FirstTrigger(ps, s) == Trigger(ps[i], s)
  {
    if conv.Rank() <= 1 { FirstAt(ps, i, s); }
  }

  lemma RestartToward(conv: Class, ps: seq<Pair>, i: nat, s: Setting, start: Class, c: Class)
    requires i < |ps| && Toward(conv, ps, i, s, start)
    requires conv.Rank() <= 1 ==> FirstTrigger(ps, s) == Some(c)
    requires conv == Buffered ==> Stretches(ps[i]) && c == CopyDynamic
    requires conv.Rank() < c.Rank()
    ensures Toward(c, ps, 0, s, start)
  {
    hide Trigger, FirstTrigger, Untouched, Stretches;
    TriggerIs(ps, s);
    if conv == Buffered { assert AnyStretches(ps); }
  }

  lemma NotFound(conv: Class, p: Pair, s: Setting)
    ensures !p.found ==> Decide(conv, p, s) == Fail
  {
  }

  lemma {:induction false} TriggerIs(ps: seq<Pair>, s: Setting)
    ensures FirstTrigger(ps, s) in {None, Some(Buffered), Some(CopyDynamic)}
  {
    if ps != [] { TriggerIs(ps[1..], s); }
  }

  // ----- what the order of the fields has to do with it

  /** No two of the fields are at one offset of the target. */
  ghost predicate OffsetsApart(ps: seq<Pair>) {
    forall k, l :: 0 <= k < l < |ps| ==> ps[k].destOffset != ps[l].destOffset
  }

  lemma SameHead(ps: seq<Pair>, qs: seq<Pair>)
    requires Ordered(ps) && Ordered(qs) && OffsetsApart(ps) && ps != [] && qs != []
    requires qs[0] in ps && ps[0] in qs
    ensures ps[0] == qs[0]
  {
    var k :| 0 <= k < |ps| && ps[k] == qs[0];
    var l :| 0 <= l < |qs| && qs[l] == ps[0];
    assert ps[0].destOffset <= ps[k].destOffset && qs[0].destOffset <= qs[l].destOffset;
  }

  lemma TailMultiset(ps: seq<Pair>)
    requires ps != []
    ensures multiset(ps[1..]) == multiset(ps) - multiset{ps[0]}
  {
    assert ps == [ps[0]] + ps[1..];
  }

  lemma {:induction false} OneOrder(ps: seq<Pair>, qs: seq<Pair>)
    requires Ordered(ps) && Ordered(qs) && OffsetsApart(ps) && multiset(ps) == multiset(qs)
    ensures ps == qs
  {
    assert |multiset(ps)| == |ps| && |multiset(qs)| == |qs|;
    if ps != [] {
      assert qs[0] in multiset(qs) && ps[0] in multiset(ps);
      SameHead(ps, qs);
      assert Ordered(ps[1..]) && Ordered(qs[1..]) && OffsetsApart(ps[1..]);
      hide Ordered, OffsetsApart;
      TailMultiset(ps);
      TailMultiset(qs);
      OneOrder(ps[1..], qs[1..]);
    }
  }

  /** The caller's order of the fields does not matter: the plan is the same. */
  lemma OrderFree(start: Class, ps: seq<Pair>, qs: seq<Pair>, s: Setting)
    requires multiset(ps) == multiset(qs) && OffsetsApart(ps)
    ensures Settle(start, SortByOffset(ps), 0, [], s) == Settle(start, SortByOffset(qs), 0, [], s)
  {
    SortOrdered(ps);
    SortOrdered(qs);
    SortApart(ps);
    OneOrder(SortByOffset(ps), SortByOffset(qs));
  }

  lemma {:induction false} SortApart(ps: seq<Pair>)
    requires OffsetsApart(ps)
    ensures OffsetsApart(SortByOffset(ps))
  {
    if ps != [] {
      SortApart(ps[1..]);
      SortOrdered(ps[1..]);
      forall q | q in SortByOffset(ps[1..])
        ensures q.destOffset != ps[0].destOffset
      {
        assert q in ps[1..];
      }
      InsertApart(ps[0], SortByOffset(ps[1..]));
    }
  }

  lemma {:induction false} InsertApart(p: Pair, ps: seq<Pair>)
    requires OffsetsApart(ps) && forall q :: q in ps ==> q.destOffset != p.destOffset
    ensures OffsetsApart(Insert(p, ps))
  {
    if ps != [] && p.destOffset >= ps[0].destOffset {
      InsertApart(p, ps[1..]);
      var r := Insert(p, ps[1..]);
      forall k | 0 <= k < |r|
        ensures r[k].destOffset != ps[0].destOffset
      {
        assert r[k] in multiset(r);
        assert r[k] == p || r[k] in ps[1..];
      }
    }
  }

  /** Of the fields that trigger, the one lowest in the target. */
  ghost predicate Lowest(ps: seq<Pair>, k: nat, s: Setting) {
    && k < |ps| && Trigger(ps[k], s).Some?
    && forall l :: 0 <= l < |ps| && Trigger(ps[l], s).Some? ==> ps[k].destOffset <= ps[l].destOffset
  }

  /** The layout of the target decides: the lowest of the fields that trigger is the first. */
  lemma LowestFirst(ps: seq<Pair>, k: nat, s: Setting)
    requires OffsetsApart(ps) && Lowest(ps, k, s)
    ensures FirstTrigger(SortByOffset(ps), s) == Trigger(ps[k], s)
  {
    hide Trigger;
    SortOrdered(ps);
    SortApart(ps);
    var r := SortByOffset(ps);
    assert ps[k] in r;
    var i :| 0 <= i < |r| && r[i] == ps[k];
    forall j | 0 <= j < i
      ensures Trigger(r[j], s) == None
    {
      assert r[j] in ps;
    }
    FirstAt(r, i, s);
  }

  /** Main result. When some field triggers, the plan copies everything if and only if a dynamic
      part stretches or the lowest field that triggers has to be transposed; otherwise it
      buffers. So where the fields lie in the target decides, not how the caller lists them. */
  lemma LayoutExact(start: Class, ps: seq<Pair>, k: nat, s: Setting)
    requires start.Rank() <= 1 && OffsetsApart(ps) && Lowest(ps, k, s)
    requires Settle(start, SortByOffset(ps), 0, [], s).Some?
    ensures Settle(start, SortByOffset(ps), 0, [], s).value.kind ==
      if Trigger(ps[k], s) == Some(CopyDynamic) || AnyStretches(ps) then CopyDynamic else Buffered
  {
    hide Settle, FirstTrigger, Trigger, Stretches, Untouched;
    var r := SortByOffset(ps);
    SettleExact(start, r, 0, [], s, start);
    LowestFirst(ps, k, s);
    SortStretches(ps);
  }

  lemma SortStretches(ps: seq<Pair>)
    ensures AnyStretches(SortByOffset(ps)) == AnyStretches(ps)
  {
    hide Stretches;
    var r := SortByOffset(ps);
    SortOrdered(ps);
    hide SortByOffset;
    assert AnyStretches(r) <==> exists p :: p in r && Stretches(p);
    assert AnyStretches(ps) <==> exists p :: p in ps && Stretches(p);
  }

  /** With arrays to transpose two layouts of one record settle differently: a moved field below
      a transposed one in the target asks for a buffer, above it everything is copied. */
  lemma LayoutMatters(moved: Pair, transposed: Pair, low: nat, high: nat, s: Setting)
    requires s.swapArrays && moved.found && transposed.found && !Clash(moved) && !Clash(transposed)
    requires !moved.dynamic && low < transposed.destOffset < high && moved.srcOffset != low && moved.srcOffset != high
    requires transposed.destOffset == transposed.srcOffset && transposed.multiDim && !transposed.dynamic && !Resized(transposed)
    ensures var below, above := moved.(destOffset := low), moved.(destOffset := high);
      && Settle(NoneRequired, SortByOffset([transposed, below]), 0, [], s) == Some(Plan(Buffered, [below, transposed]))
      && Settle(NoneRequired, SortByOffset([transposed, above]), 0, [], s) == Some(Plan(CopyDynamic, [transposed, above]))
  {
    hide Settle, SortByOffset;
    var below, above := moved.(destOffset := low), moved.(destOffset := high);
    SortTwo(transposed, below);
    SortTwo(transposed, above);
    SettleTwo(below, transposed, Buffered, s);
    SettleTwo(transposed, above, CopyDynamic, s);
  }

  lemma SortTwo(p: Pair, q: Pair)
    requires p.destOffset != q.destOffset
    ensures SortByOffset([p, q]) == if p.destOffset < q.destOffset then [p, q] else [q, p]
  {
    assert [p, q][1..] == [q] && [q][1..] == [];
    assert SortByOffset([q]) == [q];
  }

  /** The first of two fields restarts with c, which then suits both. */
  lemma SettleTwo(p: Pair, q: Pair, c: Class, s: Setting)
    requires Decide(NoneRequired, p, s) == Restart(c) && Decide(c, p, s) == Convert(c) && Decide(c, q, s) == Convert(c)
    ensures Settle(NoneRequired, [p, q], 0, [], s) == Some(Plan(c, [p, q]))
  {
    hide Decide;
    var ps := [p, q];
    assert [p] + [q] == ps && [] + [p] == [p];
    assert Settle(c, ps, 2, ps, s) == Some(Plan(c, ps));
    assert Settle(c, ps, 1, [p], s) == Settle(c, ps, 2, [p] + [q], s);
    assert Settle(c, ps, 0, [], s) == Settle(c, ps, 1, [] + [p], s);
  }
}
