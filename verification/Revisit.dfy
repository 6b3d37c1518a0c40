/** When a pointer to a block converted before gets the block's address: the conversion as one
    list of steps, and how far the adjustment drifts between two of them. */
module Revisit {
  import opened Resize

  /** A pointer that is not NULL: text, a block met before, or one entered, which then adds
      `growth` to the adjustment. */
  datatype Step = Step(offset: nat, text: bool, enters: bool, size: int, growth: int)

  // ----- the walk as a list of steps

  function Steps(v: Visit, cur: nat): seq<Step>
    decreases v, 1
  {
    if v.offset == 0 then []
    else if v.target.Text? then [Step(v.offset, true, true, v.target.len, 0)]
    else if v.offset <= cur then [Step(v.offset, false, false, 0, 0)]
    else [Step(v.offset, false, true, DestSize(v.target), Growth(v.target))] + Trace(v.target.inside, v.offset)
  }

  function Trace(vs: seq<Visit>, cur: nat): seq<Step>
    decreases vs, 0
  {
    if vs == [] then [] else Steps(vs[0], cur) + Trace(vs[1..], CurAfter(vs[0], cur))
  }

  /** What a step adds to the adjustment before its address is given. */
  function Pad(s: Step, base: int, adjust: int): int {
    if s.text then 0 else Padding(base + s.offset + adjust)
  }

  function Address(s: Step, base: int, adjust: int): int {
    base + s.offset + adjust + Pad(s, base, adjust)
  }

  function Apply(s: Step, base: int, st: Status): Status {
    var dest := Address(s, base, st.adjust);
    Status(st.adjust + Pad(s, base, st.adjust) + s.growth, if s.enters && !s.text then s.offset else st.cur,
           if s.enters then st.log + [Block(dest, s.size, s.offset, !s.text)] else st.log,
           st.ptrs + [Given(s.offset, dest)])
  }

  function Run(ss: seq<Step>, base: int, st: Status): Status {
    if ss == [] then st else Run(ss[1..], base, Apply(ss[0], base, st))
  }

  lemma {:induction false} RunJoin(x: seq<Step>, y: seq<Step>, base: int, st: Status)
    ensures Run(x + y, base, st) == Run(y, base, Run(x, base, st))
    decreases |x|
  {
    hide Apply;
    if x == [] {
      assert x + y == y;
    } else {
      assert (x + y)[1..] == x[1..] + y;
      RunJoin(x[1..], y, base, Apply(x[0], base, st));
    }
  }

  lemma RunOne(s: Step, base: int, st: Status)
    ensures Run([s], base, st) == Apply(s, base, st)
  {
    assert [s][1..] == [];
  }

  lemma {:induction false} FollowRuns(v: Visit, base: int, st: Status)
    ensures Follow(v, base, st) == Run(Steps(v, st.cur), base, st) && Follow(v, base, st).cur == CurAfter(v, st.cur)
    decreases v, 1
  {
    hide Padding, Run, DestSize;
    if v.offset == 0 {
      RunNone(base, st);
    } else if v.target.Text? || v.offset <= st.cur {
      RunOne(Steps(v, st.cur)[0], base, st);
    } else {
      var s := Step(v.offset, false, true, DestSize(v.target), Growth(v.target));
      RunOne(s, base, st);
      var st1 := Apply(s, base, st);
      RunJoin([s], Trace(v.target.inside, v.offset), base, st);
      WalkRuns(v.target.inside, base, st1);
    }
  }

  lemma RunNone(base: int, st: Status)
    ensures Run([], base, st) == st
  {
  }

  /** The converter's walk is its steps one after the other. */
  lemma {:induction false} WalkRuns(vs: seq<Visit>, base: int, st: Status)
    ensures Walk(vs, base, st) == Run(Trace(vs, st.cur), base, st) && Walk(vs, base, st).cur == CurAll(vs, st.cur)
    decreases vs, 0
  {
    hide Follow, Run, Steps, CurAfter;
    if vs == [] {
      RunNone(base, st);
    } else {
      FollowRuns(vs[0], base, st);
      WalkRuns(vs[1..], base, Follow(vs[0], base, st));
      RunJoin(Steps(vs[0], st.cur), Trace(vs[1..], CurAfter(vs[0], st.cur)), base, st);
    }
  }

  // ----- how far the adjustment drifts

  /** The growths and paddings of the steps, together. */
  function Drift(ss: seq<Step>, base: int, adjust: int): int {
    if ss == [] then 0
    else
      var d := Pad(ss[0], base, adjust) + ss[0].growth;
      d + Drift(ss[1..], base, adjust + d)
  }

  lemma {:induction false} RunDrifts(ss: seq<Step>, base: int, st: Status)
    ensures Run(ss, base, st).adjust == st.adjust + Drift(ss, base, st.adjust)
    ensures |Run(ss, base, st).ptrs| == |st.ptrs| + |ss| && st.ptrs <= Run(ss, base, st).ptrs
    ensures st.log <= Run(ss, base, st).log
    decreases |ss|
  {
    hide Padding;
    if ss != [] {
      RunDrifts(ss[1..], base, Apply(ss[0], base, st));
    }
  }

  /** The state before step i. */
  function Before(ss: seq<Step>, i: nat, base: int, st: Status): Status
    requires i <= |ss|
  {
    Run(ss[..i], base, st)
  }

  /** The address step i gives its pointer, and the block it places. */
  lemma StepGives(ss: seq<Step>, i: nat, base: int, st: Status)
    requires i < |ss|
    ensures var r := Run(ss, base, st); var a := Address(ss[i], base, Before(ss, i, base, st).adjust);
      && |r.ptrs| == |st.ptrs| + |ss| && r.ptrs[|st.ptrs| + i] == Given(ss[i].offset, a)
      && (ss[i].enters ==> Block(a, ss[i].size, ss[i].offset, !ss[i].text) in r.log)
      && Before(ss, i + 1, base, st).adjust == Before(ss, i, base, st).adjust + Pad(ss[i], base, Before(ss, i, base, st).adjust) + ss[i].growth
  {
    hide Run, Address, Pad;
    var s0 := Before(ss, i, base, st);
    var s1 := Apply(ss[i], base, s0);
    assert ss == ss[..i] + [ss[i]] + ss[i + 1..] && ss[..i + 1] == ss[..i] + [ss[i]];
    RunJoin(ss[..i] + [ss[i]], ss[i + 1..], base, st);
    RunJoin(ss[..i], [ss[i]], base, st);
    RunOne(ss[i], base, s0);
    RunDrifts(ss[..i], base, st);
    RunDrifts(ss[i + 1..], base, s1);
    var r := Run(ss, base, st);
    assert r.ptrs[|st.ptrs| + i] == s1.ptrs[|st.ptrs| + i];
    if ss[i].enters { assert r.log[|s1.log| - 1] == s1.log[|s1.log| - 1]; }
  }

  /** The drift from the address of step i to step j: what i itself grew by, and what the steps
      in between grew and were padded by. */
  function DriftBetween(ss: seq<Step>, i: nat, j: nat, base: int, st: Status): int
    requires i < j < |ss|
  {
    ss[i].growth + Drift(ss[i + 1..j], base, Before(ss, i + 1, base, st).adjust)
  }

  lemma BeforeLater(ss: seq<Step>, i: nat, j: nat, base: int, st: Status)
    requires i < j < |ss|
    ensures Before(ss, j, base, st).adjust ==
      Before(ss, i, base, st).adjust + Pad(ss[i], base, Before(ss, i, base, st).adjust) + DriftBetween(ss, i, j, base, st)
  {
    hide Run, Pad, Drift;
    assert ss[..j] == ss[..i + 1] + ss[i + 1..j];
    RunJoin(ss[..i + 1], ss[i + 1..j], base, st);
    RunDrifts(ss[i + 1..j], base, Before(ss, i + 1, base, st));
    StepGives(ss, i, base, st);
  }

  /** Main result. Two pointers to one place get one address if and only if the adjustment has
      drifted by no more than the alignment makes up for. */
  lemma RevisitExact(vs: seq<Visit>, base: int, adjust: int, i: nat, j: nat)
    requires var ss := Trace(vs, 0); i < j < |ss| && !ss[i].text && !ss[j].text && ss[i].offset == ss[j].offset
    ensures var ss := Trace(vs, 0); var r := Walk(vs, base, Initial(adjust)); var d := DriftBetween(ss, i, j, base, Initial(adjust));
      && |r.ptrs| == |ss| && r.ptrs[i].offset == r.ptrs[j].offset == ss[i].offset
      && (ss[i].enters ==> Block(r.ptrs[i].dest, ss[i].size, ss[i].offset, true) in r.log)
      && (r.ptrs[j].dest == r.ptrs[i].dest <==> -8 < d <= 0)
  {
    hide Run, Drift, Padding, Trace, Walk;
    var ss, st := Trace(vs, 0), Initial(adjust);
    WalkRuns(vs, base, st);
    StepGives(ss, i, base, st);
    StepGives(ss, j, base, st);
    BeforeLater(ss, i, j, base, st);
    var a := Address(ss[i], base, Before(ss, i, base, st).adjust);
    PaddedAligned(base + ss[i].offset + Before(ss, i, base, st).adjust);
    PaddingLeast(base + ss[j].offset + Before(ss, j, base, st).adjust, a);
  }

  lemma PaddedAligned(a: int)
    ensures (a + Padding(a)) % 8 == 0
  {
  }

  // ----- in a message, where everything but text is at a multiple of 8

  ghost predicate OffsetsAligned(ss: seq<Step>) {
    forall i :: 0 <= i < |ss| && !ss[i].text ==> ss[i].offset % 8 == 0
  }

  /** The drift as the schema decides it: every pointer but text rounds it up to a multiple of
      8, every block entered adds its growth. */
  function Climb(ss: seq<Step>, x: int): int {
    if ss == [] then x
    else Climb(ss[1..], (if ss[0].text then x else x + Padding(x)) + ss[0].growth)
  }

  lemma PadShift(a: int, x: int)
    requires (a - x) % 8 == 0
    ensures Padding(a) == Padding(x)
  {
    var p := Padding(x);
    assert (a + p) % 8 == ((a - x) + (x + p)) % 8;
    PaddingUnique(a, p);
  }

  lemma PaddingUnique(a: int, p: int)
    requires 0 <= p < 8 && (a + p) % 8 == 0
    ensures Padding(a) == p
  {
    var q := Padding(a);
    assert (a + p - (a + q)) % 8 == 0;
  }

  lemma {:induction false} DriftClimbs(ss: seq<Step>, base: int, adjust: int, x: int)
    requires OffsetsAligned(ss) && (base + adjust - x) % 8 == 0
    ensures x + Drift(ss, base, adjust) == Climb(ss, x)
    decreases |ss|
  {
    hide Padding;
    if ss != [] {
      var s := ss[0];
      if !s.text {
        assert (base + s.offset + adjust - x) % 8 == 0;
        PadShift(base + s.offset + adjust, x);
      }
      var d := Pad(s, base, adjust) + s.growth;
      assert OffsetsAligned(ss[1..]) by { assert forall k :: 0 <= k < |ss| - 1 ==> ss[1..][k] == ss[k + 1]; }
      DriftClimbs(ss[1..], base, adjust + d, x + d);
    }
  }

  /** In a message the condition is one on the growths alone, whatever the addresses are. */
  lemma RevisitBySchema(vs: seq<Visit>, base: int, adjust: int, i: nat, j: nat)
    requires var ss := Trace(vs, 0);
      i < j < |ss| && !ss[i].text && !ss[j].text && ss[i].offset == ss[j].offset && OffsetsAligned(ss)
    ensures var ss := Trace(vs, 0); var r := Walk(vs, base, Initial(adjust));
      && |r.ptrs| == |ss| && r.ptrs[i].offset == r.ptrs[j].offset == ss[i].offset
      && (r.ptrs[j].dest == r.ptrs[i].dest <==> -8 < Climb(ss[i + 1..j], ss[i].growth) <= 0)
  {
    hide Run, Drift, Padding, Trace, Walk, Climb;
    var ss, st := Trace(vs, 0), Initial(adjust);
    RevisitExact(vs, base, adjust, i, j);
    StepGives(ss, i, base, st);
    var a := Before(ss, i, base, st).adjust;
    PaddedAligned(base + ss[i].offset + a);
    var mid := ss[i + 1..j];
    assert forall k :: 0 <= k < |mid| ==> mid[k] == ss[i + 1 + k];
    DriftClimbs(mid, base, Before(ss, i + 1, base, st).adjust, ss[i].growth);
  }

  lemma {:induction false} ClimbUp(ss: seq<Step>, x: int)
    requires x >= 0 && forall k :: 0 <= k < |ss| ==> ss[k].growth >= 0
    ensures Climb(ss, x) >= x
    ensures Climb(ss, x) == 0 <==> x == 0 && forall k :: 0 <= k < |ss| ==> ss[k].growth == 0
    decreases |ss|
  {
    if ss != [] {
      var y := (if ss[0].text then x else x + Padding(x)) + ss[0].growth;
      assert forall k :: 0 <= k < |ss| - 1 ==> ss[1..][k] == ss[k + 1];
      ClimbUp(ss[1..], y);
      assert y == 0 <==> x == 0 && ss[0].growth == 0;
    }
  }

  /** When nothing shrinks, exactly when nothing grew from the block's own growth on. */
  lemma RevisitWhenGrowing(vs: seq<Visit>, base: int, adjust: int, i: nat, j: nat)
    requires var ss := Trace(vs, 0);
      && i < j < |ss| && !ss[i].text && !ss[j].text && ss[i].offset == ss[j].offset && OffsetsAligned(ss)
      && forall k :: i <= k < j ==> ss[k].growth >= 0
    ensures var ss := Trace(vs, 0); var r := Walk(vs, base, Initial(adjust));
      && |r.ptrs| == |ss|
      && (r.ptrs[j].dest == r.ptrs[i].dest <==> forall k :: i <= k < j ==> ss[k].growth == 0)
  {
    hide Trace, Walk, Climb;
    var ss := Trace(vs, 0);
    RevisitBySchema(vs, base, adjust, i, j);
    var mid := ss[i + 1..j];
    assert forall k :: 0 <= k < |mid| ==> mid[k] == ss[i + 1 + k];
    ClimbUp(mid, ss[i].growth);
    assert (forall k :: i <= k < j ==> ss[k].growth == 0) <==> ss[i].growth == 0 && forall k :: 0 <= k < |mid| ==> mid[k].growth == 0 by {
      assert forall k :: i < k < j ==> ss[k] == mid[k - i - 1];
    }
  }
}
