/** The order of subformats: a depth-first walk that lists what a format contains before the
    format, turned around; and the alignment sweep that relies on it. */
module Topology {
  import opened Variant

  /** y can be reached from x by k references at most. */
  ghost predicate ReachIn(g: Graph, x: nat, y: nat, k: nat)
    requires ValidGraph(g)
    decreases k
  {
    x == y || (k > 0 && x < |g| && exists j :: 0 <= j < |g[x]| && ReachIn(g, g[x][j], y, k - 1))
  }

  ghost predicate Reach(g: Graph, x: nat, y: nat)
    requires ValidGraph(g)
  {
    exists k: nat :: ReachIn(g, x, y, k)
  }

  lemma ReachSelf(g: Graph, x: nat)
    requires ValidGraph(g)
    ensures Reach(g, x, x)
  {
    assert ReachIn(g, x, x, 0);
  }

  lemma ReachFrom(g: Graph, x: nat, j: nat, y: nat)
    requires ValidGraph(g) && x < |g| && j < |g[x]| && Reach(g, g[x][j], y)
    ensures Reach(g, x, y)
  {
    var k: nat :| ReachIn(g, g[x][j], y, k);
    assert ReachIn(g, x, y, k + 1);
  }

  lemma {:induction false} Steps(g: Graph, x: nat, y: nat, j: nat, k: nat)
    requires ValidGraph(g) && ReachIn(g, x, y, k) && y < |g| && j < |g[y]|
    ensures ReachIn(g, x, g[y][j], k + 1)
    decreases k
  {
    if x == y {
      assert ReachIn(g, g[x][j], g[y][j], k);
    } else {
      var i :| 0 <= i < |g[x]| && ReachIn(g, g[x][i], y, k - 1);
      Steps(g, g[x][i], y, j, k - 1);
    }
  }

  /** A set closed under references holds everything reachable from its members. */
  lemma {:induction false} ClosedHolds(g: Graph, s: seq<nat>, x: nat, y: nat, k: nat)
    requires ValidGraph(g) && x in s && ReachIn(g, x, y, k) && Closed(g, s)
    ensures y in s
    decreases k
  {
    if x != y {
      var j :| 0 <= j < |g[x]| && ReachIn(g, g[x][j], y, k - 1);
      assert HoldsRefs(g, s, x);
      ClosedHolds(g, s, g[x][j], y, k - 1);
    }
  }

  ghost predicate Closed(g: Graph, s: seq<nat>)
    requires ValidGraph(g)
  {
    forall x :: x in s ==> HoldsRefs(g, s, x)
  }

  /** The list has every format x refers to. */
  ghost predicate HoldsRefs(g: Graph, s: seq<nat>, x: nat)
    requires ValidGraph(g)
  {
    x < |g| && forall j :: 0 <= j < |g[x]| ==> g[x][j] in s
  }

  function Elements(s: seq<nat>): set<nat> {
    set x | x in s
  }

  ghost predicate Distinct(s: seq<nat>) {
    forall i, j :: 0 <= i < j < |s| ==> s[i] != s[j]
  }

  /** Containment goes down in rank: the graph has no cycles. */
  ghost predicate Ranked(g: Graph, rank: nat -> nat)
    requires ValidGraph(g)
  {
    forall x, j :: 0 <= x < |g| && 0 <= j < |g[x]| ==> rank(g[x][j]) < rank(x)
  }

  /** In the list, what a format refers to comes before it. */
  ghost predicate InOrder(g: Graph, s: seq<nat>)
    requires ValidGraph(g)
  {
    forall i :: 0 <= i < |s| ==> HoldsRefs(g, s[..i], s[i])
  }

  /** The two lists: everything listed has been visited, no repetitions. */
  ghost predicate Lists(g: Graph, visited: seq<nat>, sorted: seq<nat>) {
    && Distinct(visited) && Distinct(sorted)
    && (forall x :: x in sorted ==> x in visited) && (forall x :: x in visited ==> x < |g|)
  }

  /** What a call adds: the same formats to both lists, all reachable from f, all they refer
      to visited. */
  ghost predicate Added(g: Graph, f: nat, v0: seq<nat>, s0: seq<nat>, v: seq<nat>, s: seq<nat>)
    requires ValidGraph(g)
  {
    && v0 <= v && s0 <= s
    && (forall x :: x in v && x !in v0 <==> x in s && x !in s0)
    && (forall x :: x in s && x !in s0 ==> Reach(g, f, x) && HoldsRefs(g, v, x))
  }

  /** Formats visited but not yet listed are containers of f. */
  ghost predicate Containers(f: nat, v: seq<nat>, s: seq<nat>, rank: nat -> nat) {
    forall x :: x in v && x !in s ==> rank(x) > rank(f)
  }

  /** Part of the way through the references of f. */
  ghost predicate Under(g: Graph, f: nat, i: nat, v0: seq<nat>, s0: seq<nat>, v: seq<nat>, s: seq<nat>)
    requires ValidGraph(g) && f < |g| && i <= |g[f]|
  {
    && v0 + [f] <= v && s0 <= s && f !in s
    && (forall x :: x in v && x !in v0 && x != f <==> x in s && x !in s0)
    && (forall x :: x in s && x !in s0 ==> Reach(g, f, x) && HoldsRefs(g, v, x))
    && (forall j :: 0 <= j < i ==> g[f][j] in v)
  }

  lemma UnderStep(g: Graph, f: nat, i: nat, v0: seq<nat>, s0: seq<nat>, v: seq<nat>, s: seq<nat>, v1: seq<nat>, s1: seq<nat>)
    requires ValidGraph(g) && f < |g| && i < |g[f]| && Under(g, f, i, v0, s0, v, s) && Lists(g, v, s)
    requires Added(g, g[f][i], v, s, v1, s1) && g[f][i] in v1
    ensures Under(g, f, i + 1, v0, s0, v1, s1)
  {
    hide Reach, Lists;
    InPrefix(v0, f, v);
    InPrefix(v0, f, v1);
    Prefixed(s0, s);
    Prefixed(s, s1);
    Prefixed(v, v1);
    assert v0 <= v;
    Prefixed(v0, v);
    forall x | x in s1 && x !in s0
      ensures Reach(g, f, x) && HoldsRefs(g, v1, x)
    {
      if x !in s { ReachFrom(g, f, i, x); }
    }
  }

  lemma InPrefix(v0: seq<nat>, f: nat, v: seq<nat>)
    requires v0 + [f] <= v
    ensures f in v
  {
    assert v[|v0|] == (v0 + [f])[|v0|];
  }

  lemma Prefixed(s: seq<nat>, t: seq<nat>)
    requires s <= t
    ensures forall x :: x in s ==> x in t
  {
    forall x | x in s
      ensures x in t
    {
      var i :| 0 <= i < |s| && s[i] == x;
      assert t[i] == x;
    }
  }

  /** The order part: whatever f refers to so far is listed. */
  ghost predicate Ordered(g: Graph, f: nat, i: nat, s: seq<nat>)
    requires ValidGraph(g) && f < |g| && i <= |g[f]|
  {
    InOrder(g, s) && forall j :: 0 <= j < i ==> g[f][j] in s
  }

  lemma StillAbove(g: Graph, f: nat, i: nat, v0: seq<nat>, s0: seq<nat>, v: seq<nat>, s: seq<nat>, rank: nat -> nat)
    requires ValidGraph(g) && f < |g| && i < |g[f]| && Under(g, f, i, v0, s0, v, s) && Ranked(g, rank) && Containers(f, v0, s0, rank)
    ensures Containers(g[f][i], v, s, rank)
  {
    hide Reach;
    assert rank(g[f][i]) < rank(f);
  }

  lemma Finish(g: Graph, f: nat, v0: seq<nat>, s0: seq<nat>, v: seq<nat>, s: seq<nat>)
    requires ValidGraph(g) && f < |g| && Under(g, f, |g[f]|, v0, s0, v, s) && Lists(g, v, s) && f !in v0 && Lists(g, v0, s0)
    ensures Added(g, f, v0, s0, v, s + [f]) && Lists(g, v, s + [f])
    ensures Ordered(g, f, |g[f]|, s) ==> InOrder(g, s + [f])
  {
    hide Reach;
    ReachSelf(g, f);
    InPrefix(v0, f, v);
    Prefixed(s0, s);
    var t := s + [f];
    assert HoldsRefs(g, v, f);
    assert forall x :: x in t <==> x in s || x == f;
    if Ordered(g, f, |g[f]|, s) {
      forall i | 0 <= i < |t|
        ensures HoldsRefs(g, t[..i], t[i])
      {
        if i < |s| { assert t[..i] == s[..i] && HoldsRefs(g, s[..i], s[i]); } else { assert t[..i] == s; }
      }
    }
  }

  class Walk {
    var visited: seq<nat>
    var sorted: seq<nat>

    constructor ()
      ensures visited == [] && sorted == []
    {
      visited, sorted := [], [];
    }

    /** add_format, the references of a format being in name order. */
    method AddFormat(g: Graph, f: nat, ghost rank: nat -> nat)
      requires ValidGraph(g) && f < |g| && Lists(g, visited, sorted)
      modifies this
      ensures Lists(g, visited, sorted) && Added(g, f, old(visited), old(sorted), visited, sorted) && f in visited
      ensures f !in old(visited) ==> sorted != [] && sorted[|sorted| - 1] == f
      ensures Ranked(g, rank) && InOrder(g, old(sorted)) && Containers(f, old(visited), old(sorted), rank) ==> InOrder(g, sorted) && f in sorted
      decreases |g| - |visited|
    {
      hide Reach, Ranked, InOrder;
      if f in visited {
        return;
      }
      RoomLeft(visited, f, |g|);
      ghost var v0, s0 := visited, sorted;
      visited := visited + [f];
      var i := 0;
      while i < |g[f]|
        invariant 0 <= i <= |g[f]| && Lists(g, visited, sorted) && Under(g, f, i, v0, s0, visited, sorted) && |visited| > |v0|
        invariant Ranked(g, rank) && InOrder(g, s0) && Containers(f, v0, s0, rank) ==> Ordered(g, f, i, sorted)
      {
        ghost var v, s := visited, sorted;
        ghost var ordered := Ranked(g, rank) && InOrder(g, s0) && Containers(f, v0, s0, rank);
        if ordered { StillAbove(g, f, i, v0, s0, v, s, rank); }
        AddFormat(g, g[f][i], rank);
        UnderStep(g, f, i, v0, s0, v, s, visited, sorted);
        i := i + 1;
      }
      Finish(g, f, v0, s0, visited, sorted);
      sorted := sorted + [f];
    }
  }

  /** A list without repetitions that lacks a format is shorter than the number of formats. */
  lemma RoomLeft(s: seq<nat>, f: nat, n: nat)
    requires Distinct(s) && (forall x :: x in s ==> x < n) && f < n && f !in s
    ensures |s| < n
  {
    var e := Elements(s);
    DistinctSize(s);
    SizeOf(n);
    assert e <= Below(n) - {f};
    Sizes(e, Below(n) - {f});
  }

  lemma {:induction false} DistinctSize(s: seq<nat>)
    requires Distinct(s)
    ensures |Elements(s)| == |s|
  {
    if s != [] {
      var t := s[..|s| - 1];
      DistinctSize(t);
      assert s == t + [s[|s| - 1]];
      assert Elements(s) == Elements(t) + {s[|s| - 1]};
    }
  }

  function Below(n: nat): (s: set<nat>)
    ensures forall x: nat :: x in s <==> x < n
  {
    if n == 0 then {} else Below(n - 1) + {n - 1}
  }

  lemma {:induction false} SizeOf(n: nat)
    ensures |Below(n)| == n
  {
    if n > 0 { SizeOf(n - 1); }
  }

  lemma Sizes(a: set<nat>, b: set<nat>)
    requires a <= b
    ensures |a| <= |b|
  {
    assert b == a + (b - a);
  }

  // ----- the list of subformats

  /** The subformats of a format: everything reachable from it but itself, each once. */
  ghost predicate Subformats(g: Graph, top: nat, subs: seq<nat>)
    requires ValidGraph(g)
  {
    && Distinct(subs)
    && forall x :: x in subs <==> Reach(g, top, x) && x != top
  }

  /** Containing formats come before what they contain. */
  ghost predicate OuterFirst(g: Graph, subs: seq<nat>)
    requires ValidGraph(g)
  {
    forall i: nat, j: nat, k: nat :: i < |subs| && j < |subs| && Refers(g, subs[i], subs[j], k) ==> i < j
  }

  ghost predicate Refers(g: Graph, x: nat, y: nat, k: nat) {
    x < |g| && k < |g[x]| && g[x][k] == y
  }

  lemma AllReached(g: Graph, top: nat, v: seq<nat>)
    requires ValidGraph(g) && top < |g| && top in v
    requires forall x :: x in v ==> Reach(g, top, x) && HoldsRefs(g, v, x)
    ensures forall x :: x in v <==> Reach(g, top, x)
  {
    forall x: nat | Reach(g, top, x)
      ensures x in v
    {
      var k: nat :| ReachIn(g, top, x, k);
      ClosedHolds(g, v, top, x, k);
    }
  }

  /** Main result: topo_order_subformats lists exactly the formats reachable from the top one,
      each once; without cycles, containing formats come first. */
  method TopoOrderSubformats(g: Graph, top: nat, ghost rank: nat -> nat) returns (subs: seq<nat>)
    requires ValidGraph(g) && top < |g|
    ensures Subformats(g, top, subs)
    ensures Ranked(g, rank) ==> OuterFirst(g, subs)
  {
    hide Reach, Ranked, InOrder;
    var w := new Walk();
    NothingListed(g);
    w.AddFormat(g, top, rank);
    var sorted := w.sorted;
    var n := |sorted|;
    AllReached(g, top, sorted);
    subs := seq(n - 1, i requires 0 <= i < n - 1 => sorted[n - 2 - i]);
    Reversed(sorted, subs);
    if Ranked(g, rank) {
      ReversedOrder(g, sorted, subs);
    }
  }

  /** Entries in the arrays that add_format fills, the NULL at the end included. */
  const LIST_SIZE: nat := 100

  ghost function Reached(g: Graph, top: nat): set<nat>
    requires ValidGraph(g) && top < |g|
  {
    set x | 0 <= x < |g| && Reach(g, top, x)
  }

  /** The formats listed, the top one and the NULL stay within the arrays if and only if fewer
      than 100 formats are reachable. */
  lemma ListFits(g: Graph, top: nat, subs: seq<nat>)
    requires ValidGraph(g) && top < |g| && Subformats(g, top, subs)
    ensures |subs| + 2 <= LIST_SIZE <==> |Reached(g, top)| < 100
  {
    hide Reach;
    ReachSelf(g, top);
    ReachedInside(g, top);
    DistinctSize(subs);
    assert Reached(g, top) == Elements(subs) + {top};
  }

  lemma ReachedInside(g: Graph, top: nat)
    requires ValidGraph(g) && top < |g|
    ensures forall x: nat :: Reach(g, top, x) ==> x < |g|
  {
    forall x: nat | Reach(g, top, x)
      ensures x < |g|
    {
      var k: nat :| ReachIn(g, top, x, k);
      StepsInside(g, top, x, k);
    }
  }

  lemma {:induction false} StepsInside(g: Graph, x: nat, y: nat, k: nat)
    requires ValidGraph(g) && x < |g| && ReachIn(g, x, y, k)
    ensures y < |g|
    decreases k
  {
    if x != y {
      var j :| 0 <= j < |g[x]| && ReachIn(g, g[x][j], y, k - 1);
      StepsInside(g, g[x][j], y, k - 1);
    }
  }

  lemma NothingListed(g: Graph)
    requires ValidGraph(g)
    ensures InOrder(g, []) && Lists(g, [], [])
  {
  }

  lemma Reversed(sorted: seq<nat>, subs: seq<nat>)
    requires Distinct(sorted) && |subs| == |sorted| - 1
    requires forall i :: 0 <= i < |subs| ==> subs[i] == sorted[|sorted| - 2 - i]
    ensures Distinct(subs) && forall x :: x in subs <==> x in sorted && x != sorted[|sorted| - 1]
  {
    forall x | x in sorted && x != sorted[|sorted| - 1]
      ensures x in subs
    {
      var i :| 0 <= i < |sorted| && sorted[i] == x;
      assert subs[|sorted| - 2 - i] == x;
    }
  }

  lemma ReversedOrder(g: Graph, sorted: seq<nat>, subs: seq<nat>)
    requires ValidGraph(g) && InOrder(g, sorted) && Distinct(sorted) && |subs| == |sorted| - 1
    requires forall i :: 0 <= i < |subs| ==> subs[i] == sorted[|sorted| - 2 - i]
    ensures OuterFirst(g, subs)
  {
    forall i: nat, j: nat, k: nat | i < |subs| && j < |subs| && Refers(g, subs[i], subs[j], k)
      ensures i < j
    {
      var p := |sorted| - 2 - i;
      assert HoldsRefs(g, sorted[..p], sorted[p]);
      assert g[sorted[p]][k] in sorted[..p];
      var q :| 0 <= q < p && sorted[q] == subs[j];
    }
  }

  // ----- alignments

  /** A field: of a simple type, a string or anything else with an alignment of its own; a
      pointer to a format; or a format by value. */
  datatype FieldKind = Plain(align: nat) | Pointer(format: nat) | ByValue(format: nat)

  const PointerAlign: nat := 8

  /** The formats a format's fields refer to. */
  function Refs(fs: seq<FieldKind>): seq<nat> {
    if fs == [] then []
    else (if fs[0].Plain? then [] else [fs[0].format]) + Refs(fs[1..])
  }

  function GraphOf(formats: seq<seq<FieldKind>>): (g: Graph)
    ensures |g| == |formats|
  {
    seq(|formats|, i requires 0 <= i < |formats| => Refs(formats[i]))
  }

  lemma {:induction false} RefOf(fs: seq<FieldKind>, i: nat) returns (k: nat)
    requires i < |fs| && !fs[i].Plain?
    ensures k < |Refs(fs)| && Refs(fs)[k] == fs[i].format
  {
    if i == 0 {
      k := 0;
    } else {
      var j := RefOf(fs[1..], i - 1);
      k := j + if fs[0].Plain? then 0 else 1;
    }
  }

  function FieldAlign(f: FieldKind, al: seq<nat>): nat {
    match f
    case Plain(a) => a
    case Pointer(_) => PointerAlign
    case ByValue(x) => if x < |al| then al[x] else 0
  }

  /** The alignment of a format: the largest its fields need. */
  predicate IsLargest(a: nat, fs: seq<FieldKind>, al: seq<nat>) {
    && (forall i :: 0 <= i < |fs| ==> FieldAlign(fs[i], al) <= a)
    && exists i :: 0 <= i < |fs| && FieldAlign(fs[i], al) == a
  }

  predicate PlainAligned(fs: seq<FieldKind>) {
    forall i :: 0 <= i < |fs| && fs[i].Plain? ==> fs[i].align > 0
  }

  /** type_alignment does not trip on field i of format x: what it holds by value has its
      alignment, or is the format itself, which has one from its first field on. */
  predicate Known(formats: seq<seq<FieldKind>>, x: nat, i: nat, al: seq<nat>)
    requires x < |formats| && i < |formats[x]|
  {
    var kind := formats[x][i];
    kind.ByValue? ==> if kind.format == x then i > 0 else kind.format < |al| && al[kind.format] != 0
  }

  predicate AllKnown(formats: seq<seq<FieldKind>>, x: nat, al: seq<nat>)
    requires x < |formats|
  {
    forall i :: 0 <= i < |formats[x]| ==> Known(formats, x, i, al)
  }

  ghost predicate InTable(formats: seq<seq<FieldKind>>) {
    forall x, i :: 0 <= x < |formats| && 0 <= i < |formats[x]| && formats[x][i].ByValue? ==> formats[x][i].format < |formats|
  }

  /** set_alignment: false when the assertion on a field trips. */
  method SetAlignment(formats: seq<seq<FieldKind>>, f: nat, alignment: array<nat>) returns (ok: bool)
    requires f < |formats| == alignment.Length && alignment[f] == 0 && InTable(formats) && PlainAligned(formats[f])
    modifies alignment
    ensures ok <==> AllKnown(formats, f, old(alignment[..]))
    ensures ok ==> (alignment[f] > 0 <==> formats[f] != [])
    ensures ok && formats[f] != [] ==> IsLargest(alignment[f], formats[f], old(alignment[..]))
    ensures forall x :: 0 <= x < alignment.Length && x != f ==> alignment[x] == old(alignment[x])
  {
    ghost var al := alignment[..];
    var field := 0;
    while field < |formats[f]|
      invariant 0 <= field <= |formats[f]|
      invariant forall x :: 0 <= x < alignment.Length && x != f ==> alignment[x] == al[x]
      invariant forall i :: 0 <= i < field ==> Known(formats, f, i, al) && FieldAlign(formats[f][i], al) <= alignment[f]
      invariant field > 0 ==> alignment[f] > 0 && exists i :: 0 <= i < field && FieldAlign(formats[f][i], al) == alignment[f]
      invariant field == 0 ==> alignment[f] == 0
    {
      var kind := formats[f][field];
      var need := PointerAlign;
      match kind {
        case Plain(a) => need := a;
        case Pointer(_) =>
        case ByValue(x) =>
          if alignment[x] == 0 {
            assert !Known(formats, f, field, al);
            return false;
          }
          need := alignment[x];
      }
      if alignment[f] < need {
        alignment[f] := need;
      }
      field := field + 1;
    }
    ok := true;
  }

  /** What format x holds by value is a format of the list with fields, or, after its first
      field, x itself. */
  predicate HeldBy(formats: seq<seq<FieldKind>>, x: nat, later: seq<nat>)
    requires x < |formats|
  {
    forall i :: 0 <= i < |formats[x]| ==> HeldField(formats, x, i, later)
  }

  predicate HeldField(formats: seq<seq<FieldKind>>, x: nat, i: nat, later: seq<nat>)
    requires x < |formats| && i < |formats[x]|
  {
    var kind := formats[x][i];
    kind.ByValue? ==>
      if kind.format == x then i > 0 else kind.format in later && kind.format < |formats| && formats[kind.format] != []
  }

  /** In the list every format comes before what it holds by value, and what the top one holds
      is in it. */
  predicate HeldLater(formats: seq<seq<FieldKind>>, top: nat, subs: seq<nat>)
    requires top < |formats| && forall k :: 0 <= k < |subs| ==> subs[k] < |formats|
  {
    HeldBy(formats, top, subs) && HeldFrom(formats, subs, 0)
  }

  predicate HeldFrom(formats: seq<seq<FieldKind>>, subs: seq<nat>, i: nat)
    requires forall k :: 0 <= k < |subs| ==> subs[k] < |formats|
  {
    forall k :: i <= k < |subs| ==> HeldBy(formats, subs[k], subs[k + 1..])
  }

  lemma HeldOneMore(formats: seq<seq<FieldKind>>, subs: seq<nat>, i: nat)
    requires i < |subs| && (forall k :: 0 <= k < |subs| ==> subs[k] < |formats|) && HeldFrom(formats, subs, i + 1)
    ensures HeldFrom(formats, subs, i) <==> HeldBy(formats, subs[i], subs[i + 1..])
    ensures HeldFrom(formats, subs, 0) ==> HeldFrom(formats, subs, i)
  {
    hide HeldBy;
  }

  /** The formats of the list that have fields have an alignment, no others do. */
  ghost predicate Aligned(formats: seq<seq<FieldKind>>, s: seq<nat>, al: seq<nat>) {
    |al| == |formats| && forall x :: 0 <= x < |al| ==> (al[x] > 0 <==> x in s && formats[x] != [])
  }

  lemma KnownIsHeld(formats: seq<seq<FieldKind>>, x: nat, later: seq<nat>, al: seq<nat>)
    requires x < |formats| && Aligned(formats, later, al)
    ensures AllKnown(formats, x, al) <==> HeldBy(formats, x, later)
  {
    forall i | 0 <= i < |formats[x]|
      ensures Known(formats, x, i, al) <==> HeldField(formats, x, i, later)
    {
    }
  }

  /** Main result. The sweep over the list from its end, then the top format, trips on no
      format's alignment if and only if every format held by value comes later in the list;
      then exactly the formats with fields have an alignment. This holds for any list of
      distinct formats without the top one, of any graph. */
  method SweepAlignments(formats: seq<seq<FieldKind>>, top: nat, subs: seq<nat>, alignment: array<nat>) returns (ok: bool)
    requires |formats| == alignment.Length && top < |formats| && InTable(formats)
    requires Distinct(subs) && forall k :: 0 <= k < |subs| ==> subs[k] < |formats| && subs[k] != top
    requires forall f :: 0 <= f < |formats| ==> alignment[f] == 0 && PlainAligned(formats[f])
    modifies alignment
    ensures ok <==> HeldLater(formats, top, subs)
    ensures ok ==> Aligned(formats, subs + [top], alignment[..])
  {
    hide PlainAligned, IsLargest, Aligned, AllKnown, HeldBy, InTable, Distinct, HeldFrom;
    NoneAligned(formats, alignment[..]);
    HeldEnd(formats, subs);
    assert subs[|subs|..] == [];
    var i := |subs| - 1;
    while i >= 0
      invariant -1 <= i < |subs|
      invariant Aligned(formats, subs[i + 1..], alignment[..])
      invariant HeldFrom(formats, subs, i + 1)
    {
      ghost var al := alignment[..];
      NotYet(formats, subs, i, al);
      KnownIsHeld(formats, subs[i], subs[i + 1..], al);
      HeldOneMore(formats, subs, i);
      var fine := SetAlignment(formats, subs[i], alignment);
      if !fine { return false; }
      assert subs[i..] == [subs[i]] + subs[i + 1..];
      OneAligned(formats, subs[i], subs[i + 1..], al, alignment[..]);
      i := i - 1;
    }
    assert subs[0..] == subs;
    ghost var al := alignment[..];
    TopNotYet(formats, top, subs, al);
    KnownIsHeld(formats, top, subs, al);
    ok := SetAlignment(formats, top, alignment);
    if ok {
      OneAligned(formats, top, subs, al, alignment[..]);
      SameMembers(formats, [top] + subs, subs + [top], alignment[..]);
    }
  }

  lemma HeldEnd(formats: seq<seq<FieldKind>>, subs: seq<nat>)
    requires forall k :: 0 <= k < |subs| ==> subs[k] < |formats|
    ensures HeldFrom(formats, subs, |subs|)
  {
  }

  lemma NoneAligned(formats: seq<seq<FieldKind>>, al: seq<nat>)
    requires |al| == |formats| && forall x :: 0 <= x < |al| ==> al[x] == 0
    ensures Aligned(formats, [], al)
  {
  }

  lemma NotYet(formats: seq<seq<FieldKind>>, subs: seq<nat>, i: nat, al: seq<nat>)
    requires Distinct(subs) && i < |subs| && subs[i] < |formats| && Aligned(formats, subs[i + 1..], al)
    ensures subs[i] < |al| && al[subs[i]] == 0
  {
  }

  lemma TopNotYet(formats: seq<seq<FieldKind>>, top: nat, subs: seq<nat>, al: seq<nat>)
    requires top < |formats| && Aligned(formats, subs, al) && forall k :: 0 <= k < |subs| ==> subs[k] != top
    ensures top < |al| && al[top] == 0
  {
  }

  lemma OneAligned(formats: seq<seq<FieldKind>>, x: nat, s: seq<nat>, al: seq<nat>, al2: seq<nat>)
    requires x < |formats| && Aligned(formats, s, al) && |al2| == |al|
    requires al2[x] > 0 <==> formats[x] != []
    requires forall y :: 0 <= y < |al| && y != x ==> al2[y] == al[y]
    ensures Aligned(formats, [x] + s, al2)
  {
    assert forall y :: y in [x] + s <==> y == x || y in s;
  }

  lemma SameMembers(formats: seq<seq<FieldKind>>, s: seq<nat>, t: seq<nat>, al: seq<nat>)
    requires Aligned(formats, s, al) && forall y :: y in s <==> y in t
    ensures Aligned(formats, t, al)
  {
  }

  lemma InRange(g: Graph, top: nat, subs: seq<nat>)
    requires ValidGraph(g) && top < |g| && Subformats(g, top, subs)
    ensures (forall k :: 0 <= k < |subs| ==> subs[k] < |g| && subs[k] != top) && Distinct(subs)
  {
    forall k | 0 <= k < |subs|
      ensures subs[k] < |g| && subs[k] != top
    {
      assert subs[k] in subs;
      var n: nat :| ReachIn(g, top, subs[k], n);
      ReachRange(g, top, subs[k], n);
    }
  }

  lemma {:induction false} ReachRange(g: Graph, x: nat, y: nat, k: nat)
    requires ValidGraph(g) && x < |g| && ReachIn(g, x, y, k)
    ensures y < |g|
    decreases k
  {
    if x != y {
      var j :| 0 <= j < |g[x]| && ReachIn(g, g[x][j], y, k - 1);
      ReachRange(g, g[x][j], y, k - 1);
    }
  }

  lemma {:induction false} ReachRank(g: Graph, rank: nat -> nat, x: nat, y: nat, k: nat)
    requires ValidGraph(g) && Ranked(g, rank) && ReachIn(g, x, y, k)
    ensures y != x ==> rank(y) < rank(x)
    decreases k
  {
    if x != y {
      var j :| 0 <= j < |g[x]| && ReachIn(g, g[x][j], y, k - 1);
      ReachRank(g, rank, g[x][j], y, k - 1);
    }
  }

  /** What a format in reach refers to is in the list. */
  lemma Listed(g: Graph, top: nat, subs: seq<nat>, x: nat, k: nat, rank: nat -> nat)
    requires ValidGraph(g) && Ranked(g, rank) && Subformats(g, top, subs) && x < |g| && k < |g[x]| && (x == top || x in subs)
    ensures g[x][k] in subs
  {
    ReachSelf(g, top);
    assert Reach(g, top, x);
    var n: nat :| ReachIn(g, top, x, n);
    Steps(g, top, x, k, n);
    assert Reach(g, top, g[x][k]);
    ReachRank(g, rank, top, x, n);
    assert rank(g[x][k]) < rank(x);
  }

  /** On an acyclic graph of formats with fields, for the list that topo_order_subformats makes,
      the sweep does not trip. */
  lemma AcyclicHeldLater(formats: seq<seq<FieldKind>>, top: nat, subs: seq<nat>, rank: nat -> nat)
    requires ValidGraph(GraphOf(formats)) && top < |formats| && Ranked(GraphOf(formats), rank)
    requires Subformats(GraphOf(formats), top, subs) && OuterFirst(GraphOf(formats), subs)
    requires forall x :: 0 <= x < |formats| ==> formats[x] != []
    ensures forall k :: 0 <= k < |subs| ==> subs[k] < |formats|
    ensures HeldLater(formats, top, subs)
  {
    hide Subformats, Ranked;
    var g := GraphOf(formats);
    InRange(g, top, subs);
    forall i | 0 <= i < |formats[top]|
      ensures HeldField(formats, top, i, subs)
    {
      RefInList(formats, top, subs, top, i, rank);
    }
    forall k | 0 <= k < |subs|
      ensures HeldBy(formats, subs[k], subs[k + 1..])
    {
      var x, later := subs[k], subs[k + 1..];
      forall i | 0 <= i < |formats[x]|
        ensures HeldField(formats, x, i, later)
      {
        RefInList(formats, top, subs, x, i, rank);
        var kind := formats[x][i];
        if kind.ByValue? {
          var j :| 0 <= j < |subs| && subs[j] == kind.format;
          var r := RefOf(formats[x], i);
          assert Refers(g, x, subs[j], r);
          assert later[j - k - 1] == subs[j];
        }
      }
    }
  }

  lemma RefInList(formats: seq<seq<FieldKind>>, top: nat, subs: seq<nat>, x: nat, i: nat, rank: nat -> nat)
    requires ValidGraph(GraphOf(formats)) && top < |formats| && Ranked(GraphOf(formats), rank) && Subformats(GraphOf(formats), top, subs)
    requires x < |formats| && (x == top || x in subs) && i < |formats[x]|
    ensures formats[x][i].ByValue? ==> formats[x][i].format in subs && formats[x][i].format < |formats| && formats[x][i].format != x
  {
    hide Subformats;
    if formats[x][i].ByValue? {
      var g := GraphOf(formats);
      var r := RefOf(formats[x], i);
      assert g[x][r] == formats[x][i].format;
      Listed(g, top, subs, x, r, rank);
    }
  }

  lemma SameElements(s: seq<nat>, x: nat)
    requires |s| > 1 && forall j :: 0 <= j < |s| ==> s[j] == x
    ensures !Distinct(s)
  {
    assert s[0] == s[1];
  }

  lemma OnlyOne(s: seq<nat>, x: nat)
    requires Distinct(s) && x in s && forall y :: y in s ==> y == x
    ensures s == [x]
  {
    assert forall j :: 0 <= j < |s| ==> s[j] in s;
    if |s| > 1 {
      SameElements(s, x);
    }
  }

  /** With a cycle the condition can fail: a format that points to one holding it by value is
      aligned last, after the one that needs its alignment. */
  lemma CycleTrips(subs: seq<nat>)
    requires var formats := [[Pointer(1)], [ByValue(0)]]; ValidGraph(GraphOf(formats)) && Subformats(GraphOf(formats), 0, subs)
    ensures subs == [1] && !HeldLater([[Pointer(1)], [ByValue(0)]], 0, subs)
  {
    var formats := [[Pointer(1)], [ByValue(0)]];
    var g := GraphOf(formats);
    var k := RefOf([Pointer(1)], 0);
    assert Refs([Pointer(1)]) == [1] && Refs([ByValue(0)]) == [0];
    assert g[0] == [1] && g[1] == [0];
    assert ReachIn(g, 1, 1, 0);
    assert ReachIn(g, 0, 1, 1) by { assert ReachIn(g, g[0][0], 1, 0); }
    assert Reach(g, 0, 1);
    assert 1 in subs;
    forall x | x in subs
      ensures x == 1
    {
      var n: nat :| ReachIn(g, 0, x, n);
      ReachRange(g, 0, x, n);
    }
    OnlyOne(subs, 1);
    assert !HeldField(formats, 1, 0, subs[1..]);
    assert !HeldBy(formats, subs[0], subs[0 + 1..]);
  }

  // ----- what reaching and largest mean

  lemma {:induction false} PathOfReach(g: Graph, x: nat, y: nat, k: nat) returns (p: seq<nat>)
    requires ValidGraph(g) && x < |g| && ReachIn(g, x, y, k)
    ensures IsPath(g, p) && p[0] == x && p[|p| - 1] == y
    decreases k
  {
    if x == y {
      p := [x];
    } else {
      var j :| 0 <= j < |g[x]| && ReachIn(g, g[x][j], y, k - 1);
      var q := PathOfReach(g, g[x][j], y, k - 1);
      p := [x] + q;
      assert forall m :: 0 < m < |p| ==> p[m] == q[m - 1];
    }
  }

  lemma {:induction false} ReachOfPath(g: Graph, p: seq<nat>)
    requires ValidGraph(g) && IsPath(g, p)
    ensures ReachIn(g, p[0], p[|p| - 1], |p| - 1)
    decreases |p|
  {
    if |p| > 1 {
      var q := p[1..];
      assert forall m :: 0 <= m < |q| ==> q[m] == p[m + 1];
      ReachOfPath(g, q);
      var j :| 0 <= j < |g[p[0]]| && g[p[0]][j] == p[1];
      assert ReachIn(g, g[p[0]][j], p[|p| - 1], |p| - 2);
    }
  }

  /** What is listed is what a path of references leads to from the top format. */
  lemma ReachExact(g: Graph, x: nat, y: nat)
    requires ValidGraph(g) && x < |g|
    ensures Reach(g, x, y) <==> exists p :: IsPath(g, p) && p[0] == x && p[|p| - 1] == y
  {
    if Reach(g, x, y) {
      var k: nat :| ReachIn(g, x, y, k);
      var p := PathOfReach(g, x, y, k);
    }
    if p :| IsPath(g, p) && p[0] == x && p[|p| - 1] == y {
      ReachOfPath(g, p);
    }
  }

  /** What a format's alignment is at least: 8 with a pointer, that of every plain field and of
      every format held by value. */
  lemma LargestIs(a: nat, fs: seq<FieldKind>, al: seq<nat>, i: nat)
    requires IsLargest(a, fs, al) && i < |fs|
    ensures match fs[i]
      case Plain(b) => b <= a
      case Pointer(_) => 8 <= a
      case ByValue(x) => x < |al| ==> al[x] <= a
    ensures a > 0 ==> exists k :: 0 <= k < |fs| && match fs[k]
      case Plain(b) => b == a
      case Pointer(_) => a == 8
      case ByValue(x) => x < |al| && al[x] == a
  {
    var k :| 0 <= k < |fs| && FieldAlign(fs[k], al) == a;
    assert FieldAlign(fs[i], al) <= a;
  }
}
