/** Which formats of a registration are variable in length: those that can reach one that is,
    found by repeated passes over the formats. */
module Variant {
  /** For every format the formats its fields refer to. */
  type Graph = seq<seq<nat>>

  predicate ValidGraph(g: Graph) {
    forall i, k :: 0 <= i < |g| && 0 <= k < |g[i]| ==> g[i][k] < |g|
  }

  /** A format variant at the start is within k references of i. */
  ghost predicate Within(g: Graph, start: seq<bool>, i: nat, k: nat)
    requires |start| == |g| && ValidGraph(g)
    decreases k
  {
    i < |g| && (start[i] || (k > 0 && exists j :: 0 <= j < |g[i]| && Within(g, start, g[i][j], k - 1)))
  }

  ghost predicate CanReach(g: Graph, start: seq<bool>, i: nat)
    requires |start| == |g| && ValidGraph(g)
  {
    exists k: nat :: Within(g, start, i, k)
  }

  lemma ReachStep(g: Graph, start: seq<bool>, i: nat, j: nat)
    requires |start| == |g| && ValidGraph(g) && i < |g| && j < |g[i]| && CanReach(g, start, g[i][j])
    ensures CanReach(g, start, i)
  {
    var k: nat :| Within(g, start, g[i][j], k);
    assert Within(g, start, i, k + 1);
  }

  /** Some reference of i is flagged. */
  predicate Pulled(g: Graph, v: seq<bool>, i: nat)
    requires |v| == |g| && ValidGraph(g) && i < |g|
  {
    exists j :: 0 <= j < |g[i]| && v[g[i][j]]
  }

  /** Another pass would change nothing. */
  predicate Fixed(g: Graph, v: seq<bool>)
    requires |v| == |g| && ValidGraph(g)
  {
    forall i :: 0 <= i < |g| && Pulled(g, v, i) ==> v[i]
  }

  function Count(v: seq<bool>): nat {
    if v == [] then 0 else (if v[0] then 1 else 0) + Count(v[1..])
  }

  ghost predicate Above(v: seq<bool>, w: seq<bool>) {
    |v| == |w| && forall i :: 0 <= i < |v| && v[i] ==> w[i]
  }

  lemma {:induction false} CountGrows(v: seq<bool>, w: seq<bool>)
    requires Above(v, w)
    ensures Count(v) <= Count(w) <= |w| && (v != w ==> Count(v) < Count(w))
  {
    if v != [] {
      assert forall i :: 0 <= i < |v| - 1 ==> v[1..][i] == v[i + 1] && w[1..][i] == w[i + 1];
      CountGrows(v[1..], w[1..]);
      assert v == [v[0]] + v[1..] && w == [w[0]] + w[1..];
    }
  }

  lemma {:induction false} AllFlagged(v: seq<bool>)
    requires Count(v) >= |v|
    ensures forall i :: 0 <= i < |v| ==> v[i]
  {
    if v != [] {
      CountGrows(v[1..], v[1..]);
      AllFlagged(v[1..]);
      assert forall i :: 1 <= i < |v| ==> v[i] == v[1..][i - 1];
    }
  }

  /** At a fixed point everything that reaches a flagged format is flagged. */
  lemma {:induction false} FixedIsClosed(g: Graph, start: seq<bool>, v: seq<bool>, i: nat, k: nat)
    requires |start| == |g| && ValidGraph(g) && Above(start, v) && Fixed(g, v) && Within(g, start, i, k)
    ensures v[i]
    decreases k
  {
    if !start[i] {
      var j :| 0 <= j < |g[i]| && Within(g, start, g[i][j], k - 1);
      FixedIsClosed(g, start, v, g[i][j], k - 1);
      assert Pulled(g, v, i);
    }
  }

  /** Flags only where a variant format can be reached. */
  ghost predicate Justified(g: Graph, start: seq<bool>, v: seq<bool>)
    requires |start| == |g| && ValidGraph(g)
  {
    |v| == |g| && forall i :: 0 <= i < |v| && v[i] ==> CanReach(g, start, i)
  }

  /** One format: or in the flags of its references. */
  method BubbleOne(variant: array<bool>, g: Graph, i: nat, ghost start: seq<bool>)
    requires variant.Length == |g| && ValidGraph(g) && i < |g| && |start| == |g| && Justified(g, start, variant[..])
    modifies variant
    ensures Justified(g, start, variant[..]) && Above(old(variant[..]), variant[..])
    ensures variant[i] <==> old(variant[i]) || Pulled(g, old(variant[..]), i)
    ensures forall k :: 0 <= k < |g| && k != i ==> variant[k] == old(variant[k])
  {
    var field := 0;
    while field < |g[i]|
      invariant 0 <= field <= |g[i]| && Justified(g, start, variant[..]) && Above(old(variant[..]), variant[..])
      invariant forall k :: 0 <= k < |g| && k != i ==> variant[k] == old(variant[k])
      invariant forall j :: 0 <= j < field && old(variant[g[i][j]]) ==> variant[i]
      invariant variant[i] ==> old(variant[i]) || Pulled(g, old(variant[..]), i)
    {
      var sub := g[i][field];
      if variant[sub] {
        assert sub != i ==> old(variant[..])[sub];
        assert CanReach(g, start, sub);
        ReachStep(g, start, i, field);
        variant[i] := true;
      }
      field := field + 1;
    }
  }

  /** Main result. After as many passes as there are formats a format is flagged exactly when
      it can reach one that was variant at the start, however the formats refer to each other. */
  method BubbleVariant(variant: array<bool>, g: Graph)
    requires variant.Length == |g| && ValidGraph(g)
    modifies variant
    ensures forall i :: 0 <= i < |g| ==> (variant[i] <==> CanReach(g, old(variant[..]), i))
    ensures Fixed(g, variant[..])
  {
    ghost var start := variant[..];
    assert forall i :: 0 <= i < |g| && start[i] ==> Within(g, start, i, 0);
    var pass := 0;
    while pass < |g|
      invariant 0 <= pass <= |g| && Justified(g, start, variant[..]) && Above(start, variant[..])
      invariant Fixed(g, variant[..]) || Count(variant[..]) >= pass
    {
      ghost var before := variant[..];
      var j := 0;
      while j < |g|
        invariant 0 <= j <= |g| && Justified(g, start, variant[..]) && Above(before, variant[..])
        invariant forall k :: 0 <= k < j && Pulled(g, before, k) ==> variant[k]
        invariant Fixed(g, before) ==> variant[..] == before
      {
        ghost var mid := variant[..];
        BubbleOne(variant, g, j, start);
        PulledUp(g, before, mid, j);
        if Fixed(g, before) { assert variant[..] == mid; }
        j := j + 1;
      }
      CountGrows(before, variant[..]);
      pass := pass + 1;
    }
    if !Fixed(g, variant[..]) {
      AllFlagged(variant[..]);
    }
    forall i, k: nat | 0 <= i < |g| && Within(g, start, i, k)
      ensures variant[i]
    {
      FixedIsClosed(g, start, variant[..], i, k);
    }
  }

  lemma PulledUp(g: Graph, v: seq<bool>, w: seq<bool>, i: nat)
    requires ValidGraph(g) && Above(v, w) && |v| == |g| && i < |g|
    ensures Pulled(g, v, i) ==> Pulled(g, w, i)
  {
  }

  // ----- what reaching means

  /** A list of formats in which each refers to the next. */
  ghost predicate IsPath(g: Graph, p: seq<nat>) {
    && p != []
    && (forall k :: 0 <= k < |p| ==> p[k] < |g|)
    && forall k :: 0 < k < |p| ==> p[k] in g[p[k - 1]]
  }

  lemma {:induction false} PathOfSteps(g: Graph, start: seq<bool>, i: nat, k: nat) returns (p: seq<nat>)
    requires |start| == |g| && ValidGraph(g) && Within(g, start, i, k)
    ensures IsPath(g, p) && p[0] == i && start[p[|p| - 1]]
    decreases k
  {
    if start[i] {
      p := [i];
    } else {
      var j :| 0 <= j < |g[i]| && Within(g, start, g[i][j], k - 1);
      var q := PathOfSteps(g, start, g[i][j], k - 1);
      p := [i] + q;
      assert forall m :: 0 < m < |p| ==> p[m] == q[m - 1];
    }
  }

  lemma {:induction false} StepsOfPath(g: Graph, start: seq<bool>, p: seq<nat>)
    requires |start| == |g| && ValidGraph(g) && IsPath(g, p) && start[p[|p| - 1]]
    ensures Within(g, start, p[0], |p| - 1)
    decreases |p|
  {
    if |p| > 1 {
      var q := p[1..];
      assert forall m :: 0 <= m < |q| ==> q[m] == p[m + 1];
      StepsOfPath(g, start, q);
      var j :| 0 <= j < |g[p[0]]| && g[p[0]][j] == p[1];
      assert Within(g, start, g[p[0]][j], |p| - 2);
    }
  }

  /** A format is flagged exactly when a path of references leads from it to one that was
      variant at the start. */
  lemma CanReachExact(g: Graph, start: seq<bool>, i: nat)
    requires |start| == |g| && ValidGraph(g) && i < |g|
    ensures CanReach(g, start, i) <==> exists p :: IsPath(g, p) && p[0] == i && start[p[|p| - 1]]
  {
    if CanReach(g, start, i) {
      var k: nat :| Within(g, start, i, k);
      var p := PathOfSteps(g, start, i, k);
    }
    if p :| IsPath(g, p) && p[0] == i && start[p[|p| - 1]] {
      StepsOfPath(g, start, p);
    }
  }
}
