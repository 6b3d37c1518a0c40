/** The virtual machine the generator targets: registers, labels, branches. */
module CodMachine {
  import opened CodSource

  datatype Instr =
    | Set(d: nat, v: int)
    | Mov(d: nat, s: nat)
    | Op(op: ArithOp, d: nat, a: nat, b: nat)
    | OpImm(op: ArithOp, d: nat, a: nat, v: int)
    | BranchZero(s: nat, l: nat)
    | BranchNonZero(s: nat, l: nat)
    | Branch(cmp: CmpOp, a: nat, b: nat, l: nat)
    | Jump(l: nat)
    | Mark(l: nat)
    | Ret(s: nat)

  datatype State = Run(pc: nat, regs: seq<int>) | Halted(v: int, regs: seq<int>) | Fault

  function Get(regs: seq<int>, r: nat): int {
    if r < |regs| then regs[r] else 0
  }

  function Put(regs: seq<int>, r: nat, v: int): (s: seq<int>)
    ensures |s| == |regs|
    ensures r < |regs| ==> Get(s, r) == v
    ensures forall k: nat :: k != r ==> Get(s, k) == Get(regs, k)
  {
    if r < |regs| then regs[r := v] else regs
  }

  /** Where a label is marked, the end of the code if nowhere. */
  function Find(code: seq<Instr>, l: nat, from: nat): (p: nat)
    requires from <= |code|
    ensures from <= p <= |code|
    ensures p < |code| ==> code[p] == Mark(l)
    ensures forall q :: from <= q < p ==> code[q] != Mark(l)
    decreases |code| - from
  {
    if from == |code| || code[from] == Mark(l) then from else Find(code, l, from + 1)
  }

  function PutResult(pc: nat, regs: seq<int>, d: nat, v: Option<int>): State {
    if v.None? then Fault else Run(pc + 1, Put(regs, d, v.value))
  }

  function Goto(code: seq<Instr>, l: nat, taken: bool, pc: nat, regs: seq<int>): State {
    Run(if taken then Find(code, l, 0) else pc + 1, regs)
  }

  /** What one instruction does. */
  function Effect(code: seq<Instr>, i: Instr, pc: nat, regs: seq<int>): State {
    match i
    case Set(d, v) => Run(pc + 1, Put(regs, d, v))
    case Mov(d, a) => Run(pc + 1, Put(regs, d, Get(regs, a)))
    case Op(op, d, a, b) => PutResult(pc, regs, d, Arith(op, Get(regs, a), Get(regs, b)))
    case OpImm(op, d, a, v) => PutResult(pc, regs, d, Arith(op, Get(regs, a), v))
    case BranchZero(a, l) => Goto(code, l, Get(regs, a) == 0, pc, regs)
    case BranchNonZero(a, l) => Goto(code, l, Get(regs, a) != 0, pc, regs)
    case Branch(cmp, a, b, l) => Goto(code, l, Holds(cmp, Get(regs, a), Get(regs, b)), pc, regs)
    case Jump(l) => Goto(code, l, true, pc, regs)
    case Mark(_) => Run(pc + 1, regs)
    case Ret(a) => Halted(Get(regs, a), regs)
  }

  /** Running off the end of the code stays there. */
  function Next1(code: seq<Instr>, s: State): State {
    if !s.Run? || s.pc >= |code| then s else Effect(code, code[s.pc], s.pc, s.regs)
  }

  function Steps(code: seq<Instr>, s: State, k: nat): State
    decreases k
  {
    if k == 0 then s else Steps(code, Next1(code, s), k - 1)
  }

  lemma {:induction false} StepsAdd(code: seq<Instr>, s: State, j: nat, k: nat)
    ensures Steps(code, s, j + k) == Steps(code, Steps(code, s, j), k)
    decreases j
  {
    if j > 0 {
      StepsAdd(code, Next1(code, s), j - 1, k);
    }
  }

  ghost predicate Reaches(code: seq<Instr>, s: State, t: State) {
    exists k: nat :: Steps(code, s, k) == t
  }

  lemma ReachSelf(code: seq<Instr>, s: State)
    ensures Reaches(code, s, s)
  {
    assert Steps(code, s, 0) == s;
  }

  lemma ReachThen(code: seq<Instr>, s: State, t: State, u: State)
    requires Reaches(code, s, t) && Reaches(code, t, u)
    ensures Reaches(code, s, u)
  {
    var j: nat :| Steps(code, s, j) == t;
    var k: nat :| Steps(code, t, k) == u;
    StepsAdd(code, s, j, k);
  }

  lemma ReachStep(code: seq<Instr>, s: State, t: State)
    requires Reaches(code, s, t)
    ensures Reaches(code, s, Next1(code, t))
  {
    hide Next1;
    assert Steps(code, t, 1) == Steps(code, Next1(code, t), 0);
    assert Reaches(code, t, Next1(code, t));
    ReachThen(code, s, t, Next1(code, t));
  }

  /** Still running after at least n steps. */
  ghost predicate Busy(code: seq<Instr>, s: State, n: nat) {
    exists k: nat :: k >= n && Live(code, s, k)
  }

  ghost predicate Live(code: seq<Instr>, s: State, k: nat) {
    var t := Steps(code, s, k);
    t.Run? && t.pc < |code|
  }

  lemma BusyAfter(code: seq<Instr>, s: State, t: State, n: nat)
    requires Reaches(code, s, t) && Busy(code, t, n)
    ensures Busy(code, s, n)
  {
    hide Steps;
    var j: nat :| Steps(code, s, j) == t;
    var k: nat :| k >= n && Live(code, t, k);
    StepsAdd(code, s, j, k);
    assert Live(code, s, j + k);
  }

  lemma BusyStep(code: seq<Instr>, s: State, n: nat)
    requires Busy(code, Next1(code, s), n)
    ensures Busy(code, s, n + 1)
  {
    var k: nat :| k >= n && Live(code, Next1(code, s), k);
    assert Steps(code, s, k + 1) == Steps(code, Next1(code, s), k);
    assert Live(code, s, k + 1);
  }

  ghost predicate Final(code: seq<Instr>, s: State) {
    !s.Run? || s.pc >= |code|
  }

  /** A machine that stopped has stopped for good. */
  lemma {:induction false} Stopped(code: seq<Instr>, s: State, k: nat)
    requires Final(code, s)
    ensures Steps(code, s, k) == s
    decreases k
  {
    if k > 0 {
      Stopped(code, s, k - 1);
    }
  }

  /** A run ends in one way only. */
  lemma OneEnd(code: seq<Instr>, s: State, t: State, u: State)
    requires Reaches(code, s, t) && Reaches(code, s, u) && Final(code, t) && Final(code, u)
    ensures t == u
  {
    var j: nat :| Steps(code, s, j) == t;
    var k: nat :| Steps(code, s, k) == u;
    if j <= k {
      StepsAdd(code, s, j, k - j);
      Stopped(code, t, k - j);
    } else {
      StepsAdd(code, s, k, j - k);
      Stopped(code, u, j - k);
    }
  }

  // ----- code in its place

  ghost predicate Placed(code: seq<Instr>, pc: nat, part: seq<Instr>) {
    pc + |part| <= |code| && code[pc..pc + |part|] == part
  }

  lemma PlacedSplit(code: seq<Instr>, pc: nat, a: seq<Instr>, b: seq<Instr>)
    requires Placed(code, pc, a + b)
    ensures Placed(code, pc, a) && Placed(code, pc + |a|, b)
  {
    assert code[pc..pc + |a + b|][..|a|] == a;
    assert code[pc..pc + |a + b|][|a|..] == b;
  }

  lemma PlacedAt(code: seq<Instr>, pc: nat, part: seq<Instr>, i: nat)
    requires Placed(code, pc, part) && i < |part|
    ensures pc + i < |code| && code[pc + i] == part[i]
  {
    assert code[pc..pc + |part|][i] == part[i];
  }

  /** The machine takes the step of instruction i of a piece in its place. */
  lemma Go(code: seq<Instr>, s: State, pc: nat, part: seq<Instr>, i: nat, regs: seq<int>)
    requires Placed(code, pc, part) && i < |part| && Reaches(code, s, Run(pc + i, regs))
    ensures Reaches(code, s, Effect(code, part[i], pc + i, regs))
  {
    hide Reaches, Effect;
    PlacedAt(code, pc, part, i);
    ReachStep(code, s, Run(pc + i, regs));
  }

  ghost predicate Unique(code: seq<Instr>) {
    forall p, q :: 0 <= p < q < |code| && code[p].Mark? && code[q].Mark? ==> code[p] != code[q]
  }

  lemma FindMark(code: seq<Instr>, p: nat, l: nat)
    requires Unique(code) && p < |code| && code[p] == Mark(l)
    ensures Find(code, l, 0) == p
  {
  }

  function Range(lo: nat, hi: nat): (s: set<nat>)
    ensures forall l: nat :: l in s <==> lo <= l < hi
  {
    if lo >= hi then {} else Range(lo, hi - 1) + {hi - 1}
  }

  /** The labels a piece of code marks are among those given, each marked at most once. */
  ghost predicate LabelsIn(code: seq<Instr>, labels: set<nat>) {
    && Unique(code)
    && forall p :: 0 <= p < |code| && code[p].Mark? ==> code[p].l in labels
  }

  lemma LabelsJoin(a: seq<Instr>, b: seq<Instr>, s: set<nat>, t: set<nat>)
    requires LabelsIn(a, s) && LabelsIn(b, t) && s !! t
    ensures LabelsIn(a + b, s + t)
  {
    var c := a + b;
    forall p, q | 0 <= p < q < |c| && c[p].Mark? && c[q].Mark?
      ensures c[p] != c[q]
    {
      assert p < |a| ==> c[p] == a[p];
      assert p >= |a| ==> c[p] == b[p - |a|];
      assert q < |a| ==> c[q] == a[q];
      assert q >= |a| ==> c[q] == b[q - |a|];
    }
  }

  lemma LabelsWiden(a: seq<Instr>, s: set<nat>, t: set<nat>)
    requires LabelsIn(a, s) && s <= t
    ensures LabelsIn(a, t)
  {
  }
}
