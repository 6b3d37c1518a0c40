/** The emitted code does what the language means, as emitted: for every statement, every
    state and every number of loop rounds. */
module CodCorrect {
  import opened CodSource
  import opened CodMachine
  import opened CodGen

  /** The registers of the locals hold the environment. */
  ghost predicate Agrees(regs: seq<int>, env: seq<int>) {
    |env| <= |regs| && regs[..|env|] == env
  }

  /** Temporaries already in use are untouched. */
  ghost predicate Kept(regs: seq<int>, after: seq<int>, locals: nat, n: nat) {
    |after| == |regs| && forall r: nat :: locals <= r < n ==> Get(after, r) == Get(regs, r)
  }

  lemma KeptThen(a: seq<int>, b: seq<int>, c: seq<int>, locals: nat, n: nat, j: nat, k: nat)
    requires Kept(a, b, locals, j) && Kept(b, c, locals, k) && n <= j && n <= k
    ensures Kept(a, c, locals, n)
  {
  }

  lemma PutTemp(regs: seq<int>, env: seq<int>, r: nat, v: int)
    requires Agrees(regs, env) && |env| <= r < |regs|
    ensures Agrees(Put(regs, r, v), env) && Kept(regs, Put(regs, r, v), |env|, r)
  {
    assert regs[r := v][..|env|] == regs[..|env|];
  }

  lemma PutLocal(regs: seq<int>, env: seq<int>, x: nat, v: int, n: nat)
    requires Agrees(regs, env) && x < |env|
    ensures Agrees(Put(regs, x, v), env[x := v]) && Kept(regs, Put(regs, x, v), |env|, n)
  {
    assert regs[x := v][..|env|] == regs[..|env|][x := v];
  }

  lemma GetLocal(regs: seq<int>, env: seq<int>, x: nat)
    requires Agrees(regs, env) && x < |env|
    ensures Get(regs, x) == env[x]
  {
    assert regs[..|env|][x] == env[x];
  }

  /** Where a piece leaves its value: a local's own register, or a temporary of the piece. */
  lemma {:induction false} PieceRegister(e: Expr, n: nat, lb: nat, locals: nat)
    requires ExprOk(e, locals)
    ensures var g := GenExpr(e, n, lb);
      if Home(e).Some? then g.reg == Home(e).value && g.reg < locals else n <= g.reg < g.nextReg
  {
    match e
    case UnaryPlus(a) => PieceRegister(a, n + 1, lb, locals);
    case Comma(l, r) =>
      var g := GenExpr(l, n, lb);
      PieceRegister(r, g.nextReg, g.nextLabel, locals);
    case _ =>
  }

  /** The code from pc on, ending at `to`, computes the value into register r. */
  ghost predicate Computes(code: seq<Instr>, pc: nat, to: nat, regs: seq<int>, after: seq<int>, want: Value, locals: nat, n: nat, r: nat) {
    if want.Trap? then Reaches(code, Run(pc, regs), Fault)
    else
      && Reaches(code, Run(pc, regs), Run(to, after))
      && Agrees(after, want.env) && Kept(regs, after, locals, n) && Get(after, r) == want.v
  }

  /** The whole code is well formed around the piece. */
  ghost predicate Ready(code: seq<Instr>, pc: nat, g: Piece, regs: seq<int>, env: seq<int>, n: nat) {
    Unique(code) && Placed(code, pc, g.code) && Agrees(regs, env) && |env| <= n && g.nextReg <= |regs|
  }

  lemma ReadyFirst(code: seq<Instr>, pc: nat, g: Piece, a: Piece, rest: seq<Instr>, regs: seq<int>, env: seq<int>, n: nat, m: nat)
    requires Ready(code, pc, g, regs, env, n) && g.code == a.code + rest && a.nextReg <= g.nextReg && n <= m
    ensures Ready(code, pc, a, regs, env, m) && Placed(code, pc + |a.code|, rest)
  {
    PlacedSplit(code, pc, a.code, rest);
  }

  /** A piece of an expression in its place, and the machine ready to run it. */
  ghost predicate Begin(code: seq<Instr>, pc: nat, e: Expr, n: nat, lb: nat, regs: seq<int>, env: seq<int>) {
    ExprOk(e, |env|) && Ready(code, pc, GenExpr(e, n, lb), regs, env, n)
  }

  /** What running it does. */
  ghost predicate End(code: seq<Instr>, pc: nat, e: Expr, n: nat, lb: nat, regs: seq<int>, env: seq<int>, after: seq<int>)
    requires ExprOk(e, |env|)
  {
    var g := GenExpr(e, n, lb);
    Computes(code, pc, pc + |g.code|, regs, after, Eval(Emitted, e, env), |env|, n, g.reg)
  }

  /** One more instruction that sets a temporary. */
  lemma SetTemp(code: seq<Instr>, s: State, regs: seq<int>, after: seq<int>, env: seq<int>, n: nat, m: nat, r: nat, v: int)
    requires Agrees(after, env) && Kept(regs, after, |env|, m) && n <= m && n <= r < |after| && |env| <= r
    ensures Agrees(Put(after, r, v), env) && Kept(regs, Put(after, r, v), |env|, n) && Get(Put(after, r, v), r) == v
  {
    PutTemp(after, env, r, v);
  }

  lemma {:induction false} OperandsRun(code: seq<Instr>, pc: nat, e: Expr, n: nat, lb: nat, regs: seq<int>, env: seq<int>) returns (after: seq<int>)
    requires (e.Binary? || e.Compare?) && ExprOk(e, |env|) && Unique(code) && Agrees(regs, env) && |env| <= n
    requires var g := GenExpr(e.left, n, lb); var h := GenExpr(e.right, g.nextReg, g.nextLabel);
      Placed(code, pc, g.code + h.code) && h.nextReg <= |regs|
    ensures var g := GenExpr(e.left, n, lb); var h := GenExpr(e.right, g.nextReg, g.nextLabel); var p := EvalBoth(Emitted, e, env);
      if p.NoPair? then Reaches(code, Run(pc, regs), Fault)
      else
        && Reaches(code, Run(pc, regs), Run(pc + |g.code| + |h.code|, after)) && Agrees(after, p.env)
        && Kept(regs, after, |env|, n) && Get(after, g.reg) == p.a && Get(after, h.reg) == p.b
    decreases e, 1
  {
    hide Reaches, Kept, Agrees, Unique, Placed, GenExpr, Home;
    var g := GenExpr(e.left, n, lb);
    var h := GenExpr(e.right, g.nextReg, g.nextLabel);
    PlacedSplit(code, pc, g.code, h.code);
    PieceRegister(e.left, n, lb, |env|);
    after := ExprRuns(code, pc, e.left, n, lb, regs, env);
    var a := Eval(Emitted, e.left, env);
    if a.Val? {
      var mid := after;
      KeptLength(regs, mid, |env|, n);
      after := ExprRuns(code, pc + |g.code|, e.right, g.nextReg, g.nextLabel, mid, a.env);
      var q := Run(pc + |g.code|, mid);
      var b := Eval(Emitted, e.right, a.env);
      if b.Trap? {
        ReachThen(code, Run(pc, regs), q, Fault);
      } else {
        ReachThen(code, Run(pc, regs), q, Run(pc + |g.code| + |h.code|, after));
        KeptThen(regs, mid, after, |env|, n, n, g.nextReg);
        if Home(e.left).Some? {
          GetLocal(after, b.env, Home(e.left).value);
        } else {
          KeptGet(mid, after, |env|, g.nextReg, g.reg);
        }
      }
    }
  }

  lemma KeptLength(a: seq<int>, b: seq<int>, locals: nat, n: nat)
    requires Kept(a, b, locals, n)
    ensures |a| == |b|
  {
  }

  lemma KeptGet(a: seq<int>, b: seq<int>, locals: nat, n: nat, r: nat)
    requires Kept(a, b, locals, n) && locals <= r < n
    ensures Get(b, r) == Get(a, r)
  {
  }

  lemma BinaryRuns(code: seq<Instr>, pc: nat, e: Expr, n: nat, lb: nat, regs: seq<int>, env: seq<int>) returns (after: seq<int>)
    requires e.Binary? && Begin(code, pc, e, n, lb, regs, env)
    ensures End(code, pc, e, n, lb, regs, env, after)
    decreases e, 2
  {
    hide Reaches, Kept, Agrees, Unique, Placed, Arith, EvalBoth, Put, Get;
    var g := GenExpr(e.left, n + 1, lb);
    var h := GenExpr(e.right, g.nextReg, g.nextLabel);
    var tail := [Op(e.op, n, g.reg, h.reg)];
    PlacedSplit(code, pc, g.code + h.code, tail);
    after := OperandsRun(code, pc, e, n + 1, lb, regs, env);
    var p := EvalBoth(Emitted, e, env);
    if p.Pair? {
      Go(code, Run(pc, regs), pc + |g.code + h.code|, tail, 0, after);
      var v := Arith(e.op, p.a, p.b);
      if v.Some? {
        KeptLength(regs, after, |env|, n + 1);
        SetTemp(code, Run(pc, regs), regs, after, p.env, n, n + 1, n, v.value);
        after := Put(after, n, v.value);
      }
    }
  }

  lemma AssignRuns(code: seq<Instr>, pc: nat, e: Expr, n: nat, lb: nat, regs: seq<int>, env: seq<int>) returns (after: seq<int>)
    requires e.Assign? && Begin(code, pc, e, n, lb, regs, env)
    ensures End(code, pc, e, n, lb, regs, env, after)
    decreases e, 2
  {
    hide Reaches, Kept, Agrees, Unique, Placed, Put, Get;
    var g, a := GenExpr(e, n, lb), GenExpr(e.e, n, lb);
    var tail := [Mov(e.x, a.reg)];
    ReadyFirst(code, pc, g, a, tail, regs, env, n, n);
    after := ExprRuns(code, pc, e.e, n, lb, regs, env);
    var r := Eval(Emitted, e.e, env);
    if r.Val? {
      Go(code, Run(pc, regs), pc + |a.code|, tail, 0, after);
      SetLocal(regs, after, r.env, e.x, r.v, n);
      after := Put(after, e.x, r.v);
    }
  }

  lemma SetLocal(regs: seq<int>, after: seq<int>, env: seq<int>, x: nat, v: int, n: nat)
    requires Agrees(after, env) && Kept(regs, after, |env|, n) && x < |env|
    ensures Agrees(Put(after, x, v), env[x := v]) && Kept(regs, Put(after, x, v), |env|, n) && Get(Put(after, x, v), x) == v
  {
    PutLocal(after, env, x, v, n);
  }

  lemma OpAssignRuns(code: seq<Instr>, pc: nat, e: Expr, n: nat, lb: nat, regs: seq<int>, env: seq<int>) returns (after: seq<int>)
    requires e.OpAssign? && Begin(code, pc, e, n, lb, regs, env)
    ensures End(code, pc, e, n, lb, regs, env, after)
    decreases e, 2
  {
    hide Reaches, Kept, Agrees, Unique, Placed, Put, Get, Arith;
    var g, a := GenExpr(e, n, lb), GenExpr(e.e, n, lb);
    var t := a.nextReg;
    var tail := [Op(e.op, t, e.x, a.reg), Mov(e.x, t)];
    ReadyFirst(code, pc, g, a, tail, regs, env, n, n);
    after := ExprRuns(code, pc, e.e, n, lb, regs, env);
    var r := Eval(Emitted, e.e, env);
    if r.Val? {
      var q := pc + |a.code|;
      GetLocal(after, r.env, e.x);
      KeptLength(regs, after, |env|, n);
      Go(code, Run(pc, regs), q, tail, 0, after);
      var v := Arith(e.op, r.env[e.x], r.v);
      if v.Some? {
        SetTemp(code, Run(pc, regs), regs, after, r.env, n, n, t, v.value);
        after := Put(after, t, v.value);
        Go(code, Run(pc, regs), q, tail, 1, after);
        SetLocal(regs, after, r.env, e.x, v.value, n);
        after := Put(after, e.x, v.value);
      }
    }
  }

  /** Negation, complement: an operator with a constant left operand. */
  lemma UnaryRuns(code: seq<Instr>, pc: nat, e: Expr, n: nat, lb: nat, regs: seq<int>, env: seq<int>) returns (after: seq<int>)
    requires (e.Negate? || e.BitNot?) && Begin(code, pc, e, n, lb, regs, env)
    ensures End(code, pc, e, n, lb, regs, env, after)
    decreases e, 2
  {
    hide Reaches, Kept, Agrees, Unique, Placed, Put, Get, Arith, Wrap;
    var g, a := GenExpr(e, n, lb), GenExpr(e.e, n + 1, lb);
    var t := a.nextReg;
    var c := if e.Negate? then 0 else -1;
    var tail := [Set(t, c), Op(if e.Negate? then Sub else BitXor, n, t, a.reg)];
    ReadyFirst(code, pc, g, a, tail, regs, env, n, n + 1);
    PieceRegister(e.e, n + 1, lb, |env|);
    after := ExprRuns(code, pc, e.e, n + 1, lb, regs, env);
    var r := Eval(Emitted, e.e, env);
    if r.Val? {
      var q := pc + |a.code|;
      KeptLength(regs, after, |env|, n + 1);
      Go(code, Run(pc, regs), q, tail, 0, after);
      SetTemp(code, Run(pc, regs), regs, after, r.env, n + 1, n + 1, t, c);
      GetOther(after, t, c, a.reg);
      after := Put(after, t, c);
      Go(code, Run(pc, regs), q, tail, 1, after);
      UnaryValue(e.Negate?, r.v);
      var v := if e.Negate? then Wrap(-r.v) else Wrap(-1 - r.v);
      SetTemp(code, Run(pc, regs), regs, after, r.env, n, n + 1, n, v);
      after := Put(after, n, v);
    }
  }

  lemma GetOther(regs: seq<int>, r: nat, v: int, k: nat)
    requires k != r
    ensures Get(Put(regs, r, v), k) == Get(regs, k)
  {
  }

  lemma UnaryValue(neg: bool, v: int)
    ensures Arith(if neg then Sub else BitXor, if neg then 0 else -1, v) == Some(if neg then Wrap(-v) else Wrap(-1 - v))
  {
    ComplementIsXor(v);
  }

  /** Logical negation: compare with zero. */
  lemma NotRuns(code: seq<Instr>, pc: nat, e: Expr, n: nat, lb: nat, regs: seq<int>, env: seq<int>) returns (after: seq<int>)
    requires e.Not? && Begin(code, pc, e, n, lb, regs, env)
    ensures End(code, pc, e, n, lb, regs, env, after)
    decreases e, 2
  {
    hide Reaches, Kept, Agrees, Unique, Placed, Put, Get, Find, Home;
    var g, a := GenExpr(e, n, lb), GenExpr(e.e, n + 1, lb);
    var t, lab := a.nextReg, a.nextLabel;
    var tail := [Set(t, 0), Set(n, 0), Branch(Neq, t, a.reg, lab), Set(n, 1), Mark(lab)];
    ReadyFirst(code, pc, g, a, tail, regs, env, n, n + 1);
    PieceRegister(e.e, n + 1, lb, |env|);
    after := ExprRuns(code, pc, e.e, n + 1, lb, regs, env);
    var r := Eval(Emitted, e.e, env);
    if r.Val? {
      var q := pc + |a.code|;
      var s0 := Run(pc, regs);
      KeptLength(regs, after, |env|, n + 1);
      Go(code, s0, q, tail, 0, after);
      SetTemp(code, s0, regs, after, r.env, n + 1, n + 1, t, 0);
      GetOther(after, t, 0, a.reg);
      after := Put(after, t, 0);
      Go(code, s0, q, tail, 1, after);
      SetTemp(code, s0, regs, after, r.env, n, n + 1, n, 0);
      GetOther(after, n, 0, a.reg);
      GetOther(after, n, 0, t);
      after := Put(after, n, 0);
      Go(code, s0, q, tail, 2, after);
      PlacedMark(code, q, tail, 4, lab);
      if r.v == 0 {
        Go(code, s0, q, tail, 3, after);
        SetTemp(code, s0, regs, after, r.env, n, n, n, 1);
        after := Put(after, n, 1);
      }
      Go(code, s0, q, tail, 4, after);
    }
  }

  lemma PlacedMark(code: seq<Instr>, pc: nat, part: seq<Instr>, i: nat, l: nat)
    requires Unique(code) && Placed(code, pc, part) && i < |part| && part[i] == Mark(l)
    ensures Find(code, l, 0) == pc + i
  {
    PlacedAt(code, pc, part, i);
    FindMark(code, pc + i, l);
  }

  lemma StepRuns(code: seq<Instr>, pc: nat, e: Expr, n: nat, lb: nat, regs: seq<int>, env: seq<int>) returns (after: seq<int>)
    requires e.Step? && Begin(code, pc, e, n, lb, regs, env)
    ensures End(code, pc, e, n, lb, regs, env, after)
    decreases e, 2
  {
    hide Reaches, Kept, Agrees, Unique, Placed, Put, Get, Wrap;
    var g := GenExpr(e, n, lb);
    var s0 := Run(pc, regs);
    var old_ := env[e.x];
    var v := Wrap(if e.up then old_ + 1 else old_ - 1);
    ReachSelf(code, s0);
    KeptSelf(regs, |env|, n);
    GetLocal(regs, env, e.x);
    if e.prefix {
      Go(code, s0, pc, g.code, 0, regs);
      SetLocal(regs, regs, env, e.x, v, n);
      after := Put(regs, e.x, v);
      KeptLength(regs, after, |env|, n);
      Go(code, s0, pc, g.code, 1, after);
      SetTemp(code, s0, regs, after, env[e.x := v], n, n, n + 1, v);
      after := Put(after, n + 1, v);
    } else {
      Go(code, s0, pc, g.code, 0, regs);
      SetTemp(code, s0, regs, regs, env, n, n, n + 1, old_);
      after := Put(regs, n + 1, old_);
      GetOther(regs, n + 1, old_, e.x);
      Go(code, s0, pc, g.code, 1, after);
      SetLocal(regs, after, env, e.x, v, n);
      GetOther(after, e.x, v, n + 1);
      after := Put(after, e.x, v);
    }
  }

  lemma KeptSelf(regs: seq<int>, locals: nat, n: nat)
    ensures Kept(regs, regs, locals, n)
  {
  }

  lemma LeafRuns(code: seq<Instr>, pc: nat, e: Expr, n: nat, lb: nat, regs: seq<int>, env: seq<int>) returns (after: seq<int>)
    requires (e.Const? || e.Var?) && Begin(code, pc, e, n, lb, regs, env)
    ensures End(code, pc, e, n, lb, regs, env, after)
  {
    hide Reaches, Kept, Agrees, Unique, Placed, Put, Get;
    var g := GenExpr(e, n, lb);
    ReachSelf(code, Run(pc, regs));
    KeptSelf(regs, |env|, n);
    after := regs;
    if e.Const? {
      Go(code, Run(pc, regs), pc, g.code, 0, regs);
      SetTemp(code, Run(pc, regs), regs, regs, env, n, n, n, e.v);
      after := Put(regs, n, e.v);
    } else {
      GetLocal(regs, env, e.x);
    }
  }

  lemma PlusRuns(code: seq<Instr>, pc: nat, e: Expr, n: nat, lb: nat, regs: seq<int>, env: seq<int>) returns (after: seq<int>)
    requires e.UnaryPlus? && Begin(code, pc, e, n, lb, regs, env)
    ensures End(code, pc, e, n, lb, regs, env, after)
    decreases e, 2
  {
    hide Reaches, Kept, Agrees, Unique, Placed, Put, Get;
    after := ExprRuns(code, pc, e.e, n + 1, lb, regs, env);
    if Eval(Emitted, e, env).Val? {
      KeptLess(regs, after, |env|, n + 1, n);
    }
  }

  lemma KeptLess(a: seq<int>, b: seq<int>, locals: nat, n: nat, m: nat)
    requires Kept(a, b, locals, n) && m <= n
    ensures Kept(a, b, locals, m)
  {
  }

  lemma CommaRuns(code: seq<Instr>, pc: nat, e: Expr, n: nat, lb: nat, regs: seq<int>, env: seq<int>) returns (after: seq<int>)
    requires e.Comma? && Begin(code, pc, e, n, lb, regs, env)
    ensures End(code, pc, e, n, lb, regs, env, after)
    decreases e, 2
  {
    hide Reaches, Kept, Agrees, Unique, Placed, Put, Get;
    var g := GenExpr(e.left, n, lb);
    var h := GenExpr(e.right, g.nextReg, g.nextLabel);
    ReadyFirst(code, pc, GenExpr(e, n, lb), g, h.code, regs, env, n, n);
    after := ExprRuns(code, pc, e.left, n, lb, regs, env);
    var a := Eval(Emitted, e.left, env);
    if a.Val? {
      var mid := after;
      var q := Run(pc + |g.code|, mid);
      KeptLength(regs, mid, |env|, n);
      after := ExprRuns(code, pc + |g.code|, e.right, g.nextReg, g.nextLabel, mid, a.env);
      var b := Eval(Emitted, e.right, a.env);
      if b.Trap? {
        ReachThen(code, Run(pc, regs), q, Fault);
      } else {
        ReachThen(code, Run(pc, regs), q, Run(pc + |g.code| + |h.code|, after));
        KeptThen(regs, mid, after, |env|, n, n, g.nextReg);
      }
    }
  }

  /** A branch ran: to `target` when the condition's truth is `reverse`, else to `past`. */
  ghost predicate Branched(code: seq<Instr>, pc: nat, target: nat, past: nat, reverse: bool, regs: seq<int>, after: seq<int>, r: Value, locals: nat, n: nat) {
    if r.Trap? then Reaches(code, Run(pc, regs), Fault)
    else
      && Reaches(code, Run(pc, regs), Run(if (r.v != 0) == reverse then target else past, after))
      && Agrees(after, r.env) && Kept(regs, after, locals, n)
  }

  /** The condition a branch really tests. */
  function Tested(e: Expr, reverse: bool): Expr {
    if reverse then BackEdge(Emitted, e) else e
  }

  lemma {:induction false} BranchRuns(code: seq<Instr>, pc: nat, e: Expr, target: nat, reverse: bool, n: nat, lb: nat, regs: seq<int>, env: seq<int>) returns (after: seq<int>)
    requires ExprOk(e, |env|) && Ready(code, pc, GenBranch(e, target, reverse, n, lb), regs, env, n)
    ensures var g := GenBranch(e, target, reverse, n, lb);
      Branched(code, pc, Find(code, target, 0), pc + |g.code|, reverse, regs, after, Eval(Emitted, Tested(e, reverse), env), |env|, n)
    decreases e, 4
  {
    hide Reaches, Kept, Agrees, Unique, Placed, Put, Get, Find, Holds, Eval, GenExpr;
    if e.Compare? {
      after := ComparisonRuns(code, pc, e, target, reverse, n, lb, regs, env);
    } else {
      var g, a := GenBranch(e, target, reverse, n, lb), GenExpr(e, n, lb);
      var tail := [BranchOn(!reverse, a.reg, target)];
      ReadyFirst(code, pc, g, a, tail, regs, env, n, n);
      after := ExprRuns(code, pc, e, n, lb, regs, env);
      if Eval(Emitted, e, env).Val? {
        Go(code, Run(pc, regs), pc + |a.code|, tail, 0, after);
      }
    }
  }

  lemma ComparisonRuns(code: seq<Instr>, pc: nat, e: Expr, target: nat, reverse: bool, n: nat, lb: nat, regs: seq<int>, env: seq<int>) returns (after: seq<int>)
    requires e.Compare? && ExprOk(e, |env|) && Ready(code, pc, GenBranch(e, target, reverse, n, lb), regs, env, n)
    ensures var g := GenBranch(e, target, reverse, n, lb);
      Branched(code, pc, Find(code, target, 0), pc + |g.code|, reverse, regs, after, Eval(Emitted, Tested(e, reverse), env), |env|, n)
    decreases e, 2
  {
    hide Reaches, Kept, Agrees, Unique, Placed, Put, Get, Find, Holds, Eval, EvalBoth, GenExpr, Tested;
    var g := GenExpr(e.left, n, lb);
    var h := GenExpr(e.right, g.nextReg, g.nextLabel);
    var tail := [Branch(if reverse then Direct(e.cmp) else Reverse(e.cmp), g.reg, h.reg, target)];
    PlacedSplit(code, pc, g.code + h.code, tail);
    after := OperandsRun(code, pc, e, n, lb, regs, env);
    var p := EvalBoth(Emitted, e, env);
    TestedOperands(e, reverse, env);
    if p.Pair? {
      Go(code, Run(pc, regs), pc + |g.code + h.code|, tail, 0, after);
    }
  }

  lemma TestedOperands(e: Expr, reverse: bool, env: seq<int>)
    requires e.Compare? && ExprOk(e, |env|)
    ensures var p := EvalBoth(Emitted, e, env); var r := Eval(Emitted, Tested(e, reverse), env);
      if p.NoPair? then r.Trap?
      else r == Val(Truth(Holds(if reverse then Direct(e.cmp) else e.cmp, p.a, p.b)), p.env)
  {
    var t := Tested(e, reverse);
    assert t.left == e.left && t.right == e.right;
    assert EvalBoth(Emitted, t, env) == EvalBoth(Emitted, e, env);
  }

  lemma CompareRuns(code: seq<Instr>, pc: nat, e: Expr, n: nat, lb: nat, regs: seq<int>, env: seq<int>) returns (after: seq<int>)
    requires e.Compare? && Begin(code, pc, e, n, lb, regs, env)
    ensures End(code, pc, e, n, lb, regs, env, after)
    decreases e, 5
  {
    hide Reaches, Kept, Agrees, Unique, Placed, Put, Get, GenBranch, Find, Holds;
    var b := GenBranch(e, lb, false, n + 1, lb + 1);
    var s0 := Run(pc, regs);
    var head, tail := [Set(n, 0)], [Set(n, 1), Mark(lb)];
    PlacedSplit(code, pc, head + b.code, tail);
    PlacedSplit(code, pc, head, b.code);
    PlacedMark(code, pc + |head + b.code|, tail, 1, lb);
    ReachSelf(code, s0);
    KeptSelf(regs, |env|, n);
    Go(code, s0, pc, head, 0, regs);
    SetTemp(code, s0, regs, regs, env, n, n, n, 0);
    var mid := Put(regs, n, 0);
    after := BranchRuns(code, pc + 1, e, lb, false, n + 1, lb + 1, mid, env);
    var r := Eval(Emitted, e, env);
    if r.Trap? {
      ReachThen(code, s0, Run(pc + 1, mid), Fault);
    } else {
      var q := pc + |head + b.code|;
      KeptLength(mid, after, |env|, n + 1);
      KeptGet(mid, after, |env|, n + 1, n);
      KeptThen(regs, mid, after, |env|, n, n, n + 1);
      if r.v == 0 {
        ReachThen(code, s0, Run(pc + 1, mid), Run(q + 1, after));
      } else {
        ReachThen(code, s0, Run(pc + 1, mid), Run(q, after));
        Go(code, s0, q, tail, 0, after);
        SetTemp(code, s0, regs, after, r.env, n, n, n, 1);
        after := Put(after, n, 1);
      }
      Go(code, s0, q, tail, 1, after);
    }
  }

  lemma CondRuns(code: seq<Instr>, pc: nat, e: Expr, n: nat, lb: nat, regs: seq<int>, env: seq<int>) returns (after: seq<int>)
    requires e.Cond? && Begin(code, pc, e, n, lb, regs, env)
    ensures End(code, pc, e, n, lb, regs, env, after)
    decreases e, 2
  {
    hide Reaches, Kept, Agrees, Unique, Placed, Put, Get, GenBranch, Find, GenExpr, Eval;
    CondShape(e, n, lb);
    CondMeaning(e, env);
    var t := GenBranch(e.c, lb, false, n + 1, lb + 2);
    var g := GenExpr(e.left, t.nextReg, t.nextLabel);
    var h := GenExpr(e.right, g.nextReg, g.nextLabel);
    var s0 := Run(pc, regs);
    var thenTail, elseTail := [Mov(n, g.reg), Jump(lb + 1), Mark(lb)], [Mov(n, h.reg), Mark(lb + 1)];
    var pThen := pc + |t.code|;
    var pTail := pThen + |g.code|;
    var pElse := pThen + |g.code + thenTail|;
    var pTail2 := pElse + |h.code|;
    ArmsPlaced(code, pc, t.code, g.code, thenTail, h.code, elseTail);
    PlacedMark(code, pTail, thenTail, 2, lb);
    PlacedMark(code, pTail2, elseTail, 1, lb + 1);
    after := BranchRuns(code, pc, e.c, lb, false, n + 1, lb + 2, regs, env);
    var r := Eval(Emitted, e.c, env);
    if r.Val? {
      var mid := after;
      KeptLength(regs, mid, |env|, n + 1);
      if r.v != 0 {
        after := ExprRuns(code, pThen, e.left, t.nextReg, t.nextLabel, mid, r.env);
        var v := Eval(Emitted, e.left, r.env);
        ArmRuns(code, s0, pThen, pTail, regs, mid, after, v, |env|, n, t.nextReg, g.reg);
        if v.Val? {
          Go(code, s0, pTail, thenTail, 0, after);
          after := Put(after, n, v.v);
          Go(code, s0, pTail, thenTail, 1, after);
          Go(code, s0, pTail2, elseTail, 1, after);
        }
      } else {
        Go(code, s0, pTail, thenTail, 2, mid);
        after := ExprRuns(code, pElse, e.right, g.nextReg, g.nextLabel, mid, r.env);
        var v := Eval(Emitted, e.right, r.env);
        ArmRuns(code, s0, pElse, pTail2, regs, mid, after, v, |env|, n, g.nextReg, h.reg);
        if v.Val? {
          Go(code, s0, pTail2, elseTail, 0, after);
          after := Put(after, n, v.v);
          Go(code, s0, pTail2, elseTail, 1, after);
        }
      }
    }
  }

  /** The value of a conditional, spelled out. */
  lemma CondMeaning(e: Expr, env: seq<int>)
    requires e.Cond? && ExprOk(e, |env|)
    ensures ExprOk(e.c, |env|) && ExprOk(e.left, |env|) && ExprOk(e.right, |env|)
    ensures var r := Eval(Emitted, e.c, env);
      Eval(Emitted, e, env) == if r.Trap? then Trap else Eval(Emitted, if r.v != 0 then e.left else e.right, r.env)
  {
  }

  /** A test and two arms, each with instructions of its own at the end. */
  lemma ArmsPlaced(code: seq<Instr>, pc: nat, t: seq<Instr>, g: seq<Instr>, a: seq<Instr>, h: seq<Instr>, b: seq<Instr>)
    requires Placed(code, pc, t + (g + a) + (h + b))
    ensures Placed(code, pc, t) && Placed(code, pc + |t|, g) && Placed(code, pc + |t| + |g|, a)
    ensures Placed(code, pc + |t| + |g| + |a|, h) && Placed(code, pc + |t| + |g| + |a| + |h|, b)
  {
    hide Placed;
    PlacedSplit(code, pc, t + (g + a), h + b);
    PlacedSplit(code, pc, t, g + a);
    PlacedSplit(code, pc + |t|, g, a);
    PlacedSplit(code, pc + |t| + |g| + |a|, h, b);
  }

  lemma LogicMeaning(e: Expr, n: nat, lb: nat, env: seq<int>)
    requires e.Logic? && ExprOk(e, |env|)
    ensures var g := GenExpr(e.left, n + 1, lb);
      var res, lab := g.nextReg, g.nextLabel;
      var h := GenExpr(e.right, res + 1, lab + 1);
      GenExpr(e, n, lb) ==
        Piece(g.code + [Set(res, Truth(!e.isAnd)), BranchOn(e.isAnd, g.reg, lab)]
              + h.code + [BranchOn(e.isAnd, h.reg, lab), Set(res, Truth(e.isAnd)), Mark(lab)], res, h.nextReg, h.nextLabel)
    ensures ExprOk(e.left, |env|) && ExprOk(e.right, |env|)
    ensures var a := Eval(Emitted, e.left, env);
      Eval(Emitted, e, env) ==
        if a.Trap? then Trap
        else if (a.v != 0) != e.isAnd then Val(Truth(!e.isAnd), a.env)
        else var b := Eval(Emitted, e.right, a.env);
          if b.Trap? then Trap else Val(Truth(b.v != 0), b.env)
  {
  }

  /** A value was computed after the condition and is about to be moved to register n. */
  lemma ArmRuns(code: seq<Instr>, s0: State, pc: nat, to: nat, regs: seq<int>, mid: seq<int>, after: seq<int>, v: Value, locals: nat, n: nat, m: nat, r: nat)
    requires Reaches(code, s0, Run(pc, mid)) && Kept(regs, mid, locals, n + 1) && locals <= n < m && n < |regs|
    requires Computes(code, pc, to, mid, after, v, locals, m, r) && (v.Val? ==> |v.env| == locals)
    ensures v.Trap? ==> Reaches(code, s0, Fault)
    ensures v.Val? ==>
      && Reaches(code, s0, Run(to, after)) && Get(after, r) == v.v
      && Agrees(Put(after, n, v.v), v.env) && Kept(regs, Put(after, n, v.v), locals, n) && Get(Put(after, n, v.v), n) == v.v
  {
    hide Reaches, Kept, Agrees, Put, Get;
    if v.Trap? {
      ReachThen(code, s0, Run(pc, mid), Fault);
    } else {
      ReachThen(code, s0, Run(pc, mid), Run(to, after));
      KeptThen(regs, mid, after, locals, n, n + 1, m);
      KeptLength(regs, after, locals, n);
      SetTemp(code, s0, regs, after, v.env, n, n, n, v.v);
    }
  }

  /** Short-circuit `and` and `or`. */
  lemma LogicRuns(code: seq<Instr>, pc: nat, e: Expr, n: nat, lb: nat, regs: seq<int>, env: seq<int>) returns (after: seq<int>)
    requires e.Logic? && Begin(code, pc, e, n, lb, regs, env)
    ensures End(code, pc, e, n, lb, regs, env, after)
    decreases e, 2
  {
    hide Reaches, Kept, Agrees, Unique, Placed, Put, Get, Find, GenExpr, Eval, Home, ExprOk;
    LogicMeaning(e, n, lb, env);
    var g := GenExpr(e.left, n + 1, lb);
    var res, lab := g.nextReg, g.nextLabel;
    var h := GenExpr(e.right, res + 1, lab + 1);
    var s0 := Run(pc, regs);
    var first := [Set(res, Truth(!e.isAnd)), BranchOn(e.isAnd, g.reg, lab)];
    var last := [BranchOn(e.isAnd, h.reg, lab), Set(res, Truth(e.isAnd)), Mark(lab)];
    var p1 := pc + |g.code|;
    var p2 := pc + |g.code + first|;
    var p3 := pc + |g.code + first + h.code|;
    PlacedSplit(code, pc, g.code + first + h.code, last);
    PlacedSplit(code, pc, g.code + first, h.code);
    PlacedSplit(code, pc, g.code, first);
    PlacedMark(code, p3, last, 2, lab);
    PieceRegister(e.left, n + 1, lb, |env|);
    after := ExprRuns(code, pc, e.left, n + 1, lb, regs, env);
    var a := Eval(Emitted, e.left, env);
    if a.Val? {
      KeptLength(regs, after, |env|, n + 1);
      Go(code, s0, p1, first, 0, after);
      GetOther(after, res, Truth(!e.isAnd), g.reg);
      SetTemp(code, s0, regs, after, a.env, n, n + 1, res, Truth(!e.isAnd));
      var mid := Put(after, res, Truth(!e.isAnd));
      after := mid;
      KeptLength(regs, mid, |env|, n);
      Go(code, s0, p1, first, 1, mid);
      if (a.v != 0) != e.isAnd {
        Go(code, s0, p3, last, 2, mid);
      } else {
        after := ExprRuns(code, p2, e.right, res + 1, lab + 1, mid, a.env);
        after := LogicRight(code, s0, p2, p3, regs, mid, after, Eval(Emitted, e.right, a.env), |env|, n, res, h.reg, e.isAnd, lab, last);
      }
    }
  }

  lemma LogicRight(code: seq<Instr>, s0: State, p2: nat, p3: nat, regs: seq<int>, mid: seq<int>, right: seq<int>, b: Value,
                   locals: nat, n: nat, res: nat, r: nat, isAnd: bool, lab: nat, last: seq<Instr>) returns (after: seq<int>)
    requires last == [BranchOn(isAnd, r, lab), Set(res, Truth(isAnd)), Mark(lab)] && Unique(code) && Placed(code, p3, last)
    requires Reaches(code, s0, Run(p2, mid)) && Kept(regs, mid, locals, n) && locals <= n <= res < |regs|
    requires Computes(code, p2, p3, mid, right, b, locals, res + 1, r) && (b.Val? ==> |b.env| == locals)
    requires Get(mid, res) == Truth(!isAnd)
    ensures b.Trap? ==> Reaches(code, s0, Fault)
    ensures b.Val? ==>
      && Reaches(code, s0, Run(p3 + 3, after)) && Agrees(after, b.env) && Kept(regs, after, locals, n)
      && Get(after, res) == Truth(b.v != 0)
  {
    hide Reaches, Kept, Agrees, Unique, Placed, Put, Get, Find;
    after := right;
    if b.Trap? {
      ReachThen(code, s0, Run(p2, mid), Fault);
    } else {
      ReachThen(code, s0, Run(p2, mid), Run(p3, right));
      KeptGet(mid, right, locals, res + 1, res);
      KeptThen(regs, mid, right, locals, n, n, res + 1);
      KeptLength(regs, right, locals, n);
      PlacedMark(code, p3, last, 2, lab);
      Go(code, s0, p3, last, 0, right);
      if (b.v != 0) == isAnd {
        Go(code, s0, p3, last, 1, right);
        SetTemp(code, s0, regs, right, b.env, n, n, res, Truth(isAnd));
        after := Put(right, res, Truth(isAnd));
      }
      Go(code, s0, p3, last, 2, after);
    }
  }

  /** Main result for expressions. */
  lemma {:induction false} ExprRuns(code: seq<Instr>, pc: nat, e: Expr, n: nat, lb: nat, regs: seq<int>, env: seq<int>) returns (after: seq<int>)
    requires Begin(code, pc, e, n, lb, regs, env)
    ensures End(code, pc, e, n, lb, regs, env, after)
    decreases e, if e.Compare? then 6 else 3
  {
    hide Begin, End;
    match e
    case Const(_) => after := LeafRuns(code, pc, e, n, lb, regs, env);
    case Var(_) => after := LeafRuns(code, pc, e, n, lb, regs, env);
    case Assign(_, _) => after := AssignRuns(code, pc, e, n, lb, regs, env);
    case OpAssign(_, _, _) => after := OpAssignRuns(code, pc, e, n, lb, regs, env);
    case Binary(_, _, _) => after := BinaryRuns(code, pc, e, n, lb, regs, env);
    case Compare(_, _, _) => after := CompareRuns(code, pc, e, n, lb, regs, env);
    case Logic(_, _, _) => after := LogicRuns(code, pc, e, n, lb, regs, env);
    case UnaryPlus(_) => after := PlusRuns(code, pc, e, n, lb, regs, env);
    case Negate(_) => after := UnaryRuns(code, pc, e, n, lb, regs, env);
    case BitNot(_) => after := UnaryRuns(code, pc, e, n, lb, regs, env);
    case Not(_) => after := NotRuns(code, pc, e, n, lb, regs, env);
    case Step(_, _, _) => after := StepRuns(code, pc, e, n, lb, regs, env);
    case Cond(_, _, _) => after := CondRuns(code, pc, e, n, lb, regs, env);
    case Comma(_, _) => after := CommaRuns(code, pc, e, n, lb, regs, env);
  }
}
