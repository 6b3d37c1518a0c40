/** Whole functions: labels are unique, the emitted code ends exactly as the function does,
    and where the two meanings of the language part. */
module CodProgram {
  import opened CodSource
  import opened CodMachine
  import opened CodGen
  import opened CodCorrect
  import opened CodRuns
  import opened CodSteady

  // ----- every label is marked once

  lemma LabelsPlain(code: seq<Instr>, labels: set<nat>)
    requires forall p :: 0 <= p < |code| ==> !code[p].Mark?
    ensures LabelsIn(code, labels)
  {
  }

  /** Instructions that mark nothing may follow. */
  lemma LabelsThen(a: seq<Instr>, b: seq<Instr>, s: set<nat>)
    requires LabelsIn(a, s) && forall p :: 0 <= p < |b| ==> !b[p].Mark?
    ensures LabelsIn(a + b, s)
  {
    LabelsPlain(b, {});
    LabelsJoin(a, b, s, {});
    assert s + {} == s;
  }

  /** A new label may be marked at the end. */
  lemma LabelsMark(a: seq<Instr>, b: seq<Instr>, l: nat, s: set<nat>)
    requires LabelsIn(a, s) && l !in s && |b| > 0 && b[|b| - 1] == Mark(l) && forall p :: 0 <= p < |b| - 1 ==> !b[p].Mark?
    ensures LabelsIn(a + b, s + {l})
  {
    assert LabelsIn(b, {l});
    LabelsJoin(a, b, s, {l});
  }

  lemma LabelsSeq(a: seq<Instr>, b: seq<Instr>, lo: nat, mid: nat, hi: nat)
    requires LabelsIn(a, Range(lo, mid)) && LabelsIn(b, Range(mid, hi)) && lo <= mid <= hi
    ensures LabelsIn(a + b, Range(lo, hi))
  {
    LabelsJoin(a, b, Range(lo, mid), Range(mid, hi));
    LabelsWiden(a + b, Range(lo, mid) + Range(mid, hi), Range(lo, hi));
  }

  lemma {:induction false} ExprLabels(e: Expr, n: nat, lb: nat)
    ensures var g := GenExpr(e, n, lb); LabelsIn(g.code, Range(lb, g.nextLabel))
    decreases e, if e.Compare? then 3 else 1
  {
    hide LabelsIn, Range;
    var all := GenExpr(e, n, lb);
    match e
    case Const(_) => LabelsPlain(all.code, Range(lb, lb));
    case Var(_) => LabelsPlain(all.code, Range(lb, lb));
    case Step(_, _, _) => LabelsPlain(all.code, Range(lb, lb));
    case Assign(x, a) =>
      ExprLabels(a, n, lb);
      var g := GenExpr(a, n, lb);
      LabelsThen(g.code, [Mov(x, g.reg)], Range(lb, all.nextLabel));
    case OpAssign(op, x, a) =>
      ExprLabels(a, n, lb);
      var g := GenExpr(a, n, lb);
      LabelsThen(g.code, [Op(op, g.nextReg, x, g.reg), Mov(x, g.nextReg)], Range(lb, all.nextLabel));
    case Binary(op, l, r) =>
      ExprLabels(l, n + 1, lb);
      var g := GenExpr(l, n + 1, lb);
      ExprLabels(r, g.nextReg, g.nextLabel);
      var h := GenExpr(r, g.nextReg, g.nextLabel);
      LabelsSeq(g.code, h.code, lb, g.nextLabel, h.nextLabel);
      LabelsThen(g.code + h.code, [Op(op, n, g.reg, h.reg)], Range(lb, all.nextLabel));
    case Compare(_, _, _) =>
      BranchLabels(e, lb, false, n + 1, lb + 1);
      var g := GenBranch(e, lb, false, n + 1, lb + 1);
      LabelsPlain([Set(n, 0)], {});
      LabelsJoin([Set(n, 0)], g.code, {}, Range(lb + 1, g.nextLabel));
      CloseRange([Set(n, 0)] + g.code, [Set(n, 1), Mark(lb)], {} + Range(lb + 1, g.nextLabel), lb, all.nextLabel);
    case Logic(_, _, _) => LogicLabels(e, n, lb);
    case UnaryPlus(a) => ExprLabels(a, n + 1, lb);
    case Negate(a) =>
      ExprLabels(a, n + 1, lb);
      var g := GenExpr(a, n + 1, lb);
      LabelsThen(g.code, [Set(g.nextReg, 0), Op(Sub, n, g.nextReg, g.reg)], Range(lb, all.nextLabel));
    case BitNot(a) =>
      ExprLabels(a, n + 1, lb);
      var g := GenExpr(a, n + 1, lb);
      LabelsThen(g.code, [Set(g.nextReg, -1), Op(BitXor, n, g.nextReg, g.reg)], Range(lb, all.nextLabel));
    case Not(a) =>
      ExprLabels(a, n + 1, lb);
      var g := GenExpr(a, n + 1, lb);
      OpenRange(g.code, [Set(g.nextReg, 0), Set(n, 0), Branch(Neq, g.nextReg, g.reg, g.nextLabel), Set(n, 1), Mark(g.nextLabel)], lb, g.nextLabel);
    case Cond(c, l, r) => CondLabels(e, n, lb);
    case Comma(l, r) =>
      ExprLabels(l, n, lb);
      var g := GenExpr(l, n, lb);
      ExprLabels(r, g.nextReg, g.nextLabel);
      LabelsSeq(g.code, GenExpr(r, g.nextReg, g.nextLabel).code, lb, g.nextLabel, all.nextLabel);
  }

  /** The label just below a range is marked at the end. */
  lemma CloseRange(a: seq<Instr>, b: seq<Instr>, s: set<nat>, lo: nat, hi: nat)
    requires LabelsIn(a, s) && s <= Range(lo + 1, hi) && lo < hi
    requires |b| > 0 && b[|b| - 1] == Mark(lo) && forall p :: 0 <= p < |b| - 1 ==> !b[p].Mark?
    ensures LabelsIn(a + b, Range(lo, hi))
  {
    LabelsMark(a, b, lo, s);
    LabelsWiden(a + b, s + {lo}, Range(lo, hi));
  }

  /** The label just above a range is marked at the end. */
  lemma OpenRange(a: seq<Instr>, b: seq<Instr>, lo: nat, hi: nat)
    requires LabelsIn(a, Range(lo, hi)) && lo <= hi
    requires |b| > 0 && b[|b| - 1] == Mark(hi) && forall p :: 0 <= p < |b| - 1 ==> !b[p].Mark?
    ensures LabelsIn(a + b, Range(lo, hi + 1))
  {
    LabelsMark(a, b, hi, Range(lo, hi));
    LabelsWiden(a + b, Range(lo, hi) + {hi}, Range(lo, hi + 1));
  }

  lemma LogicLabels(e: Expr, n: nat, lb: nat)
    requires e.Logic?
    ensures var g := GenExpr(e, n, lb); LabelsIn(g.code, Range(lb, g.nextLabel))
    decreases e, 0
  {
    hide LabelsIn, Range, GenExpr;
    LogicShape(e, n, lb);
    var g := GenExpr(e.left, n + 1, lb);
    var res, lab := g.nextReg, g.nextLabel;
    var h := GenExpr(e.right, res + 1, lab + 1);
    ExprLabels(e.left, n + 1, lb);
    ExprLabels(e.right, res + 1, lab + 1);
    var first, last := [Set(res, Truth(!e.isAnd)), BranchOn(e.isAnd, g.reg, lab)], [BranchOn(e.isAnd, h.reg, lab), Set(res, Truth(e.isAnd)), Mark(lab)];
    LabelsThen(g.code, first, Range(lb, lab));
    CloseRange(h.code, last, Range(lab + 1, h.nextLabel), lab, h.nextLabel);
    LabelsSeq(g.code + first, h.code + last, lb, lab, h.nextLabel);
  }

  lemma CondLabels(e: Expr, n: nat, lb: nat)
    requires e.Cond?
    ensures var g := GenExpr(e, n, lb); LabelsIn(g.code, Range(lb, g.nextLabel))
    decreases e, 0
  {
    hide LabelsIn, Range, GenExpr, GenBranch;
    CondShape(e, n, lb);
    var t := GenBranch(e.c, lb, false, n + 1, lb + 2);
    var g := GenExpr(e.left, t.nextReg, t.nextLabel);
    var h := GenExpr(e.right, g.nextReg, g.nextLabel);
    BranchLabels(e.c, lb, false, n + 1, lb + 2);
    ExprLabels(e.left, t.nextReg, t.nextLabel);
    ExprLabels(e.right, g.nextReg, g.nextLabel);
    TwoArms(t.code, g.code, [Mov(n, g.reg), Jump(lb + 1), Mark(lb)], h.code, [Mov(n, h.reg), Mark(lb + 1)], lb, lb + 1,
            Range(lb + 2, t.nextLabel), Range(t.nextLabel, g.nextLabel), Range(g.nextLabel, h.nextLabel), Range(lb, h.nextLabel));
  }

  /** Test, arm, arm, each arm ending with a label of its own. */
  lemma TwoArms(t: seq<Instr>, g: seq<Instr>, gEnd: seq<Instr>, h: seq<Instr>, hEnd: seq<Instr>, l: nat, k: nat, ts: set<nat>, gs: set<nat>, hs: set<nat>, all: set<nat>)
    requires LabelsIn(t, ts) && LabelsIn(g, gs) && LabelsIn(h, hs)
    requires |gEnd| > 0 && gEnd[|gEnd| - 1] == Mark(l) && forall p :: 0 <= p < |gEnd| - 1 ==> !gEnd[p].Mark?
    requires |hEnd| > 0 && hEnd[|hEnd| - 1] == Mark(k) && forall p :: 0 <= p < |hEnd| - 1 ==> !hEnd[p].Mark?
    requires ts !! gs && ts !! hs && gs !! hs && l != k && l !in ts + gs + hs && k !in ts + gs + hs
    requires ts + gs + hs + {l, k} <= all
    ensures LabelsIn(t + (g + gEnd) + (h + hEnd), all)
  {
    hide LabelsIn;
    LabelsMark(g, gEnd, l, gs);
    LabelsMark(h, hEnd, k, hs);
    LabelsJoin(t, g + gEnd, ts, gs + {l});
    LabelsJoin(t + (g + gEnd), h + hEnd, ts + (gs + {l}), hs + {k});
    LabelsWiden(t + (g + gEnd) + (h + hEnd), ts + (gs + {l}) + (hs + {k}), all);
  }

  lemma {:induction false} BranchLabels(e: Expr, target: nat, reverse: bool, n: nat, lb: nat)
    ensures var g := GenBranch(e, target, reverse, n, lb); LabelsIn(g.code, Range(lb, g.nextLabel))
    decreases e, 2
  {
    hide LabelsIn, Range;
    if e.Compare? {
      ExprLabels(e.left, n, lb);
      var g := GenExpr(e.left, n, lb);
      ExprLabels(e.right, g.nextReg, g.nextLabel);
      var h := GenExpr(e.right, g.nextReg, g.nextLabel);
      LabelsSeq(g.code, h.code, lb, g.nextLabel, h.nextLabel);
      LabelsThen(g.code + h.code, [Branch(if reverse then Direct(e.cmp) else Reverse(e.cmp), g.reg, h.reg, target)], Range(lb, h.nextLabel));
    } else {
      ExprLabels(e, n, lb);
      var g := GenExpr(e, n, lb);
      LabelsThen(g.code, [BranchOn(!reverse, g.reg, target)], Range(lb, g.nextLabel));
    }
  }

  lemma OptLabels(e: Option<Expr>, n: nat, lb: nat)
    ensures var g := GenOpt(e, n, lb); LabelsIn(g.code, Range(lb, g.nextLabel))
  {
    hide LabelsIn, Range, GenExpr;
    if e.Some? { ExprLabels(e.value, n, lb); } else { LabelsPlain([], Range(lb, lb)); }
  }

  lemma TestLabels(e: Option<Expr>, target: nat, n: nat, lb: nat)
    ensures var g := GenTest(e, target, n, lb); LabelsIn(g.code, Range(lb, g.nextLabel))
  {
    hide LabelsIn, Range, GenBranch;
    if e.Some? { BranchLabels(e.value, target, false, n, lb); } else { LabelsPlain([], Range(lb, lb)); }
  }

  lemma BackLabels(e: Option<Expr>, begin: nat, n: nat, lb: nat)
    ensures var g := GenBack(e, begin, n, lb); LabelsIn(g.code, Range(lb, g.nextLabel))
  {
    hide LabelsIn, Range, GenBranch;
    if e.Some? { BranchLabels(e.value, begin, true, n, lb); } else { LabelsPlain([Jump(begin)], Range(lb, lb)); }
  }

  lemma {:induction false} StmtLabels(s: Stmt, loop: Option<Labels>, n: nat, lb: nat)
    ensures var g := GenStmt(s, loop, n, lb); LabelsIn(g.code, Range(lb, g.nextLabel))
    decreases s, 1
  {
    hide LabelsIn, Range, GenExpr, GenBranch, GenRound;
    var all := GenStmt(s, loop, n, lb);
    match s
    case Skip => LabelsPlain(all.code, Range(lb, lb));
    case Break => LabelsPlain(all.code, Range(lb, lb));
    case Continue => LabelsPlain(all.code, Range(lb, lb));
    case Do(e) => ExprLabels(e, n, lb);
    case Return(e) =>
      ExprLabels(e, n, lb);
      var g := GenExpr(e, n, lb);
      LabelsThen(g.code, [Ret(g.reg)], Range(lb, g.nextLabel));
    case Seq(a, b) =>
      StmtLabels(a, loop, n, lb);
      var g := GenStmt(a, loop, n, lb);
      StmtLabels(b, loop, g.nextReg, g.nextLabel);
      LabelsSeq(g.code, GenStmt(b, loop, g.nextReg, g.nextLabel).code, lb, g.nextLabel, all.nextLabel);
    case If(_, _, _) => IfLabels(s, loop, n, lb);
    case Loop(init, _, _, _, _) =>
      OptLabels(init, n, lb + 3);
      var i := GenOpt(init, n, lb + 3);
      RoundLabels(s, lb, i.nextReg, i.nextLabel);
      var r := GenRound(s, lb, i.nextReg, i.nextLabel);
      LabelsJoin(i.code, r.Code(lb), Range(lb + 3, i.nextLabel), Range(i.nextLabel, r.back.nextLabel) + {lb, lb + 1, lb + 2});
      LabelsWiden(all.code, Range(lb + 3, i.nextLabel) + (Range(i.nextLabel, r.back.nextLabel) + {lb, lb + 1, lb + 2}), Range(lb, all.nextLabel));
  }

  lemma IfLabels(s: Stmt, loop: Option<Labels>, n: nat, lb: nat)
    requires s.If?
    ensures var g := GenStmt(s, loop, n, lb); LabelsIn(g.code, Range(lb, g.nextLabel))
    decreases s, 0
  {
    hide LabelsIn, Range, GenExpr, GenBranch, GenRound, GenStmt;
    IfShape(s, loop, n, lb);
    var k := GenBranch(s.c, lb, false, n, lb + 1);
    var g := GenStmt(s.thenPart, loop, k.nextReg, k.nextLabel);
    BranchLabels(s.c, lb, false, n, lb + 1);
    StmtLabels(s.thenPart, loop, k.nextReg, k.nextLabel);
    if s.elsePart.None? {
      LabelsSeq(k.code, g.code, lb + 1, k.nextLabel, g.nextLabel);
      CloseRange(k.code + g.code, [Mark(lb)], Range(lb + 1, g.nextLabel), lb, g.nextLabel);
      assert k.code + (g.code + [Mark(lb)]) == k.code + g.code + [Mark(lb)];
    } else {
      var end := g.nextLabel;
      StmtLabels(s.elsePart.value, loop, g.nextReg, end + 1);
      var h := GenStmt(s.elsePart.value, loop, g.nextReg, end + 1);
      TwoArms(k.code, g.code, [Jump(end), Mark(lb)], h.code, [Mark(end)], lb, end,
              Range(lb + 1, k.nextLabel), Range(k.nextLabel, end), Range(end + 1, h.nextLabel), Range(lb, h.nextLabel));
    }
  }

  lemma {:induction false} RoundLabels(s: Stmt, lb: nat, n: nat, next: nat)
    requires s.Loop? && lb + 3 <= next
    ensures var r := GenRound(s, lb, n, next); LabelsIn(r.Code(lb), Range(next, r.back.nextLabel) + {lb, lb + 1, lb + 2})
    decreases s, 0
  {
    hide LabelsIn, Range, GenStmt, GenTest, GenOpt, GenBack;
    var r := GenRound(s, lb, n, next);
    TestLabels(s.test, lb + 1, n, next);
    StmtLabels(s.body, Some(Labels(lb + 2, lb + 1)), r.test.nextReg, r.test.nextLabel);
    OptLabels(s.iter, r.body.nextReg, r.body.nextLabel);
    BackLabels(s.post, lb, r.iter.nextReg, r.iter.nextLabel);
    var ts, bs := Range(next, r.test.nextLabel), Range(r.test.nextLabel, r.body.nextLabel);
    var ns, ks := Range(r.body.nextLabel, r.iter.nextLabel), Range(r.iter.nextLabel, r.back.nextLabel);
    LabelsPlain([], {});
    LabelsMark([], [Mark(lb)], lb, {});
    assert [] + [Mark(lb)] == [Mark(lb)];
    LabelsMark(r.body.code, [Mark(lb + 2)], lb + 2, bs);
    LabelsMark(r.back.code, [Mark(lb + 1)], lb + 1, ks);
    var a, b, c, d, e := [Mark(lb)], r.test.code, r.body.code + [Mark(lb + 2)], r.iter.code, r.back.code + [Mark(lb + 1)];
    LabelsJoin(a, b, {} + {lb}, ts);
    LabelsJoin(a + b, c, {} + {lb} + ts, bs + {lb + 2});
    LabelsJoin(a + b + c, d, {} + {lb} + ts + (bs + {lb + 2}), ns);
    LabelsJoin(a + b + c + d, e, {} + {lb} + ts + (bs + {lb + 2}) + ns, ks + {lb + 1});
    LabelsWiden(r.Code(lb), {} + {lb} + ts + (bs + {lb + 2}) + ns + (ks + {lb + 1}), Range(next, r.back.nextLabel) + {lb, lb + 1, lb + 2});
  }

  // ----- functions

  /** The machine ends as f says: with the locals it names and the value it returns, by
      falling off the end, or in a trap. */
  ghost predicate EndsAs(code: seq<Instr>, s: State, f: Flow, regs: nat, locals: nat) {
    match f
    case Next(env) => |env| == locals && exists after: seq<int> :: |after| == regs && Agrees(after, env) && Reaches(code, s, Run(|code|, after))
    case Returned(v, env) => |env| == locals && exists after: seq<int> :: |after| == regs && Agrees(after, env) && Reaches(code, s, Halted(v, after))
    case Trapped => Reaches(code, s, Fault)
    case _ => false
  }

  /** The code of a function, its locals in the first registers. */
  function Compile(body: Stmt, locals: nat): Piece {
    GenStmt(body, None, locals, 0)
  }

  ghost predicate Loaded(body: Stmt, regs: seq<int>, env: seq<int>) {
    && StmtOk(body, |env|, false) && Agrees(regs, env)
    && Compile(body, |env|).nextReg <= |regs|
  }

  lemma FunctionRuns(body: Stmt, regs: seq<int>, env: seq<int>, fuel: nat)
    requires Loaded(body, regs, env)
    ensures var f := Exec(Emitted, body, env, false, fuel); var code := Compile(body, |env|).code;
      if f.Timeout? then Busy(code, Run(0, regs), fuel) else EndsAs(code, Run(0, regs), f, |regs|, |env|)
  {
    hide GenStmt, Exec, Reaches, Busy, Agrees;
    var g := Compile(body, |env|);
    StmtLabels(body, None, |env|, 0);
    assert Placed(g.code, 0, g.code);
    var after := StmtRuns(g.code, 0, body, None, |env|, 0, regs, env, fuel);
  }

  lemma OneFlow(code: seq<Instr>, s: State, f: Flow, g: Flow, regs: nat, locals: nat)
    requires EndsAs(code, s, f, regs, locals) && EndsAs(code, s, g, regs, locals)
    ensures f == g
  {
    hide Reaches;
    var t := Ending(code, s, f, regs, locals);
    var u := Ending(code, s, g, regs, locals);
    OneEnd(code, s, t, u);
  }

  lemma Ending(code: seq<Instr>, s: State, f: Flow, regs: nat, locals: nat) returns (t: State)
    requires EndsAs(code, s, f, regs, locals)
    ensures Final(code, t) && Reaches(code, s, t)
    ensures match f
      case Next(env) => t.Run? && locals <= |t.regs| && env == t.regs[..locals]
      case Returned(v, env) => t.Halted? && t.v == v && locals <= |t.regs| && env == t.regs[..locals]
      case _ => f == Trapped && t == Fault
  {
    hide Reaches;
    match f
    case Next(env) =>
      var after: seq<int> :| |after| == regs && Agrees(after, env) && Reaches(code, s, Run(|code|, after));
      t := Run(|code|, after);
    case Returned(v, env) =>
      var after: seq<int> :| |after| == regs && Agrees(after, env) && Reaches(code, s, Halted(v, after));
      t := Halted(v, after);
    case Trapped => t := Fault;
  }

  lemma BusyNotDone(code: seq<Instr>, s: State, t: State, k: nat)
    requires Steps(code, s, k) == t && Final(code, t)
    ensures !Busy(code, s, k)
  {
    hide Steps;
    forall j: nat | j >= k
      ensures !Live(code, s, j)
    {
      StepsAdd(code, s, k, j - k);
      Stopped(code, t, j - k);
    }
  }

  /** The function ends as f says exactly when its code does. */
  ghost predicate Faithful(body: Stmt, code: seq<Instr>, regs: seq<int>, env: seq<int>, f: Flow)
    requires StmtOk(body, |env|, false)
  {
    (exists fuel: nat :: Exec(Promised, body, env, false, fuel) == f) <==> EndsAs(code, Run(0, regs), f, |regs|, |env|)
  }

  /** Every run of the function is steady: no operator's left operand changes under it, and no
      do loop turns on a >= of equal operands. */
  ghost predicate AlwaysSteady(body: Stmt, env: seq<int>)
    requires StmtOk(body, |env|, false)
  {
    forall fuel: nat :: SteadyRun(body, env, false, fuel)
  }

  /** Main result. A function whose runs are steady ends in a given way, returning a value with
      given locals, falling off its end or trapping, exactly when its code does. */
  lemma CompileSteady(body: Stmt, regs: seq<int>, env: seq<int>, f: Flow)
    requires Loaded(body, regs, env) && AlwaysSteady(body, env) && !f.Timeout?
    ensures Faithful(body, Compile(body, |env|).code, regs, env, f)
  {
    hide GenStmt, Exec, EndsAs, SteadyRun, StmtOk, Agrees;
    var code := Compile(body, |env|).code;
    var s0 := Run(0, regs);
    if fuel: nat :| Exec(Promised, body, env, false, fuel) == f {
      RunExact(body, env, false, fuel);
      FunctionRuns(body, regs, env, fuel);
    }
    if EndsAs(code, s0, f, |regs|, |env|) {
      var t := Ending(code, s0, f, |regs|, |env|);
      var k: nat :| Steps(code, s0, k) == t;
      FunctionRuns(body, regs, env, k);
      RunExact(body, env, false, k);
      var g := Exec(Emitted, body, env, false, k);
      if g.Timeout? {
        BusyNotDone(code, s0, t, k);
      } else {
        OneFlow(code, s0, f, g, |regs|, |env|);
      }
    }
  }

  /** A function whose runs are steady and never end has code that never ends. */
  lemma NeverEnds(body: Stmt, regs: seq<int>, env: seq<int>, k: nat)
    requires Loaded(body, regs, env) && AlwaysSteady(body, env)
    requires forall fuel: nat :: Exec(Promised, body, env, false, fuel).Timeout?
    ensures Live(Compile(body, |env|).code, Run(0, regs), k)
  {
    hide GenStmt, Exec, EndsAs, SteadyRun, StmtOk, Agrees, Steps;
    var code := Compile(body, |env|).code;
    RunExact(body, env, false, k);
    FunctionRuns(body, regs, env, k);
    if !Live(code, Run(0, regs), k) {
      BusyNotDone(code, Run(0, regs), Steps(code, Run(0, regs), k), k);
    }
  }

  lemma SafeAlways(body: Stmt, env: seq<int>)
    requires StmtOk(body, |env|, false) && SafeStmt(body)
    ensures AlwaysSteady(body, env)
  {
    hide SteadyRun, SafeStmt, StmtOk;
    forall fuel: nat
      ensures SteadyRun(body, env, false, fuel)
    {
      SafeRun(body, env, false, fuel);
    }
  }

  /** So does a function that is safe as it stands, whatever its arguments. */
  lemma CompileCorrect(body: Stmt, regs: seq<int>, env: seq<int>, f: Flow)
    requires Loaded(body, regs, env) && SafeStmt(body) && !f.Timeout?
    ensures Faithful(body, Compile(body, |env|).code, regs, env, f)
  {
    hide GenStmt, EndsAs, SteadyRun, SafeStmt, Faithful, AlwaysSteady, Agrees, Compile;
    SafeAlways(body, env);
    CompileSteady(body, regs, env, f);
  }

  // ----- where they part

  lemma SmallSum(a: int, b: int)
    requires -TWO31 <= a + b < TWO31
    ensures Arith(Add, a, b) == Some(a + b)
  {
  }

  /** x + (x = b). */
  function SumLate(b: int): (e: Expr)
    ensures e.Binary? && e.right.Assign? && ExprOk(e, 1) && ExprOk(e.right, 1) && ExprOk(e.right.e, 1)
  {
    var x := Assign(0, Const(b));
    assert ExprOk(x, 1);
    Binary(Add, Var(0), x)
  }

  /** x + (x = b) is steady exactly when x has the value b already. */
  lemma LateSumSteady(a: int, b: int)
    ensures Steady(SumLate(b), [a]) <==> a == b
    ensures Sights(Emitted, SumLate(b), [a]) == Sights(Promised, SumLate(b), [a]) <==> a == b
  {
    var e := SumLate(b);
    var r := Eval(Promised, e.right.e, [a]);
    assert r == Val(b, [a]) && Eval(Promised, e.right, [a]) == Val(b, [a][0 := b]);
    assert Steady(e.right.e, [a]) && Steady(e.right, [a]) && Steady(e.left, [a]);
    assert Eval(Promised, e.left, [a]) == Val(a, [a]);
    assert SteadyBoth(e, [a]);
    assert OperandKept(e, [a]) <==> Unmoved(Var(0), [a], [b]);
    assert Home(Var(0)) == Some(0) && [a][0] == a && [b][0] == b;
    SteadyExact(e, [a]);
  }

  /** The left operand is read after the right one was run. */
  lemma LateSum(a: int, b: int)
    requires -TWO31 <= a + b < TWO31 && -TWO31 <= b + b < TWO31
    ensures Eval(Promised, SumLate(b), [a]) == Val(a + b, [b])
    ensures Eval(Emitted, SumLate(b), [a]) == Val(b + b, [b])
  {
    hide Arith;
    var e := SumLate(b);
    forall m: Mode
      ensures Eval(m, e.right, [a]) == Val(b, [b])
    {
      assert Eval(m, e.right.e, [a]) == Val(b, [a]);
      assert [a][0 := b] == [b];
    }
    assert EvalBoth(Promised, e, [a]) == Pair(a, b, [b]);
    assert EvalBoth(Emitted, e, [a]) == Pair(b, b, [b]);
    SmallSum(a, b);
    SmallSum(b, b);
  }

  /** The code of `return x + (x = b)` returns b + b where a + b was promised, a being the
      value of x on entry. */
  lemma LateOperand(regs: seq<int>, a: int, b: int)
    requires |regs| >= 3 && regs[0] == a && -TWO31 <= a + b < TWO31 && -TWO31 <= b + b < TWO31
    ensures var body := Return(SumLate(b));
      && Exec(Promised, body, [a], false, 0) == Returned(a + b, [b])
      && EndsAs(Compile(body, 1).code, Run(0, regs), Returned(b + b, [b]), |regs|, 1)
  {
    hide Reaches, Eval, EndsAs, Agrees, GenExpr;
    LateSum(a, b);
    OneLocal(regs, a);
    LateRegisters(b);
    FunctionRuns(Return(SumLate(b)), regs, [a], 0);
  }

  lemma OneLocal(regs: seq<int>, a: int)
    requires |regs| >= 1 && regs[0] == a
    ensures Agrees(regs, [a])
  {
    assert regs[..1] == [a];
  }

  lemma LateRegisters(b: int)
    ensures GenExpr(SumLate(b), 1, 0).nextReg == 3
  {
    var e := SumLate(b);
    assert GenExpr(e.right.e, 2, 0).nextReg == 3;
    assert GenExpr(e.right, 2, 0).nextReg == 3;
  }

  /** The branch at the end of a do loop is taken when the test holds, unless the test is
      >= with equal operands. */
  lemma DoTestExact(e: Expr, env: seq<int>)
    requires e.Compare? && ExprOk(e, |env|) && EvalBoth(Emitted, e, env).Pair?
    ensures var p := EvalBoth(Emitted, e, env);
      Eval(Emitted, BackEdge(Emitted, e), env) == Eval(Emitted, e, env) <==> !(e.cmp.Geq? && p.a == p.b)
  {
    TestedOperands(e, true, env);
  }

  /** do x = x + 1; while (k >= x) */
  function CountTo(k: int): (s: Stmt)
    ensures forall inLoop :: StmtOk(s, 1, inLoop)
    ensures s.Loop? && s.post.Some? && StmtOk(s.body, 1, true) && ExprOk(s.post.value, 1)
  {
    var up := Binary(Add, Var(0), Const(1));
    var test := Compare(Geq, Const(k), Var(0));
    assert ExprOk(up, 1) && ExprOk(test, 1);
    assert ExprOk(Assign(0, up), 1);
    assert StmtOk(Do(Assign(0, up)), 1, true);
    Loop(None, None, None, Some(test), Do(Assign(0, up)))
  }

  /** From x == k - 1 the loop ends with k + 1, its code with k. */
  lemma LateExit(k: int)
    requires -TWO31 < k < TWO31 - 1
    ensures Exec(Promised, CountTo(k), [k - 1], false, 3) == Next([k + 1])
    ensures Exec(Emitted, CountTo(k), [k - 1], false, 3) == Next([k])
  {
    hide Eval, Rounds;
    var loop := CountTo(k);
    assert |[k - 1]| == |[k]| == |[k + 1]| == 1;
    assert [k - 1 + 1] == [k];
    CountUp(Promised, k, k - 1, 2);
    CountUp(Promised, k, k, 1);
    CountUp(Emitted, k, k - 1, 2);
    LateTests(k);
    RoundOnce(Promised, loop, [k], [k + 1], 2);
    RoundOnce(Promised, loop, [k - 1], [k], 3);
    RoundOnce(Emitted, loop, [k - 1], [k], 3);
  }

  lemma CountUp(m: Mode, k: int, v: int, fuel: nat)
    requires -TWO31 <= v < TWO31 - 1
    ensures Exec(m, CountTo(k).body, [v], true, fuel) == Next([v + 1])
  {
    hide Arith;
    var e := CountTo(k).body.e.e;
    assert EvalBoth(m, e, [v]) == Pair(v, 1, [v]);
    SmallSum(v, 1);
    assert Eval(m, e, [v]) == Val(v + 1, [v]);
    assert [v][0 := v + 1] == [v + 1];
  }

  lemma LateTests(k: int)
    ensures var test := CountTo(k).post.value;
      && Eval(Promised, test, [k]) == Val(1, [k]) && Eval(Promised, test, [k + 1]) == Val(0, [k + 1])
      && Eval(Emitted, BackEdge(Emitted, test), [k]) == Val(0, [k])
  {
    var test := CountTo(k).post.value;
    var t := BackEdge(Emitted, test);
    assert EvalBoth(Promised, test, [k]) == Pair(k, k, [k]);
    assert EvalBoth(Promised, test, [k + 1]) == Pair(k, k + 1, [k + 1]);
    assert EvalBoth(Emitted, t, [k]) == Pair(k, k, [k]);
  }

  /** A round of a loop that has only a body and a do test. */
  lemma RoundOnce(m: Mode, s: Stmt, env: seq<int>, after: seq<int>, fuel: nat)
    requires s.Loop? && s.test.None? && s.iter.None? && s.post.Some? && fuel > 0 && |after| == |env|
    requires StmtOk(s, |env|, true) && StmtOk(s.body, |env|, true)
    requires Exec(m, s.body, env, true, fuel - 1) == Next(after)
    ensures var p := Eval(m, BackEdge(m, s.post.value), after);
      Rounds(m, s, env, fuel) == if p.Trap? then Trapped else if p.v != 0 then Rounds(m, s, p.env, fuel - 1) else Next(p.env)
  {
    hide Eval, Exec;
  }
}
