/** Statements: the emitted code follows the statement, round by round, and ends exactly
    when it does. */
module CodRuns {
  import opened CodSource
  import opened CodMachine
  import opened CodGen
  import opened CodCorrect

  /** From s the machine does what f says: falls through to `past`, leaves or continues the
      loop, returns, traps, or is still busy after `fuel` steps. */
  ghost predicate Follows(code: seq<Instr>, s: State, f: Flow, past: nat, loop: Option<Labels>, after: seq<int>, size: nat, fuel: nat)
    requires loop.None? ==> !f.Broke? && !f.Continued?
  {
    match f
    case Next(env) => Reaches(code, s, Run(past, after)) && Agrees(after, env) && |after| == size
    case Broke(env) => Reaches(code, s, Run(Find(code, loop.value.end, 0), after)) && Agrees(after, env) && |after| == size
    case Continued(env) => Reaches(code, s, Run(Find(code, loop.value.iter, 0), after)) && Agrees(after, env) && |after| == size
    case Returned(v, env) => Reaches(code, s, Halted(v, after)) && Agrees(after, env) && |after| == size
    case Trapped => Reaches(code, s, Fault)
    case Timeout => Busy(code, s, fuel)
  }

  lemma FollowsFrom(code: seq<Instr>, s: State, t: State, f: Flow, past: nat, loop: Option<Labels>, after: seq<int>, size: nat, fuel: nat)
    requires loop.None? ==> !f.Broke? && !f.Continued?
    requires Reaches(code, s, t) && Follows(code, t, f, past, loop, after, size, fuel)
    ensures Follows(code, s, f, past, loop, after, size, fuel)
  {
    hide Reaches, Busy, Find, Agrees;
    match f
    case Next(_) => ReachThen(code, s, t, Run(past, after));
    case Broke(_) => ReachThen(code, s, t, Run(Find(code, loop.value.end, 0), after));
    case Continued(_) => ReachThen(code, s, t, Run(Find(code, loop.value.iter, 0), after));
    case Returned(v, _) => ReachThen(code, s, t, Halted(v, after));
    case Trapped => ReachThen(code, s, t, Fault);
    case Timeout => BusyAfter(code, s, t, fuel);
  }

  /** A round costs the machine at least one step. */
  lemma FollowsStep(code: seq<Instr>, s: State, f: Flow, past: nat, after: seq<int>, size: nat, fuel: nat)
    requires !f.Broke? && !f.Continued? && Follows(code, Next1(code, s), f, past, None, after, size, fuel)
    ensures Follows(code, s, f, past, None, after, size, fuel + 1)
  {
    hide Reaches, Busy, Find, Agrees, Next1;
    ReachSelf(code, s);
    ReachStep(code, s, s);
    if f.Timeout? {
      BusyStep(code, s, fuel);
    } else {
      FollowsFrom(code, s, Next1(code, s), f, past, None, after, size, fuel);
    }
  }

  // ----- the optional parts of a loop

  /** An evaluation for its effect. */
  ghost predicate Effects(code: seq<Instr>, pc: nat, past: nat, regs: seq<int>, after: seq<int>, r: Value) {
    if r.Trap? then Reaches(code, Run(pc, regs), Fault)
    else Reaches(code, Run(pc, regs), Run(past, after)) && Agrees(after, r.env) && |after| == |regs|
  }

  lemma OptEffects(code: seq<Instr>, pc: nat, e: Option<Expr>, n: nat, lb: nat, regs: seq<int>, env: seq<int>) returns (after: seq<int>)
    requires OptOk(e, |env|) && Ready(code, pc, GenOpt(e, n, lb), regs, env, n)
    ensures Effects(code, pc, pc + |GenOpt(e, n, lb).code|, regs, after, EvalOpt(Emitted, e, env))
  {
    hide Reaches, Kept, Agrees, Unique, Placed, GenExpr;
    after := regs;
    ReachSelf(code, Run(pc, regs));
    if e.Some? {
      after := ExprRuns(code, pc, e.value, n, lb, regs, env);
      if Eval(Emitted, e.value, env).Val? {
        KeptLength(regs, after, |env|, n);
      }
    }
  }

  lemma TestRuns(code: seq<Instr>, pc: nat, e: Option<Expr>, target: nat, n: nat, lb: nat, regs: seq<int>, env: seq<int>) returns (after: seq<int>)
    requires OptOk(e, |env|) && Ready(code, pc, GenTest(e, target, n, lb), regs, env, n)
    ensures Branched(code, pc, Find(code, target, 0), pc + |GenTest(e, target, n, lb).code|, false, regs, after, EvalOpt(Emitted, e, env), |env|, n)
  {
    hide Reaches, Kept, Agrees, Unique, Placed, GenBranch, Find;
    after := regs;
    if e.Some? {
      after := BranchRuns(code, pc, e.value, target, false, n, lb, regs, env);
    } else {
      ReachSelf(code, Run(pc, regs));
      KeptSelf(regs, |env|, n);
    }
  }

  function EvalBack(post: Option<Expr>, env: seq<int>): (r: Value)
    requires OptOk(post, |env|)
    ensures r.Val? ==> |r.env| == |env|
  {
    if post.None? then Val(1, env) else Eval(Emitted, BackEdge(Emitted, post.value), env)
  }

  lemma BackRuns(code: seq<Instr>, pc: nat, e: Option<Expr>, begin: nat, n: nat, lb: nat, regs: seq<int>, env: seq<int>) returns (after: seq<int>)
    requires OptOk(e, |env|) && Ready(code, pc, GenBack(e, begin, n, lb), regs, env, n)
    ensures Branched(code, pc, Find(code, begin, 0), pc + |GenBack(e, begin, n, lb).code|, true, regs, after, EvalBack(e, env), |env|, n)
  {
    hide Reaches, Kept, Agrees, Unique, Placed, GenBranch, Find;
    after := regs;
    if e.Some? {
      after := BranchRuns(code, pc, e.value, begin, true, n, lb, regs, env);
    } else {
      ReachSelf(code, Run(pc, regs));
      KeptSelf(regs, |env|, n);
      Go(code, Run(pc, regs), pc, [Jump(begin)], 0, regs);
    }
  }

  // ----- loops

  function BodyAt(r: Round, at: nat): nat {
    at + 1 + |r.test.code|
  }

  function NextAt(r: Round, at: nat): nat {
    BodyAt(r, at) + |r.body.code|
  }

  function BackAt(r: Round, at: nat): nat {
    NextAt(r, at) + 1 + |r.iter.code|
  }

  function EndAt(r: Round, at: nat): nat {
    BackAt(r, at) + |r.back.code|
  }

  /** The pieces of a loop are in their places and its labels mark them. */
  ghost predicate LaidOut(code: seq<Instr>, r: Round, lb: nat, at: nat) {
    && Unique(code) && EndAt(r, at) < |code|
    && code[at] == Mark(lb) && code[NextAt(r, at)] == Mark(lb + 2) && code[EndAt(r, at)] == Mark(lb + 1)
    && Placed(code, at + 1, r.test.code) && Placed(code, BodyAt(r, at), r.body.code)
    && Placed(code, NextAt(r, at) + 1, r.iter.code) && Placed(code, BackAt(r, at), r.back.code)
  }

  lemma RoundPlaced(code: seq<Instr>, r: Round, lb: nat, at: nat)
    requires Unique(code) && Placed(code, at, r.Code(lb))
    ensures LaidOut(code, r, lb, at) && EndAt(r, at) + 1 == at + |r.Code(lb)|
  {
    hide Placed, Unique;
    var a, b, c, d, e := [Mark(lb)], r.test.code, r.body.code + [Mark(lb + 2)], r.iter.code, r.back.code + [Mark(lb + 1)];
    assert r.Code(lb) == a + b + c + d + e;
    PlacedFive(code, at, a, b, c, d, e);
    PlacedLast(code, BodyAt(r, at), r.body.code, Mark(lb + 2));
    PlacedLast(code, BackAt(r, at), r.back.code, Mark(lb + 1));
    PlacedAt(code, at, a, 0);
  }

  lemma PlacedFive(code: seq<Instr>, at: nat, a: seq<Instr>, b: seq<Instr>, c: seq<Instr>, d: seq<Instr>, e: seq<Instr>)
    requires Placed(code, at, a + b + c + d + e)
    ensures Placed(code, at, a) && Placed(code, at + |a|, b) && Placed(code, at + |a| + |b|, c)
    ensures Placed(code, at + |a| + |b| + |c|, d) && Placed(code, at + |a| + |b| + |c| + |d|, e)
  {
    hide Placed;
    PlacedSplit(code, at, a + b + c + d, e);
    PlacedSplit(code, at, a + b + c, d);
    PlacedSplit(code, at, a + b, c);
    PlacedSplit(code, at, a, b);
  }

  lemma PlacedLast(code: seq<Instr>, at: nat, a: seq<Instr>, i: Instr)
    requires Placed(code, at, a + [i])
    ensures Placed(code, at, a) && at + |a| < |code| && code[at + |a|] == i
  {
    PlacedSplit(code, at, a, [i]);
    PlacedAt(code, at + |a|, [i], 0);
  }

  /** Passing a label. */
  lemma Pass(code: seq<Instr>, s: State, pc: nat, regs: seq<int>)
    requires pc < |code| && code[pc].Mark? && Reaches(code, s, Run(pc, regs))
    ensures Reaches(code, s, Run(pc + 1, regs))
  {
    ReachStep(code, s, Run(pc, regs));
  }

  /** The machine at the start label of a loop goes through its rounds. */
  lemma {:induction false} RoundsRun(code: seq<Instr>, at: nat, s: Stmt, lb: nat, n: nat, next: nat, regs: seq<int>, env: seq<int>, fuel: nat) returns (after: seq<int>)
    requires s.Loop? && StmtOk(s, |env|, true) && Agrees(regs, env) && |env| <= n
    requires var r := GenRound(s, lb, n, next); LaidOut(code, r, lb, at) && r.back.nextReg <= |regs|
    ensures Follows(code, Run(at, regs), Rounds(Emitted, s, env, fuel), EndAt(GenRound(s, lb, n, next), at) + 1, None, after, |regs|, fuel)
    decreases fuel, s, 0
  {
    hide Reaches, Busy, Kept, Agrees, Unique, Placed, GenTest, GenStmt, GenOpt, GenBack, Find, Next1;
    var r := GenRound(s, lb, n, next);
    var s0 := Run(at, regs);
    after := regs;
    if fuel == 0 {
      StartsBusy(code, s0);
    } else {
      FindMark(code, at, lb);
      FindMark(code, NextAt(r, at), lb + 2);
      FindMark(code, EndAt(r, at), lb + 1);
      var s1 := Run(at + 1, regs);
      ReachSelf(code, s1);
      var f := Rounds(Emitted, s, env, fuel);
      var t := EvalOpt(Emitted, s.test, env);
      after := TestRuns(code, at + 1, s.test, lb + 1, n, next, regs, env);
      if t.Val? && t.v == 0 {
        KeptLength(regs, after, |env|, n);
        Pass(code, s1, EndAt(r, at), after);
      } else if t.Val? {
        KeptLength(regs, after, |env|, n);
        var s2 := Run(BodyAt(r, at), after);
        after := BodyRun(code, at, s, lb, n, next, after, t.env, fuel);
        FollowsFrom(code, s1, s2, f, EndAt(r, at) + 1, None, after, |regs|, fuel - 1);
      }
      MarkSteps(code, at, regs);
      FollowsStep(code, s0, f, EndAt(r, at) + 1, after, |regs|, fuel - 1);
    }
  }

  lemma StartsBusy(code: seq<Instr>, s: State)
    requires s.Run? && s.pc < |code|
    ensures Busy(code, s, 0)
  {
    assert Live(code, s, 0);
  }

  lemma MarkSteps(code: seq<Instr>, at: nat, regs: seq<int>)
    requires at < |code| && code[at].Mark?
    ensures Next1(code, Run(at, regs)) == Run(at + 1, regs)
  {
  }

  /** The rest of a round after its top test held. */
  function RestOfRound(s: Stmt, env: seq<int>, fuel: nat): (f: Flow)
    requires s.Loop? && StmtOk(s, |env|, true) && fuel > 0
    ensures !f.Broke? && !f.Continued?
  {
    var f := Exec(Emitted, s.body, env, true, fuel - 1);
    if f.Broke? then Next(f.env)
    else if !f.Next? && !f.Continued? then f
    else AfterBody(s, f.env, fuel)
  }

  function AfterBody(s: Stmt, env: seq<int>, fuel: nat): (f: Flow)
    requires s.Loop? && StmtOk(s, |env|, true) && fuel > 0
    ensures !f.Broke? && !f.Continued?
  {
    var n := EvalOpt(Emitted, s.iter, env);
    if n.Trap? then Trapped
    else
      var p := EvalBack(s.post, n.env);
      if p.Trap? then Trapped
      else if p.v != 0 then Rounds(Emitted, s, p.env, fuel - 1)
      else Next(p.env)
  }

  lemma {:induction false} BodyRun(code: seq<Instr>, at: nat, s: Stmt, lb: nat, n: nat, next: nat, regs: seq<int>, env: seq<int>, fuel: nat) returns (after: seq<int>)
    requires s.Loop? && StmtOk(s, |env|, true) && Agrees(regs, env) && |env| <= n && fuel > 0
    requires var r := GenRound(s, lb, n, next); LaidOut(code, r, lb, at) && r.back.nextReg <= |regs|
    ensures Follows(code, Run(BodyAt(GenRound(s, lb, n, next), at), regs), RestOfRound(s, env, fuel), EndAt(GenRound(s, lb, n, next), at) + 1, None, after, |regs|, fuel - 1)
    decreases fuel - 1, s, 4
  {
    hide Reaches, Busy, Kept, Agrees, Unique, Placed, GenTest, GenStmt, GenOpt, GenBack, Find, Next1, AfterBody;
    var r := GenRound(s, lb, n, next);
    var s0 := Run(BodyAt(r, at), regs);
    FindMark(code, NextAt(r, at), lb + 2);
    FindMark(code, EndAt(r, at), lb + 1);
    var loop := Some(Labels(lb + 2, lb + 1));
    after := StmtRuns(code, BodyAt(r, at), s.body, loop, r.test.nextReg, r.test.nextLabel, regs, env, fuel - 1);
    var f := Exec(Emitted, s.body, env, true, fuel - 1);
    if f.Broke? {
      Pass(code, s0, EndAt(r, at), after);
    } else if f.Next? || f.Continued? {
      Pass(code, s0, NextAt(r, at), after);
      var s1 := Run(NextAt(r, at) + 1, after);
      after := TailRun(code, at, s, lb, n, next, after, f.env, fuel);
      FollowsFrom(code, s0, s1, AfterBody(s, f.env, fuel), EndAt(r, at) + 1, None, after, |regs|, fuel - 1);
    }
  }

  /** The iteration expression, the do test, and the rounds that follow. */
  lemma {:induction false} TailRun(code: seq<Instr>, at: nat, s: Stmt, lb: nat, n: nat, next: nat, regs: seq<int>, env: seq<int>, fuel: nat) returns (after: seq<int>)
    requires s.Loop? && StmtOk(s, |env|, true) && Agrees(regs, env) && |env| <= n && fuel > 0
    requires var r := GenRound(s, lb, n, next); LaidOut(code, r, lb, at) && r.back.nextReg <= |regs|
    ensures Follows(code, Run(NextAt(GenRound(s, lb, n, next), at) + 1, regs), AfterBody(s, env, fuel), EndAt(GenRound(s, lb, n, next), at) + 1, None, after, |regs|, fuel - 1)
    decreases fuel - 1, s, 3
  {
    hide Reaches, Busy, Kept, Agrees, Unique, Placed, GenTest, GenStmt, GenOpt, GenBack, Find, Next1, Rounds, StmtOk;
    hide StmtOk;
    LoopOk(s, |env|);
    var r := GenRound(s, lb, n, next);
    var s0 := Run(NextAt(r, at) + 1, regs);
    FindMark(code, at, lb);
    after := OptEffects(code, NextAt(r, at) + 1, s.iter, r.body.nextReg, r.body.nextLabel, regs, env);
    var v := EvalOpt(Emitted, s.iter, env);
    if v.Val? {
      var s1 := Run(BackAt(r, at), after);
      var mid := after;
      after := BackRuns(code, BackAt(r, at), s.post, lb, r.iter.nextReg, r.iter.nextLabel, mid, v.env);
      var p := EvalBack(s.post, v.env);
      if p.Trap? {
        ReachThen(code, s0, s1, Fault);
      } else {
        KeptLength(mid, after, |env|, r.iter.nextReg);
        if p.v != 0 {
          var s2 := Run(at, after);
          ReachThen(code, s0, s1, s2);
          after := RoundsRun(code, at, s, lb, n, next, after, p.env, fuel - 1);
          FollowsFrom(code, s0, s2, Rounds(Emitted, s, p.env, fuel - 1), EndAt(r, at) + 1, None, after, |regs|, fuel - 1);
        } else {
          ReachThen(code, s0, s1, Run(EndAt(r, at), after));
          Pass(code, s0, EndAt(r, at), after);
        }
      }
    }
  }

  lemma LoopOk(s: Stmt, locals: nat)
    requires s.Loop? && StmtOk(s, locals, true)
    ensures OptOk(s.init, locals) && OptOk(s.test, locals) && OptOk(s.iter, locals) && OptOk(s.post, locals) && StmtOk(s.body, locals, true)
  {
  }

  ghost predicate BeginStmt(code: seq<Instr>, pc: nat, s: Stmt, loop: Option<Labels>, n: nat, lb: nat, regs: seq<int>, env: seq<int>) {
    StmtOk(s, |env|, loop.Some?) && Ready(code, pc, GenStmt(s, loop, n, lb), regs, env, n)
  }

  ghost predicate EndStmt(code: seq<Instr>, pc: nat, s: Stmt, loop: Option<Labels>, n: nat, lb: nat, regs: seq<int>, env: seq<int>, fuel: nat, after: seq<int>)
    requires StmtOk(s, |env|, loop.Some?)
  {
    Follows(code, Run(pc, regs), Exec(Emitted, s, env, loop.Some?, fuel), pc + |GenStmt(s, loop, n, lb).code|, loop, after, |regs|, fuel)
  }

  lemma SimpleRuns(code: seq<Instr>, pc: nat, s: Stmt, loop: Option<Labels>, n: nat, lb: nat, regs: seq<int>, env: seq<int>, fuel: nat) returns (after: seq<int>)
    requires (s.Skip? || s.Do? || s.Break? || s.Continue? || s.Return?) && BeginStmt(code, pc, s, loop, n, lb, regs, env)
    ensures EndStmt(code, pc, s, loop, n, lb, regs, env, fuel, after)
  {
    hide Reaches, Busy, Kept, Agrees, Unique, Placed, GenExpr, Find;
    var g := GenStmt(s, loop, n, lb);
    ReachSelf(code, Run(pc, regs));
    after := regs;
    if s.Break? || s.Continue? {
      Go(code, Run(pc, regs), pc, g.code, 0, regs);
    } else if s.Do? || s.Return? {
      var a := GenExpr(s.e, n, lb);
      var tail := if s.Return? then [Ret(a.reg)] else [];
      assert g.code == a.code + tail;
      ReadyFirst(code, pc, g, a, tail, regs, env, n, n);
      after := ExprRuns(code, pc, s.e, n, lb, regs, env);
      if Eval(Emitted, s.e, env).Val? {
        KeptLength(regs, after, |env|, n);
        if s.Return? {
          Go(code, Run(pc, regs), pc + |a.code|, tail, 0, after);
        }
      }
    }
  }

  lemma SeqRuns(code: seq<Instr>, pc: nat, s: Stmt, loop: Option<Labels>, n: nat, lb: nat, regs: seq<int>, env: seq<int>, fuel: nat) returns (after: seq<int>)
    requires s.Seq? && BeginStmt(code, pc, s, loop, n, lb, regs, env)
    ensures EndStmt(code, pc, s, loop, n, lb, regs, env, fuel, after)
    decreases fuel, s, 4
  {
    hide Reaches, Busy, Kept, Agrees, Unique, Placed, Find;
    var a := GenStmt(s.first, loop, n, lb);
    var b := GenStmt(s.second, loop, a.nextReg, a.nextLabel);
    ReadyFirst(code, pc, GenStmt(s, loop, n, lb), a, b.code, regs, env, n, n);
    after := StmtRuns(code, pc, s.first, loop, n, lb, regs, env, fuel);
    var f := Exec(Emitted, s.first, env, loop.Some?, fuel);
    if f.Next? {
      var mid := Run(pc + |a.code|, after);
      after := StmtRuns(code, pc + |a.code|, s.second, loop, a.nextReg, a.nextLabel, after, f.env, fuel);
      FollowsFrom(code, Run(pc, regs), mid, Exec(Emitted, s, env, loop.Some?, fuel), pc + |a.code| + |b.code|, loop, after, |regs|, fuel);
    }
  }

  /** One arm of an if: it runs, then control goes on past the whole statement. */
  lemma ArmFollows(code: seq<Instr>, s0: State, pc: nat, arm: Stmt, loop: Option<Labels>, n: nat, lb: nat, regs: seq<int>, env: seq<int>, fuel: nat, size: nat) returns (after: seq<int>)
    requires BeginStmt(code, pc, arm, loop, n, lb, regs, env) && Reaches(code, s0, Run(pc, regs)) && size == |regs|
    ensures Follows(code, s0, Exec(Emitted, arm, env, loop.Some?, fuel), pc + |GenStmt(arm, loop, n, lb).code|, loop, after, size, fuel)
    decreases fuel, arm, 6
  {
    hide Reaches, Busy, Kept, Agrees, Unique, Placed, Find, Exec;
    after := StmtRuns(code, pc, arm, loop, n, lb, regs, env, fuel);
    FollowsFrom(code, s0, Run(pc, regs), Exec(Emitted, arm, env, loop.Some?, fuel), pc + |GenStmt(arm, loop, n, lb).code|, loop, after, size, fuel);
  }

  lemma IfRuns(code: seq<Instr>, pc: nat, s: Stmt, loop: Option<Labels>, n: nat, lb: nat, regs: seq<int>, env: seq<int>, fuel: nat) returns (after: seq<int>)
    requires s.If? && s.elsePart.None? && BeginStmt(code, pc, s, loop, n, lb, regs, env)
    ensures EndStmt(code, pc, s, loop, n, lb, regs, env, fuel, after)
    decreases fuel, s, 4
  {
    hide Reaches, Busy, Kept, Agrees, Unique, Placed, Find, GenBranch, GenStmt, Exec;
    IfShape(s, loop, n, lb);
    ExecIf(s, env, loop.Some?, fuel);
    var k := GenBranch(s.c, lb, false, n, lb + 1);
    var g := GenStmt(s.thenPart, loop, k.nextReg, k.nextLabel);
    var s0 := Run(pc, regs);
    var pThen := pc + |k.code|;
    var pMark := pThen + |g.code|;
    ReadyFirst(code, pc, GenStmt(s, loop, n, lb), k, g.code + [Mark(lb)], regs, env, n, n);
    PlacedSplit(code, pThen, g.code, [Mark(lb)]);
    PlacedMark(code, pMark, [Mark(lb)], 0, lb);
    after := BranchRuns(code, pc, s.c, lb, false, n, lb + 1, regs, env);
    var r := Eval(Emitted, s.c, env);
    if r.Val? {
      KeptLength(regs, after, |env|, n);
      if r.v != 0 {
        after := ArmFollows(code, s0, pThen, s.thenPart, loop, k.nextReg, k.nextLabel, after, r.env, fuel, |regs|);
        var f := Exec(Emitted, s.thenPart, r.env, loop.Some?, fuel);
        if f.Next? {
          Go(code, s0, pMark, [Mark(lb)], 0, after);
        }
        Carry(code, s0, f, pMark, pMark + 1, loop, after, |regs|, fuel);
      } else {
        Go(code, s0, pMark, [Mark(lb)], 0, after);
      }
    }
  }

  /** Having fallen out of an arm at p, control is carried on to q. */
  lemma Carry(code: seq<Instr>, s0: State, f: Flow, p: nat, q: nat, loop: Option<Labels>, after: seq<int>, size: nat, fuel: nat)
    requires loop.None? ==> !f.Broke? && !f.Continued?
    requires Follows(code, s0, f, p, loop, after, size, fuel) && (f.Next? ==> Reaches(code, s0, Run(q, after)))
    ensures Follows(code, s0, f, q, loop, after, size, fuel)
  {
    hide Reaches, Busy, Agrees, Find;
  }

  lemma ThenRuns(code: seq<Instr>, s0: State, pc: nat, arm: Stmt, loop: Option<Labels>, n: nat, lb: nat, regs: seq<int>, env: seq<int>, fuel: nat, size: nat, mid: seq<Instr>, end: nat) returns (after: seq<int>)
    requires BeginStmt(code, pc, arm, loop, n, lb, regs, env) && Reaches(code, s0, Run(pc, regs)) && size == |regs|
    requires |mid| > 0 && mid[0] == Jump(end) && Placed(code, pc + |GenStmt(arm, loop, n, lb).code|, mid)
    requires Find(code, end, 0) < |code| && code[Find(code, end, 0)].Mark?
    ensures Follows(code, s0, Exec(Emitted, arm, env, loop.Some?, fuel), Find(code, end, 0) + 1, loop, after, size, fuel)
    decreases fuel, arm, 7
  {
    hide Reaches, Busy, Kept, Agrees, Unique, Placed, Find, Exec, GenStmt;
    after := ArmFollows(code, s0, pc, arm, loop, n, lb, regs, env, fuel, size);
    var f := Exec(Emitted, arm, env, loop.Some?, fuel);
    var p := pc + |GenStmt(arm, loop, n, lb).code|;
    if f.Next? {
      Go(code, s0, p, mid, 0, after);
      Pass(code, s0, Find(code, end, 0), after);
    }
    Carry(code, s0, f, p, Find(code, end, 0) + 1, loop, after, size, fuel);
  }

  lemma ElseRuns(code: seq<Instr>, s0: State, pc: nat, arm: Stmt, loop: Option<Labels>, n: nat, lb: nat, regs: seq<int>, env: seq<int>, fuel: nat, size: nat) returns (after: seq<int>)
    requires BeginStmt(code, pc, arm, loop, n, lb, regs, env) && Reaches(code, s0, Run(pc, regs)) && size == |regs|
    requires var p := pc + |GenStmt(arm, loop, n, lb).code|; p < |code| && code[p].Mark?
    ensures Follows(code, s0, Exec(Emitted, arm, env, loop.Some?, fuel), pc + |GenStmt(arm, loop, n, lb).code| + 1, loop, after, size, fuel)
    decreases fuel, arm, 7
  {
    hide Reaches, Busy, Kept, Agrees, Unique, Placed, Find, Exec, GenStmt;
    after := ArmFollows(code, s0, pc, arm, loop, n, lb, regs, env, fuel, size);
    var f := Exec(Emitted, arm, env, loop.Some?, fuel);
    var p := pc + |GenStmt(arm, loop, n, lb).code|;
    if f.Next? {
      Pass(code, s0, p, after);
    }
    Carry(code, s0, f, p, p + 1, loop, after, size, fuel);
  }

  lemma IfElseRuns(code: seq<Instr>, pc: nat, s: Stmt, loop: Option<Labels>, n: nat, lb: nat, regs: seq<int>, env: seq<int>, fuel: nat) returns (after: seq<int>)
    requires s.If? && s.elsePart.Some? && BeginStmt(code, pc, s, loop, n, lb, regs, env)
    ensures EndStmt(code, pc, s, loop, n, lb, regs, env, fuel, after)
    decreases fuel, s, 4
  {
    hide Reaches, Busy, Kept, Agrees, Unique, Placed, Find, GenBranch, GenStmt, Exec, Follows;
    var k := GenBranch(s.c, lb, false, n, lb + 1);
    var g := GenStmt(s.thenPart, loop, k.nextReg, k.nextLabel);
    var end := g.nextLabel;
    var h := GenStmt(s.elsePart.value, loop, g.nextReg, end + 1);
    var s0 := Run(pc, regs);
    var mid, last := [Jump(end), Mark(lb)], [Mark(end)];
    var pThen := pc + |k.code|;
    var pMid := pThen + |g.code|;
    var pElse := pMid + 2;
    var pEnd := pElse + |h.code|;
    IfShape(s, loop, n, lb);
    ArmsPlaced(code, pc, k.code, g.code, mid, h.code, last);
    PlacedMark(code, pMid, mid, 1, lb);
    PlacedMark(code, pEnd, last, 0, end);
    PlacedAt(code, pEnd, last, 0);
    after := BranchRuns(code, pc, s.c, lb, false, n, lb + 1, regs, env);
    var r := Eval(Emitted, s.c, env);
    ExecIf(s, env, loop.Some?, fuel);
    if r.Trap? {
      TrapFollows(code, s0, pEnd + 1, loop, after, |regs|, fuel);
    } else {
      KeptLength(regs, after, |env|, n);
      if r.v != 0 {
        after := ThenRuns(code, s0, pThen, s.thenPart, loop, k.nextReg, k.nextLabel, after, r.env, fuel, |regs|, mid, end);
      } else {
        Go(code, s0, pMid, mid, 1, after);
        after := ElseRuns(code, s0, pElse, s.elsePart.value, loop, g.nextReg, end + 1, after, r.env, fuel, |regs|);
      }
    }
  }

  lemma TrapFollows(code: seq<Instr>, s0: State, past: nat, loop: Option<Labels>, after: seq<int>, size: nat, fuel: nat)
    requires Reaches(code, s0, Fault)
    ensures Follows(code, s0, Trapped, past, loop, after, size, fuel)
  {
  }

  lemma ExecIf(s: Stmt, env: seq<int>, inLoop: bool, fuel: nat)
    requires s.If? && StmtOk(s, |env|, inLoop)
    ensures var r := Eval(Emitted, s.c, env);
      Exec(Emitted, s, env, inLoop, fuel) ==
        if r.Trap? then Trapped
        else if r.v != 0 then Exec(Emitted, s.thenPart, r.env, inLoop, fuel)
        else if s.elsePart.None? then Next(r.env)
        else Exec(Emitted, s.elsePart.value, r.env, inLoop, fuel)
  {
    hide Eval;
  }

  lemma LoopRuns(code: seq<Instr>, pc: nat, s: Stmt, loop: Option<Labels>, n: nat, lb: nat, regs: seq<int>, env: seq<int>, fuel: nat) returns (after: seq<int>)
    requires s.Loop? && BeginStmt(code, pc, s, loop, n, lb, regs, env)
    ensures EndStmt(code, pc, s, loop, n, lb, regs, env, fuel, after)
    decreases fuel, s, 4
  {
    hide Reaches, Busy, Kept, Agrees, Unique, Placed, Find, GenOpt, GenRound, Rounds;
    var i := GenOpt(s.init, n, lb + 3);
    var r := GenRound(s, lb, i.nextReg, i.nextLabel);
    var s0 := Run(pc, regs);
    var at := pc + |i.code|;
    ReadyFirst(code, pc, GenStmt(s, loop, n, lb), i, r.Code(lb), regs, env, n, n);
    RoundPlaced(code, r, lb, at);
    after := OptEffects(code, pc, s.init, n, lb + 3, regs, env);
    var v := EvalOpt(Emitted, s.init, env);
    if v.Val? {
      var mid := after;
      after := RoundsRun(code, at, s, lb, i.nextReg, i.nextLabel, mid, v.env, fuel);
      FollowsFrom(code, s0, Run(at, mid), Rounds(Emitted, s, v.env, fuel), EndAt(r, at) + 1, loop, after, |regs|, fuel);
    }
  }

  /** Main result for statements. */
  lemma {:induction false} StmtRuns(code: seq<Instr>, pc: nat, s: Stmt, loop: Option<Labels>, n: nat, lb: nat, regs: seq<int>, env: seq<int>, fuel: nat) returns (after: seq<int>)
    requires BeginStmt(code, pc, s, loop, n, lb, regs, env)
    ensures EndStmt(code, pc, s, loop, n, lb, regs, env, fuel, after)
    decreases fuel, s, 5
  {
    hide BeginStmt, EndStmt;
    match s
    case Seq(_, _) => after := SeqRuns(code, pc, s, loop, n, lb, regs, env, fuel);
    case If(_, _, e) =>
      if e.None? {
        after := IfRuns(code, pc, s, loop, n, lb, regs, env, fuel);
      } else {
        after := IfElseRuns(code, pc, s, loop, n, lb, regs, env, fuel);
      }
    case Loop(_, _, _, _, _) => after := LoopRuns(code, pc, s, loop, n, lb, regs, env, fuel);
    case _ => after := SimpleRuns(code, pc, s, loop, n, lb, regs, env, fuel);
  }
}
