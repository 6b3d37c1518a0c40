/** Small functions with the other statements: a while loop, a do loop, a choice with else. */
module CodLoops {
  import opened CodSource
  import opened CodMachine
  import opened CodGen
  import opened CodCorrect
  import opened CodRuns
  import opened CodSteady
  import opened CodProgram
  import opened CodValues

  // Locals x and s.

  function Take(): (e: Expr)
    ensures ExprOk(e, 2) && SafeExpr(e) && e == OpAssign(Sub, 0, Const(1))
  {
    assert ExprOk(Const(1), 2) && SafeExpr(Const(1));
    OpAssign(Sub, 0, Const(1))
  }

  function Give(): (e: Expr)
    ensures ExprOk(e, 2) && SafeExpr(e) && e == OpAssign(Add, 1, Const(2))
  {
    assert ExprOk(Const(2), 2) && SafeExpr(Const(2));
    OpAssign(Add, 1, Const(2))
  }

  /** x -= 1; s += 2; */
  function Body(): (s: Stmt)
    ensures StmtOk(s, 2, true) && SafeStmt(s) && s == Seq(Do(Take()), Do(Give()))
    ensures StmtOk(s.first, 2, true) && StmtOk(s.second, 2, true)
  {
    assert StmtOk(Do(Take()), 2, true) && SafeStmt(Do(Take()));
    assert StmtOk(Do(Give()), 2, true) && SafeStmt(Do(Give()));
    Seq(Do(Take()), Do(Give()))
  }

  function Against(cmp: CmpOp): (e: Expr)
    requires cmp.Gt? || cmp.Neq?
    ensures ExprOk(e, 2) && SafeExpr(e) && e == Compare(cmp, Var(0), Const(0))
  {
    assert ExprOk(Var(0), 2) && ExprOk(Const(0), 2);
    Compare(cmp, Var(0), Const(0))
  }

  /** while (x > 0) ... */
  function WhileLoop(): (s: Stmt)
    ensures StmtOk(s, 2, true) && StmtOk(s, 2, false) && SafeStmt(s) && s == Loop(None, Some(Against(Gt)), None, None, Body())
  {
    hide Body, Against;
    Loop(None, Some(Against(Gt)), None, None, Body())
  }

  /** do ... while (x != 0); */
  function DoLoop(): (s: Stmt)
    ensures StmtOk(s, 2, true) && StmtOk(s, 2, false) && SafeStmt(s) && s == Loop(None, None, None, Some(Against(Neq)), Body())
  {
    hide Body, Against;
    Loop(None, None, None, Some(Against(Neq)), Body())
  }

  function Answer(loop: Stmt): (s: Stmt)
    requires StmtOk(loop, 2, false) && SafeStmt(loop)
    ensures StmtOk(s, 2, false) && SafeStmt(s) && s == Seq(loop, Return(Var(1))) && StmtOk(Return(Var(1)), 2, false)
  {
    assert ExprOk(Var(1), 2) && SafeExpr(Var(1));
    assert StmtOk(Return(Var(1)), 2, false) && SafeStmt(Return(Var(1)));
    Seq(loop, Return(Var(1)))
  }

  lemma BodyRuns(x: int, s: int, fuel: nat)
    requires Int32(x - 1) && Int32(s + 2)
    ensures Exec(Promised, Body(), [x, s], true, fuel) == Next([x - 1, s + 2])
  {
    hide Arith, StmtOk, SafeStmt, SafeExpr;
    var b := Body();
    ArithExact(x, 1);
    ArithExact(s, 2);
    Leaves([x, s], 1);
    Leaves([x - 1, s], 2);
    assert [x, s][0 := x - 1] == [x - 1, s] && [x - 1, s][1 := s + 2] == [x - 1, s + 2];
    assert Eval(Promised, Take(), [x, s]) == Val(x - 1, [x - 1, s]);
    assert Eval(Promised, Give(), [x - 1, s]) == Val(s + 2, [x - 1, s + 2]);
    assert Exec(Promised, b.first, [x, s], true, fuel) == Next([x - 1, s]);
    assert Exec(Promised, b.second, [x - 1, s], true, fuel) == Next([x - 1, s + 2]);
  }

  lemma AgainstIs(cmp: CmpOp, x: int, s: int)
    requires cmp.Gt? || cmp.Neq?
    ensures Eval(Promised, Against(cmp), [x, s]) == Val(if (if cmp.Gt? then x > 0 else x != 0) then 1 else 0, [x, s])
  {
    Leaves([x, s], 0);
    assert EvalBoth(Promised, Against(cmp), [x, s]) == Pair(x, 0, [x, s]);
  }

  /** The rounds left with x to go. */
  lemma {:induction false} WhileRounds(x: int, s: int, fuel: nat)
    requires 0 <= x && Int32(x) && Int32(s) && Int32(s + 2 * x) && fuel > x
    ensures Rounds(Promised, WhileLoop(), [x, s], fuel) == Next([0, s + 2 * x])
    decreases fuel
  {
    hide Exec, Eval, StmtOk, SafeStmt, Body, Against;
    AgainstIs(Gt, x, s);
    if x > 0 {
      BodyRuns(x, s, fuel - 1);
      WhileRounds(x - 1, s + 2, fuel - 1);
    }
  }

  lemma {:induction false} DoRounds(x: int, s: int, fuel: nat)
    requires 0 < x && Int32(x) && Int32(s) && Int32(s + 2 * x) && fuel > x
    ensures Rounds(Promised, DoLoop(), [x, s], fuel) == Next([0, s + 2 * x])
    decreases fuel
  {
    hide Exec, Eval, StmtOk, SafeStmt, Body, Against;
    BodyRuns(x, s, fuel - 1);
    AgainstIs(Neq, x - 1, s + 2);
    if x > 1 { DoRounds(x - 1, s + 2, fuel - 1); }
  }

  /** A loop that ends with 2 * x in s, and `return s`. */
  lemma AnswerRuns(loop: Stmt, regs: seq<int>, x: int, fuel: nat)
    requires StmtOk(loop, 2, false) && SafeStmt(loop) && loop.Loop? && loop.init.None? && StmtOk(loop, 2, true)
    requires Rounds(Promised, loop, [x, 0], fuel) == Next([0, 2 * x]) && Loaded(Answer(loop), regs, [x, 0])
    ensures EndsAs(Compile(Answer(loop), 2).code, Run(0, regs), Returned(2 * x, [0, 2 * x]), |regs|, 2)
  {
    hide Rounds, EndsAs, StmtOk, SafeStmt, Compile, Loaded;
    var end := [0, 2 * x];
    assert Exec(Promised, loop, [x, 0], false, fuel) == Next(end);
    assert Eval(Promised, Var(1), end) == Val(end[1], end);
    assert Exec(Promised, Return(Var(1)), end, false, fuel) == Returned(end[1], end);
    assert Exec(Promised, Answer(loop), [x, 0], false, fuel) == Returned(end[1], end);
    ExecAgrees(Answer(loop), [x, 0], false, fuel);
    FunctionRuns(Answer(loop), regs, [x, 0], fuel);
  }

  /** The code of `while (x > 0) { x -= 1; s += 2; } return s;`, s being 0: returns 2 * x. */
  lemma WhileReturns(regs: seq<int>, x: int)
    requires 0 <= x && Int32(2 * x) && Loaded(Answer(WhileLoop()), regs, [x, 0])
    ensures EndsAs(Compile(Answer(WhileLoop()), 2).code, Run(0, regs), Returned(2 * x, [0, 2 * x]), |regs|, 2)
  {
    hide Rounds, EndsAs, Compile, Loaded, WhileLoop, Answer;
    WhileRounds(x, 0, x + 1);
    AnswerRuns(WhileLoop(), regs, x, x + 1);
  }

  /** The same with do and while (x != 0), x being positive. */
  lemma DoReturns(regs: seq<int>, x: int)
    requires 0 < x && Int32(2 * x) && Loaded(Answer(DoLoop()), regs, [x, 0])
    ensures EndsAs(Compile(Answer(DoLoop()), 2).code, Run(0, regs), Returned(2 * x, [0, 2 * x]), |regs|, 2)
  {
    hide Rounds, EndsAs, Compile, Loaded, DoLoop, Answer;
    DoRounds(x, 0, x + 1);
    AnswerRuns(DoLoop(), regs, x, x + 1);
  }

  // ----- if and else

  /** if (x < y) return y; else return x; */
  function Larger(): (s: Stmt)
    ensures StmtOk(s, 2, false) && SafeStmt(s) && s == If(Compare(Lt, Var(0), Var(1)), Return(Var(1)), Some(Return(Var(0))))
  {
    assert ExprOk(Var(0), 2) && ExprOk(Var(1), 2) && SafeExpr(Var(0)) && SafeExpr(Var(1));
    assert StmtOk(Return(Var(0)), 2, false) && StmtOk(Return(Var(1)), 2, false);
    assert SafeStmt(Return(Var(0))) && SafeStmt(Return(Var(1)));
    assert ExprOk(Compare(Lt, Var(0), Var(1)), 2) && SafeExpr(Compare(Lt, Var(0), Var(1)));
    If(Compare(Lt, Var(0), Var(1)), Return(Var(1)), Some(Return(Var(0))))
  }

  /** Its code returns the larger of two numbers. */
  lemma LargerReturns(regs: seq<int>, x: int, y: int)
    requires Loaded(Larger(), regs, [x, y])
    ensures EndsAs(Compile(Larger(), 2).code, Run(0, regs), Returned(if x < y then y else x, [x, y]), |regs|, 2)
  {
    hide EndsAs, Compile, Loaded;
    var env := [x, y];
    TwoVars(Compare(Lt, Var(0), Var(1)), x, y);
    assert Eval(Promised, Compare(Lt, Var(0), Var(1)), env) == Val(if x < y then 1 else 0, env);
    Leaves(env, 0);
    assert Exec(Promised, Return(Var(0)), env, false, 0) == Returned(x, env);
    assert Exec(Promised, Return(Var(1)), env, false, 0) == Returned(y, env);
    assert Exec(Promised, Larger(), env, false, 0) == Returned(if x < y then y else x, env);
    ExecAgrees(Larger(), env, false, 0);
    FunctionRuns(Larger(), regs, env, 0);
  }
}
