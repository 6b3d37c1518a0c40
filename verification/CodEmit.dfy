/** The generator itself: it walks the syntax and appends to an instruction stream. */
module CodEmit {
  import opened CodSource
  import opened CodMachine
  import opened CodGen
  import opened CodCorrect
  import opened CodRuns
  import opened CodProgram
  import opened CodSteady

  /** What operator_prep leaves: code for the operands and where their values are. For the
      short-circuit operators the whole operation, its result as left operand. */
  datatype Prepared = Prepared(code: seq<Instr>, left: nat, right: nat, nextReg: nat, nextLabel: nat)

  predicate IsOperator(e: Expr) {
    e.Binary? || e.Compare? || e.Logic? || e.UnaryPlus? || e.Negate? || e.BitNot? || e.Not?
  }

  function GenPrep(e: Expr, n: nat, lb: nat): Prepared
    requires IsOperator(e)
  {
    if e.Binary? || e.Compare? then
      var g := GenExpr(e.left, n, lb);
      var h := GenExpr(e.right, g.nextReg, g.nextLabel);
      Prepared(g.code + h.code, g.reg, h.reg, h.nextReg, h.nextLabel)
    else if e.Logic? then
      var g := GenExpr(e.left, n, lb);
      var res, lab := g.nextReg, g.nextLabel;
      var h := GenExpr(e.right, res + 1, lab + 1);
      Prepared(g.code + [Set(res, Truth(!e.isAnd)), BranchOn(e.isAnd, g.reg, lab)]
               + h.code + [BranchOn(e.isAnd, h.reg, lab), Set(res, Truth(e.isAnd)), Mark(lab)],
               res, h.reg, h.nextReg, h.nextLabel)
    else
      var g := GenExpr(e.e, n, lb);
      Prepared(g.code, 0, g.reg, g.nextReg, g.nextLabel)
  }

  lemma Assoc(a: seq<Instr>, b: seq<Instr>, c: seq<Instr>)
    ensures (a + b) + c == a + (b + c)
  {
  }

  class Stream {
    var code: seq<Instr>
    var nextReg: nat
    var nextLabel: nat

    /** An empty stream; the first registers belong to the locals. */
    constructor (locals: nat)
      ensures code == [] && nextReg == locals && nextLabel == 0
    {
      code, nextReg, nextLabel := [], locals, 0;
    }

    ghost predicate Is(c: seq<Instr>, n: nat, lb: nat)
      reads this
    {
      code == c && nextReg == n && nextLabel == lb
    }

    method GetReg() returns (r: nat)
      modifies this
      ensures r == old(nextReg) && Is(old(code), r + 1, old(nextLabel))
    {
      r := nextReg;
      nextReg := nextReg + 1;
    }

    method AllocLabel() returns (l: nat)
      modifies this
      ensures l == old(nextLabel) && Is(old(code), old(nextReg), l + 1)
    {
      l := nextLabel;
      nextLabel := nextLabel + 1;
    }

    method Emit(i: Instr)
      modifies this
      ensures Is(old(code) + [i], old(nextReg), old(nextLabel))
    {
      code := code + [i];
    }

    /** Set the result and branch to the end, or branch and set the other result. */
    method ShortCircuit(operand: nat, result: nat, isAnd: bool, target: nat, right: bool)
      modifies this
      ensures Is(old(code) + (if right then [BranchOn(isAnd, operand, target), Set(result, Truth(isAnd))]
                              else [Set(result, Truth(!isAnd)), BranchOn(isAnd, operand, target)]), old(nextReg), old(nextLabel))
    {
      if !right {
        Emit(Set(result, if isAnd then 0 else 1));
      }
      if isAnd {
        Emit(BranchZero(operand, target));
      } else {
        Emit(BranchNonZero(operand, target));
      }
      if right {
        Emit(Set(result, if isAnd then 1 else 0));
      }
    }

    method OperatorPrep(e: Expr) returns (left: nat, right: nat)
      requires IsOperator(e)
      modifies this
      ensures var p := GenPrep(e, old(nextReg), old(nextLabel));
        Is(old(code) + p.code, p.nextReg, p.nextLabel) && left == p.left && right == p.right
      decreases e, 1
    {
      hide GenExpr;
      ghost var c, n, lb := code, nextReg, nextLabel;
      left := 0;
      if e.Binary? || e.Compare? || e.Logic? {
        left := CgExpr(e.left);
        ghost var g := GenExpr(e.left, n, lb);
        if e.Logic? {
          var result := GetReg();
          var lab := AllocLabel();
          ShortCircuit(left, result, e.isAnd, lab, false);
          right := CgExpr(e.right);
          ghost var h := GenExpr(e.right, result + 1, lab + 1);
          ShortCircuit(right, result, e.isAnd, lab, true);
          Emit(Mark(lab));
          JoinLogic(c, g.code, [Set(result, Truth(!e.isAnd)), BranchOn(e.isAnd, g.reg, lab)], h.code,
                    [BranchOn(e.isAnd, h.reg, lab), Set(result, Truth(e.isAnd))], Mark(lab));
          left := result;
        } else {
          right := CgExpr(e.right);
          Assoc(c, g.code, GenExpr(e.right, g.nextReg, g.nextLabel).code);
        }
      } else {
        right := CgExpr(e.e);
      }
    }

    static lemma JoinLogic(c: seq<Instr>, g: seq<Instr>, a: seq<Instr>, h: seq<Instr>, b: seq<Instr>, m: Instr)
      requires |a| == 2 && |b| == 2
      ensures c + g + a + h + b + [m] == c + (g + a + h + [b[0], b[1], m])
    {
      assert b + [m] == [b[0], b[1], m];
    }

    method HandleIncDec(e: Expr) returns (r: nat)
      requires e.Step?
      modifies this
      ensures r == old(nextReg)
      ensures Is(old(code) + (if e.prefix then [OpImm(StepOp(e.up), e.x, e.x, 1), Mov(r, e.x)] else [Mov(r, e.x), OpImm(StepOp(e.up), e.x, e.x, 1)]), r + 1, old(nextLabel))
    {
      r := GetReg();
      if !e.prefix {
        Emit(Mov(r, e.x));
      }
      if e.up {
        Emit(OpImm(Add, e.x, e.x, 1));
      } else {
        Emit(OpImm(Sub, e.x, e.x, 1));
      }
      if e.prefix {
        Emit(Mov(r, e.x));
      }
    }

    /** The operator's own instructions, its operands being ready. */
    method ExecuteOperator(e: Expr, result: nat, left: nat, right: nat) returns (r: nat)
      requires IsOperator(e) && !e.Logic? && !e.Compare?
      modifies this
      ensures var t := old(nextReg);
        match e
        case Binary(op, _, _) => r == result && Is(old(code) + [Op(op, result, left, right)], t, old(nextLabel))
        case Negate(_) => r == result && Is(old(code) + [Set(t, 0), Op(Sub, result, t, right)], t + 1, old(nextLabel))
        case BitNot(_) => r == result && Is(old(code) + [Set(t, -1), Op(BitXor, result, t, right)], t + 1, old(nextLabel))
        case Not(_) => r == result && Is(old(code) + [Set(t, 0), Set(result, 0), Branch(Neq, t, right, old(nextLabel)), Set(result, 1), Mark(old(nextLabel))], t + 1, old(nextLabel) + 1)
        case _ => r == right && Is(old(code), t, old(nextLabel))
    {
      r := result;
      match e {
        case Binary(op, _, _) => Emit(Op(op, result, left, right));
        case Negate(_) =>
          var zero := GetReg();
          Emit(Set(zero, 0));
          Emit(Op(Sub, result, zero, right));
        case BitNot(_) =>
          var ones := GetReg();
          Emit(Set(ones, -1));
          Emit(Op(BitXor, result, ones, right));
        case Not(_) =>
          var zero := GetReg();
          Emit(Set(zero, 0));
          var lab := AllocLabel();
          Emit(Set(result, 0));
          Emit(Branch(Neq, zero, right, lab));
          Emit(Set(result, 1));
          Emit(Mark(lab));
        case _ => r := right;
      }
    }

    /** The value of a comparison: 0, then 1 unless a branch skips it. */
    method CgComparison(e: Expr, result: nat)
      requires e.Compare? && result + 1 == nextReg
      modifies this
      ensures var g := GenExpr(e, result, old(nextLabel));
        Is(old(code) + g.code, g.nextReg, g.nextLabel)
      decreases e, 4
    {
      hide GenBranch;
      ghost var c, n, lb := code, result, nextLabel;
      var lab := AllocLabel();
      Emit(Set(result, 0));
      BranchIfFalse(e, lab, false);
      Emit(Set(result, 1));
      Emit(Mark(lab));
      ghost var g := GenBranch(e, lab, false, n + 1, lb + 1);
      Assoc(c, [Set(n, 0)], g.code);
      Two(c + ([Set(n, 0)] + g.code), Set(n, 1), Mark(lb));
      Assoc(c, [Set(n, 0)] + g.code, [Set(n, 1), Mark(lb)]);
    }

    method CgOperator(e: Expr) returns (r: nat)
      requires IsOperator(e) || e.Step?
      modifies this
      ensures var g := GenExpr(e, old(nextReg), old(nextLabel));
        Is(old(code) + g.code, g.nextReg, g.nextLabel) && r == g.reg
      decreases e, if e.Compare? then 5 else 2
    {
      ghost var c, n, lb := code, nextReg, nextLabel;
      var result := GetReg();
      if e.Compare? {
        CgComparison(e, result);
        r := result;
      } else if e.Step? {
        r := HandleIncDec(e);
      } else {
        var left, right := OperatorPrep(e);
        if e.Logic? {
          r := left;
        } else {
          r := ExecuteOperator(e, result, left, right);
          ghost var p := GenPrep(e, n + 1, lb);
          PrepThen(e, n, lb);
          Assoc(c, p.code, code[|c + p.code|..]);
        }
      }
    }

    static lemma PrepThen(e: Expr, n: nat, lb: nat)
      requires IsOperator(e) && !e.Logic? && !e.Compare?
      ensures var p := GenPrep(e, n + 1, lb); var g := GenExpr(e, n, lb);
        match e
        case Binary(op, _, _) => g == Piece(p.code + [Op(op, n, p.left, p.right)], n, p.nextReg, p.nextLabel)
        case Negate(_) => g == Piece(p.code + [Set(p.nextReg, 0), Op(Sub, n, p.nextReg, p.right)], n, p.nextReg + 1, p.nextLabel)
        case BitNot(_) => g == Piece(p.code + [Set(p.nextReg, -1), Op(BitXor, n, p.nextReg, p.right)], n, p.nextReg + 1, p.nextLabel)
        case Not(_) => g == Piece(p.code + [Set(p.nextReg, 0), Set(n, 0), Branch(Neq, p.nextReg, p.right, p.nextLabel), Set(n, 1), Mark(p.nextLabel)], n, p.nextReg + 1, p.nextLabel + 1)
        case _ => g == Piece(p.code, p.right, p.nextReg, p.nextLabel)
    {
    }

    method CgExpr(e: Expr) returns (r: nat)
      modifies this
      ensures var g := GenExpr(e, old(nextReg), old(nextLabel));
        Is(old(code) + g.code, g.nextReg, g.nextLabel) && r == g.reg
      decreases e, if e.Compare? then 6 else 3
    {
      ghost var c, n, lb := code, nextReg, nextLabel;
      match e {
        case Const(v) =>
          r := GetReg();
          Emit(Set(r, v));
        case Var(x) => r := x;
        case Assign(x, a) =>
          var v := CgExpr(a);
          Emit(Mov(x, v));
          Assoc(c, GenExpr(a, n, lb).code, [Mov(x, v)]);
          r := x;
        case OpAssign(op, x, a) =>
          var v := CgExpr(a);
          var t := GetReg();
          Emit(Op(op, t, x, v));
          Emit(Mov(x, t));
          Assoc(c, GenExpr(a, n, lb).code, [Op(op, t, x, v), Mov(x, t)]);
          r := x;
        case Comma(a, b) =>
          var _ := CgExpr(a);
          r := CgExpr(b);
          ghost var g := GenExpr(a, n, lb);
          Assoc(c, g.code, GenExpr(b, g.nextReg, g.nextLabel).code);
        case Cond(_, _, _) => r := CgConditional(e);
        case _ => r := CgOperator(e);
      }
    }

    method CgConditional(e: Expr) returns (r: nat)
      requires e.Cond?
      modifies this
      ensures var g := GenExpr(e, old(nextReg), old(nextLabel));
        Is(old(code) + g.code, g.nextReg, g.nextLabel) && r == g.reg
      decreases e, 2
    {
      hide GenExpr, GenBranch;
      ghost var c, n, lb := code, nextReg, nextLabel;
      CondShape(e, n, lb);
      r := GetReg();
      var otherwise := AllocLabel();
      var end := AllocLabel();
      ghost var t := GenBranch(e.c, lb, false, n + 1, lb + 2);
      ghost var g := GenExpr(e.left, t.nextReg, t.nextLabel);
      ghost var h := GenExpr(e.right, g.nextReg, g.nextLabel);
      BranchIfFalse(e.c, otherwise, false);
      var v := CgExpr(e.left);
      Three(code, Mov(r, v), Jump(end), Mark(otherwise));
      Emit(Mov(r, v));
      Emit(Jump(end));
      Emit(Mark(otherwise));
      assert code == c + t.code + g.code + [Mov(n, g.reg), Jump(lb + 1), Mark(lb)];
      var w := CgExpr(e.right);
      Two(code, Mov(r, w), Mark(end));
      Emit(Mov(r, w));
      Emit(Mark(end));
      JoinArms(c, t.code, g.code, [Mov(n, g.reg), Jump(lb + 1), Mark(lb)], h.code, [Mov(n, h.reg), Mark(lb + 1)]);
    }

    static lemma Two(x: seq<Instr>, a: Instr, b: Instr)
      ensures x + [a] + [b] == x + [a, b]
    {
    }

    static lemma Three(x: seq<Instr>, a: Instr, b: Instr, d: Instr)
      ensures x + [a] + [b] + [d] == x + [a, b, d]
    {
    }

    static lemma JoinArms(c: seq<Instr>, t: seq<Instr>, g: seq<Instr>, a: seq<Instr>, h: seq<Instr>, b: seq<Instr>)
      ensures c + t + g + a + h + b == c + (t + (g + a) + (h + b))
    {
    }

    method BranchIfFalse(e: Expr, target: nat, reverse: bool)
      modifies this
      ensures var g := GenBranch(e, target, reverse, old(nextReg), old(nextLabel));
        Is(old(code) + g.code, g.nextReg, g.nextLabel)
      decreases e, if e.Compare? then 3 else 4
    {
      hide GenExpr;
      ghost var c, n, lb := code, nextReg, nextLabel;
      if !e.Compare? {
        var v := CgExpr(e);
        if reverse {
          Emit(BranchNonZero(v, target));
        } else {
          Emit(BranchZero(v, target));
        }
        Assoc(c, GenExpr(e, n, lb).code, [BranchOn(!reverse, v, target)]);
      } else {
        var left, right := OperatorPrep(e);
        var op := if reverse then Direct(e.cmp) else Reverse(e.cmp);
        Emit(Branch(op, left, right, target));
        Assoc(c, GenPrep(e, n, lb).code, [Branch(op, left, right, target)]);
      }
    }

    // ----- statements; `loop` holds the labels left in the node of the enclosing loop

    method CgStatement(s: Stmt, loop: Option<Labels>)
      modifies this
      ensures var g := GenStmt(s, loop, old(nextReg), old(nextLabel));
        Is(old(code) + g.code, g.nextReg, g.nextLabel)
      decreases s, 1
    {
      hide GenExpr, GenBranch, GenRound;
      ghost var c, n, lb := code, nextReg, nextLabel;
      match s {
        case Skip =>
        case Do(e) => var _ := CgExpr(e);
        case Seq(a, b) =>
          CgStatement(a, loop);
          CgStatement(b, loop);
          ghost var g := GenStmt(a, loop, n, lb);
          Assoc(c, g.code, GenStmt(b, loop, g.nextReg, g.nextLabel).code);
        case If(_, _, _) => CgSelection(s, loop);
        case Loop(_, _, _, _, _) => CgIteration(s, loop);
        case Break => if loop.Some? { Emit(Jump(loop.value.end)); }
        case Continue => if loop.Some? { Emit(Jump(loop.value.iter)); }
        case Return(e) =>
          var v := CgExpr(e);
          Emit(Ret(v));
          Assoc(c, GenExpr(e, n, lb).code, [Ret(v)]);
      }
    }

    method CgSelection(s: Stmt, loop: Option<Labels>)
      requires s.If?
      modifies this
      ensures var g := GenStmt(s, loop, old(nextReg), old(nextLabel));
        Is(old(code) + g.code, g.nextReg, g.nextLabel)
      decreases s, 0
    {
      hide GenExpr, GenBranch, GenRound, GenStmt;
      ghost var c, n, lb := code, nextReg, nextLabel;
      IfShape(s, loop, n, lb);
      var otherwise := AllocLabel();
      BranchIfFalse(s.c, otherwise, false);
      CgStatement(s.thenPart, loop);
      ghost var k := GenBranch(s.c, lb, false, n, lb + 1);
      ghost var g := GenStmt(s.thenPart, loop, k.nextReg, k.nextLabel);
      if s.elsePart.Some? {
        var end := AllocLabel();
        Emit(Jump(end));
        Emit(Mark(otherwise));
        CgStatement(s.elsePart.value, loop);
        Emit(Mark(end));
        ghost var h := GenStmt(s.elsePart.value, loop, g.nextReg, end + 1);
        Two(c + k.code + g.code, Jump(end), Mark(lb));
        JoinArms(c, k.code, g.code, [Jump(end), Mark(lb)], h.code, [Mark(end)]);
      } else {
        Emit(Mark(otherwise));
        Assoc(c + k.code, g.code, [Mark(lb)]);
        Assoc(c, k.code, g.code + [Mark(lb)]);
      }
    }

    method CgOptional(e: Option<Expr>)
      modifies this
      ensures var g := GenOpt(e, old(nextReg), old(nextLabel));
        Is(old(code) + g.code, g.nextReg, g.nextLabel)
    {
      if e.Some? {
        var _ := CgExpr(e.value);
      }
    }

    method CgTest(e: Option<Expr>, end: nat)
      modifies this
      ensures var g := GenTest(e, end, old(nextReg), old(nextLabel));
        Is(old(code) + g.code, g.nextReg, g.nextLabel)
    {
      if e.Some? {
        BranchIfFalse(e.value, end, false);
      }
    }

    /** Go round again: always, or when the test of a do loop holds. */
    method CgBack(post: Option<Expr>, begin: nat)
      modifies this
      ensures var g := GenBack(post, begin, old(nextReg), old(nextLabel));
        Is(old(code) + g.code, g.nextReg, g.nextLabel)
    {
      if post.None? {
        Emit(Jump(begin));
      } else {
        BranchIfFalse(post.value, begin, true);
      }
    }

    method CgIteration(s: Stmt, loop: Option<Labels>)
      requires s.Loop?
      modifies this
      ensures var g := GenStmt(s, loop, old(nextReg), old(nextLabel));
        Is(old(code) + g.code, g.nextReg, g.nextLabel)
      decreases s, 0
    {
      hide GenExpr, GenBranch, GenOpt, GenStmt, GenRound, GenTest, GenBack;
      ghost var c, n, lb := code, nextReg, nextLabel;
      LoopShape(s, loop, n, lb);
      var begin := AllocLabel();
      var end := AllocLabel();
      var iter := AllocLabel();
      CgOptional(s.init);
      ghost var i := GenOpt(s.init, n, lb + 3);
      ghost var r := GenRound(s, lb, i.nextReg, i.nextLabel);
      Emit(Mark(begin));
      CgTest(s.test, end);
      CgStatement(s.body, Some(Labels(iter, end)));
      Emit(Mark(iter));
      CgOptional(s.iter);
      CgBack(s.post, begin);
      Emit(Mark(end));
      JoinRound(c, i.code, r, lb);
    }

    static lemma LoopShape(s: Stmt, loop: Option<Labels>, n: nat, lb: nat)
      requires s.Loop?
      ensures var i := GenOpt(s.init, n, lb + 3); var r := GenRound(s, lb, i.nextReg, i.nextLabel);
        && r.test == GenTest(s.test, lb + 1, i.nextReg, i.nextLabel)
        && r.body == GenStmt(s.body, Some(Labels(lb + 2, lb + 1)), r.test.nextReg, r.test.nextLabel)
        && r.iter == GenOpt(s.iter, r.body.nextReg, r.body.nextLabel)
        && r.back == GenBack(s.post, lb, r.iter.nextReg, r.iter.nextLabel)
        && GenStmt(s, loop, n, lb) == Piece(i.code + r.Code(lb), 0, r.back.nextReg, r.back.nextLabel)
    {
      hide GenExpr, GenBranch, GenOpt, GenTest, GenBack;
    }

    static lemma JoinRound(c: seq<Instr>, i: seq<Instr>, r: Round, lb: nat)
      ensures c + i + [Mark(lb)] + r.test.code + r.body.code + [Mark(lb + 2)] + r.iter.code + r.back.code + [Mark(lb + 1)] == c + (i + r.Code(lb))
    {
      var a, b, d, e, f := [Mark(lb)], r.test.code, r.body.code + [Mark(lb + 2)], r.iter.code, r.back.code + [Mark(lb + 1)];
      assert r.Code(lb) == a + b + d + e + f;
      Assoc(c + i + a + b, r.body.code, [Mark(lb + 2)]);
      Assoc(c + i + a + b + d + e, r.back.code, [Mark(lb + 1)]);
      assert c + i + a + b + d + e + f == c + (i + (a + b + d + e + f));
    }
  }

  /** Translate a function. */
  method CompileFunction(body: Stmt, locals: nat) returns (code: seq<Instr>, registers: nat)
    requires StmtOk(body, locals, false)
    ensures Unique(code)
    ensures forall regs: seq<int>, env: seq<int>, f: Flow ::
      |env| == locals && (SafeStmt(body) || AlwaysSteady(body, env)) && |regs| >= registers && Agrees(regs, env) && !f.Timeout? ==> Faithful(body, code, regs, env, f)
  {
    hide GenStmt, Exec, EndsAs, SafeStmt, AlwaysSteady, StmtOk, Agrees, LabelsIn;
    var s := new Stream(locals);
    s.CgStatement(body, None);
    code, registers := s.code, s.nextReg;
    ghost var g := Compile(body, locals);
    assert code == g.code && registers == g.nextReg;
    StmtLabels(body, None, locals, 0);
    LabelsUnique(code, Range(0, g.nextLabel));
    forall regs: seq<int>, env: seq<int>, f: Flow | |env| == locals && (SafeStmt(body) || AlwaysSteady(body, env)) && |regs| >= registers && Agrees(regs, env) && !f.Timeout?
      ensures Faithful(body, code, regs, env, f)
    {
      if SafeStmt(body) { SafeAlways(body, env); }
      CompileSteady(body, regs, env, f);
    }
  }

  lemma LabelsUnique(code: seq<Instr>, s: set<nat>)
    requires LabelsIn(code, s)
    ensures Unique(code)
  {
  }
}
