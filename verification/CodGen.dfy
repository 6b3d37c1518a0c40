/** The instruction stream the generator produces for each construct. */
module CodGen {
  import opened CodSource
  import opened CodMachine

  /** Code, the register its value is in, and the next unused register and label. */
  datatype Piece = Piece(code: seq<Instr>, reg: nat, nextReg: nat, nextLabel: nat)

  /** The branch taken when a comparison is false. */
  function Reverse(op: CmpOp): (r: CmpOp)
    ensures forall a: int, b: int :: Holds(r, a, b) <==> !Holds(op, a, b)
  {
    match op
    case Neq => Eq
    case Eq => Neq
    case Gt => Leq
    case Geq => Lt
    case Lt => Geq
    case Leq => Gt
  }

  /** The branch taken when a comparison is true: `Geq` is translated as `Gt`. */
  function Direct(op: CmpOp): (r: CmpOp)
    ensures forall a: int, b: int :: (Holds(r, a, b) <==> Holds(op, a, b)) <==> !(op.Geq? && a == b)
  {
    match op
    case Neq => Neq
    case Eq => Eq
    case Gt => Gt
    case Geq => Gt
    case Lt => Lt
    case Leq => Leq
  }

  function StepOp(up: bool): ArithOp {
    if up then Add else Sub
  }

  function GenExpr(e: Expr, n: nat, lb: nat): (g: Piece)
    ensures n <= g.nextReg && lb <= g.nextLabel
    decreases e, if e.Compare? then 2 else 0
  {
    match e
    case Const(v) => Piece([Set(n, v)], n, n + 1, lb)
    case Var(x) => Piece([], x, n, lb)
    case Assign(x, a) =>
      var g := GenExpr(a, n, lb);
      Piece(g.code + [Mov(x, g.reg)], x, g.nextReg, g.nextLabel)
    case OpAssign(op, x, a) =>
      var g := GenExpr(a, n, lb);
      Piece(g.code + [Op(op, g.nextReg, x, g.reg), Mov(x, g.nextReg)], x, g.nextReg + 1, g.nextLabel)
    case Binary(op, l, r) =>
      var g := GenExpr(l, n + 1, lb);
      var h := GenExpr(r, g.nextReg, g.nextLabel);
      Piece(g.code + h.code + [Op(op, n, g.reg, h.reg)], n, h.nextReg, h.nextLabel)
    case Compare(_, _, _) =>
      var g := GenBranch(e, lb, false, n + 1, lb + 1);
      Piece([Set(n, 0)] + g.code + [Set(n, 1), Mark(lb)], n, g.nextReg, g.nextLabel)
    case Logic(isAnd, l, r) =>
      var g := GenExpr(l, n + 1, lb);
      var res, lab := g.nextReg, g.nextLabel;
      var h := GenExpr(r, res + 1, lab + 1);
      Piece(g.code + [Set(res, Truth(!isAnd)), BranchOn(isAnd, g.reg, lab)]
            + h.code + [BranchOn(isAnd, h.reg, lab), Set(res, Truth(isAnd)), Mark(lab)],
            res, h.nextReg, h.nextLabel)
    case UnaryPlus(a) => GenExpr(a, n + 1, lb)
    case Negate(a) =>
      var g := GenExpr(a, n + 1, lb);
      Piece(g.code + [Set(g.nextReg, 0), Op(Sub, n, g.nextReg, g.reg)], n, g.nextReg + 1, g.nextLabel)
    case BitNot(a) =>
      var g := GenExpr(a, n + 1, lb);
      Piece(g.code + [Set(g.nextReg, -1), Op(BitXor, n, g.nextReg, g.reg)], n, g.nextReg + 1, g.nextLabel)
    case Not(a) =>
      var g := GenExpr(a, n + 1, lb);
      var zero, lab := g.nextReg, g.nextLabel;
      Piece(g.code + [Set(zero, 0), Set(n, 0), Branch(Neq, zero, g.reg, lab), Set(n, 1), Mark(lab)], n, zero + 1, lab + 1)
    case Step(up, prefix, x) =>
      var res := n + 1;
      if prefix then Piece([OpImm(StepOp(up), x, x, 1), Mov(res, x)], res, n + 2, lb)
      else Piece([Mov(res, x), OpImm(StepOp(up), x, x, 1)], res, n + 2, lb)
    case Cond(c, l, r) =>
      var t := GenBranch(c, lb, false, n + 1, lb + 2);
      var g := GenExpr(l, t.nextReg, t.nextLabel);
      var h := GenExpr(r, g.nextReg, g.nextLabel);
      Piece(t.code + (g.code + [Mov(n, g.reg), Jump(lb + 1), Mark(lb)]) + (h.code + [Mov(n, h.reg), Mark(lb + 1)]),
            n, h.nextReg, h.nextLabel)
    case Comma(l, r) =>
      var g := GenExpr(l, n, lb);
      var h := GenExpr(r, g.nextReg, g.nextLabel);
      Piece(g.code + h.code, h.reg, h.nextReg, h.nextLabel)
  }

  /** Leave a short-circuit operator: on zero for `and`, on nonzero for `or`. */
  function BranchOn(isAnd: bool, r: nat, l: nat): Instr {
    if isAnd then BranchZero(r, l) else BranchNonZero(r, l)
  }

  /** Branch to the label when the condition is false, or true when reversed. The piece has
      no result register. */
  function GenBranch(e: Expr, target: nat, reverse: bool, n: nat, lb: nat): (g: Piece)
    ensures n <= g.nextReg && lb <= g.nextLabel
    decreases e, 1
  {
    if e.Compare? then
      var g := GenExpr(e.left, n, lb);
      var h := GenExpr(e.right, g.nextReg, g.nextLabel);
      Piece(g.code + h.code + [Branch(if reverse then Direct(e.cmp) else Reverse(e.cmp), g.reg, h.reg, target)],
            0, h.nextReg, h.nextLabel)
    else
      var g := GenExpr(e, n, lb);
      Piece(g.code + [BranchOn(!reverse, g.reg, target)], 0, g.nextReg, g.nextLabel)
  }

  function GenOpt(e: Option<Expr>, n: nat, lb: nat): (g: Piece)
    ensures n <= g.nextReg && lb <= g.nextLabel
  {
    if e.None? then Piece([], 0, n, lb) else GenExpr(e.value, n, lb)
  }

  function GenTest(e: Option<Expr>, target: nat, n: nat, lb: nat): (g: Piece)
    ensures n <= g.nextReg && lb <= g.nextLabel
  {
    if e.None? then Piece([], 0, n, lb) else GenBranch(e.value, target, false, n, lb)
  }

  /** The labels of the enclosing loop that break and continue go to. */
  datatype Labels = Labels(iter: nat, end: nat)

  /** The end of a loop round: back to the start, always or when the do test holds. */
  function GenBack(post: Option<Expr>, begin: nat, n: nat, lb: nat): (g: Piece)
    ensures n <= g.nextReg && lb <= g.nextLabel
  {
    if post.None? then Piece([Jump(begin)], 0, n, lb) else GenBranch(post.value, begin, true, n, lb)
  }

  /** The pieces of a loop, from its top test on. Its labels are lb for the start, lb + 1
      for the end and lb + 2 for the iteration expression. */
  datatype Round = Round(test: Piece, body: Piece, iter: Piece, back: Piece) {
    function Code(lb: nat): seq<Instr> {
      [Mark(lb)] + test.code + (body.code + [Mark(lb + 2)]) + iter.code + (back.code + [Mark(lb + 1)])
    }
  }

  function GenRound(s: Stmt, lb: nat, n: nat, next: nat): (r: Round)
    requires s.Loop?
    ensures n <= r.test.nextReg <= r.body.nextReg <= r.iter.nextReg <= r.back.nextReg
    ensures next <= r.test.nextLabel <= r.body.nextLabel <= r.iter.nextLabel <= r.back.nextLabel
    decreases s, 0
  {
    var t := GenTest(s.test, lb + 1, n, next);
    var b := GenStmt(s.body, Some(Labels(lb + 2, lb + 1)), t.nextReg, t.nextLabel);
    var i := GenOpt(s.iter, b.nextReg, b.nextLabel);
    Round(t, b, i, GenBack(s.post, lb, i.nextReg, i.nextLabel))
  }

  function GenStmt(s: Stmt, loop: Option<Labels>, n: nat, lb: nat): (g: Piece)
    ensures n <= g.nextReg && lb <= g.nextLabel
    decreases s, 1
  {
    match s
    case Skip => Piece([], 0, n, lb)
    case Do(e) => GenExpr(e, n, lb)
    case Seq(a, b) =>
      var g := GenStmt(a, loop, n, lb);
      var h := GenStmt(b, loop, g.nextReg, g.nextLabel);
      Piece(g.code + h.code, 0, h.nextReg, h.nextLabel)
    case If(c, t, e) =>
      var k := GenBranch(c, lb, false, n, lb + 1);
      var g := GenStmt(t, loop, k.nextReg, k.nextLabel);
      if e.None? then
        Piece(k.code + (g.code + [Mark(lb)]), 0, g.nextReg, g.nextLabel)
      else
        var end := g.nextLabel;
        var h := GenStmt(e.value, loop, g.nextReg, end + 1);
        Piece(k.code + (g.code + [Jump(end), Mark(lb)]) + (h.code + [Mark(end)]), 0, h.nextReg, h.nextLabel)
    case Loop(init, _, _, _, _) =>
      var i := GenOpt(init, n, lb + 3);
      var r := GenRound(s, lb, i.nextReg, i.nextLabel);
      Piece(i.code + r.Code(lb), 0, r.back.nextReg, r.back.nextLabel)
    case Break => Piece(if loop.Some? then [Jump(loop.value.end)] else [], 0, n, lb)
    case Continue => Piece(if loop.Some? then [Jump(loop.value.iter)] else [], 0, n, lb)
    case Return(e) =>
      var g := GenExpr(e, n, lb);
      Piece(g.code + [Ret(g.reg)], 0, g.nextReg, g.nextLabel)
  }

  // ----- the definitions of the branching constructs, spelled out

  lemma LogicShape(e: Expr, n: nat, lb: nat)
    requires e.Logic?
    ensures var g := GenExpr(e.left, n + 1, lb);
      var res, lab := g.nextReg, g.nextLabel;
      var h := GenExpr(e.right, res + 1, lab + 1);
      var first, last := [Set(res, Truth(!e.isAnd)), BranchOn(e.isAnd, g.reg, lab)], [BranchOn(e.isAnd, h.reg, lab), Set(res, Truth(e.isAnd)), Mark(lab)];
      GenExpr(e, n, lb).code == g.code + first + (h.code + last) && GenExpr(e, n, lb).nextLabel == h.nextLabel
  {
  }

  lemma CondShape(e: Expr, n: nat, lb: nat)
    requires e.Cond?
    ensures var t := GenBranch(e.c, lb, false, n + 1, lb + 2);
      var g := GenExpr(e.left, t.nextReg, t.nextLabel);
      var h := GenExpr(e.right, g.nextReg, g.nextLabel);
      GenExpr(e, n, lb) ==
        Piece(t.code + (g.code + [Mov(n, g.reg), Jump(lb + 1), Mark(lb)]) + (h.code + [Mov(n, h.reg), Mark(lb + 1)]), n, h.nextReg, h.nextLabel)
  {
  }

  lemma IfShape(s: Stmt, loop: Option<Labels>, n: nat, lb: nat)
    requires s.If?
    ensures var k := GenBranch(s.c, lb, false, n, lb + 1);
      var g := GenStmt(s.thenPart, loop, k.nextReg, k.nextLabel);
      if s.elsePart.None? then GenStmt(s, loop, n, lb) == Piece(k.code + (g.code + [Mark(lb)]), 0, g.nextReg, g.nextLabel)
      else
        var h := GenStmt(s.elsePart.value, loop, g.nextReg, g.nextLabel + 1);
        GenStmt(s, loop, n, lb) == Piece(k.code + (g.code + [Jump(g.nextLabel), Mark(lb)]) + (h.code + [Mark(g.nextLabel)]), 0, h.nextReg, h.nextLabel)
  {
  }
}
