/** What the operators compute, in numbers and bits, and what the code of small functions returns. */
module CodValues {
  import opened CodSource
  import opened CodMachine
  import opened CodGen
  import opened CodCorrect
  import opened CodRuns
  import opened CodSteady
  import opened CodProgram
  import W = Words

  predicate Int32(v: int) {
    -0x8000_0000 <= v < 0x8000_0000
  }

  // ----- division

  function Abs(v: int): nat {
    if v < 0 then -v else v
  }

  /** q is a divided by b, rounded towards zero, r what is left: it has the sign of a. */
  predicate Divided(a: int, b: int, q: int, r: int) {
    a == b * q + r && Abs(r) < Abs(b) && (r == 0 || (r > 0) == (a > 0))
  }

  lemma QuotientBounds(a: int, b: int, q: int, r: int)
    requires b != 0 && Divided(a, b, q, r)
    ensures Abs(q) <= Abs(a) && (q != 0 && Abs(b) > 1 ==> 2 * Abs(q) <= Abs(a)) && (q == 0 || (q > 0) == ((a > 0) == (b > 0)))
  {
    var n, d, k := Abs(a), Abs(b), Abs(q);
    if q != 0 {
      assert Abs(b * q) == d * k by { AbsMul(b, q); }
      if Abs(b) > 1 { W.MulMono(k, 2, d); } else { W.MulMono(k, 1, d); }
      SameSign(b, q, a, r);
    }
  }

  lemma AbsMul(b: int, q: int)
    ensures Abs(b * q) == Abs(b) * Abs(q)
  {
    if b >= 0 && q >= 0 {
    } else if b < 0 && q < 0 {
      assert b * q == (-b) * (-q);
    } else if b < 0 {
      assert b * q == -((-b) * q);
    } else {
      assert b * q == -(b * (-q));
    }
  }

  /** What is left is smaller than the divisor, so the product has the sign of a and is no
      larger. */
  lemma SameSign(b: int, q: int, a: int, r: int)
    requires b != 0 && q != 0 && Divided(a, b, q, r)
    ensures a != 0 && (b * q > 0) == (a > 0) && Abs(b * q) <= Abs(a) && (q > 0) == ((a > 0) == (b > 0))
  {
    AbsMul(b, q);
    W.MulMono(Abs(b), 1, Abs(q));
    if b > 0 && q > 0 { assert b * q > 0; }
    if b < 0 && q < 0 { assert b * q == (-b) * (-q) > 0; }
    if b > 0 && q < 0 { assert b * q == -(b * (-q)) < 0; }
    if b < 0 && q > 0 { assert b * q == -((-b) * q) < 0; }
  }

  lemma FloorDivided(a: int, b: int)
    requires a >= 0 && b > 0
    ensures Divided(a, b, a / b, a % b) && Divided(-a, b, -(a / b), -(a % b))
    ensures Divided(a, -b, -(a / b), a % b) && Divided(-a, -b, a / b, -(a % b))
  {
    Signs(a, b, a / b, a % b);
  }

  lemma Signs(a: int, b: int, q: int, r: int)
    requires a == b * q + r && 0 <= r < b && q >= 0
    ensures Divided(a, b, q, r) && Divided(-a, b, -q, -r) && Divided(a, -b, -q, r) && Divided(-a, -b, q, -r)
  {
    var p := b * q;
    assert b * (-q) == -p && (-b) * (-q) == p && (-b) * q == -p;
    assert p >= 0;
  }

  /** Division and remainder: quotient rounded towards zero, remainder with the sign of the
      dividend; a trap on division by zero and on the one quotient that does not fit. */
  lemma DivExact(a: int, b: int)
    requires Int32(a) && Int32(b)
    ensures Arith(Div, a, b).None? <==> b == 0 || (a == -0x8000_0000 && b == -1)
    ensures Arith(Mod, a, b).None? <==> b == 0 || (a == -0x8000_0000 && b == -1)
    ensures Arith(Div, a, b).Some? ==> Int32(Arith(Div, a, b).value) && Divided(a, b, Arith(Div, a, b).value, Arith(Mod, a, b).value)
  {
    if Arith(Div, a, b).Some? {
      var q := Quotient(a, b);
      FloorDivided(Abs(a), Abs(b));
      var r := a - b * q;
      assert Divided(a, b, q, r);
      QuotientBounds(a, b, q, r);
      WrapFits(q);
      WrapFits(r);
    }
  }

  lemma WrapFits(v: int)
    requires Int32(v)
    ensures Wrap(v) == v
  {
  }

  // ----- the other operations

  /** The word of 32 bits that stands for v in two's complement. */
  function Pattern(v: int): nat {
    v % 0x1_0000_0000
  }

  /** Sum, difference and product are right modulo 2^32, and right when they fit. */
  lemma ArithExact(a: int, b: int)
    ensures Arith(Add, a, b).Some? && Arith(Sub, a, b).Some? && Arith(Mul, a, b).Some?
    ensures var s := Arith(Add, a, b).value; Int32(s) && Pattern(s) == Pattern(a + b) && (Int32(a + b) ==> s == a + b)
    ensures var s := Arith(Sub, a, b).value; Int32(s) && Pattern(s) == Pattern(a - b) && (Int32(a - b) ==> s == a - b)
    ensures var s := Arith(Mul, a, b).value; Int32(s) && Pattern(s) == Pattern(a * b) && (Int32(a * b) ==> s == a * b)
  {
    WrapPattern(a + b);
    WrapPattern(a - b);
    WrapPattern(a * b);
  }

  lemma WrapPattern(v: int)
    ensures Int32(Wrap(v)) && Pattern(Wrap(v)) == Pattern(v) && (Int32(v) ==> Wrap(v) == v)
  {
    var w := Wrap(v);
    assert w == v - (v + TWO31) / TWO32 * TWO32;
    SamePattern(v, -((v + TWO31) / TWO32));
  }

  lemma SamePattern(v: int, k: int)
    ensures (v + k * 0x1_0000_0000) % 0x1_0000_0000 == v % 0x1_0000_0000
  {
  }

  /** Bit i of `a & b`, `a | b` and `a ^ b`. */
  lemma BitsExact(a: int, b: int, i: nat)
    requires i < 32
    ensures Arith(BitAnd, a, b).Some? && Arith(BitOr, a, b).Some? && Arith(BitXor, a, b).Some?
    ensures var x, y := W.BitAt(Pattern(a), i), W.BitAt(Pattern(b), i);
      && (W.BitAt(Pattern(Arith(BitAnd, a, b).value), i) == 1 <==> x == 1 && y == 1)
      && (W.BitAt(Pattern(Arith(BitOr, a, b).value), i) == 1 <==> x == 1 || y == 1)
      && (W.BitAt(Pattern(Arith(BitXor, a, b).value), i) == 1 <==> x != y)
    ensures Int32(Arith(BitAnd, a, b).value) && Int32(Arith(BitOr, a, b).value) && Int32(Arith(BitXor, a, b).value)
  {
    hide W.Bitwise, Wrap;
    OneBit(W.And, a, b, i);
    OneBit(W.Or, a, b, i);
    OneBit(W.Xor, a, b, i);
  }

  lemma OneBit(op: W.BitOp, a: int, b: int, i: nat)
    requires i < 32
    ensures var w := W.Bitwise(op, Bits(a), Bits(b), 32);
      && Int32(Wrap(w)) && W.BitAt(Pattern(a), i) < 2 && W.BitAt(Pattern(b), i) < 2
      && W.BitAt(Pattern(Wrap(w)), i) == W.Bit(op, W.BitAt(Pattern(a), i), W.BitAt(Pattern(b), i))
  {
    WordBit(op, Bits(a), Bits(b), i);
    hide W.Bitwise, Wrap, W.BitAt, W.Bit;
    SmallWord(W.Bitwise(op, Bits(a), Bits(b), 32));
  }

  lemma WordBit(op: W.BitOp, x: nat, y: nat, i: nat)
    requires x < TWO32 && y < TWO32 && i < 32
    ensures var w := W.Bitwise(op, x, y, 32);
      w < TWO32 && W.BitAt(x, i) < 2 && W.BitAt(y, i) < 2 && W.BitAt(w, i) == W.Bit(op, W.BitAt(x, i), W.BitAt(y, i))
  {
    hide W.Bitwise;
    W.Pow2Values();
    W.BitwiseAt(op, x, y, 32, i);
  }

  lemma SmallWord(w: nat)
    requires w < TWO32
    ensures Int32(Wrap(w)) && Pattern(Wrap(w)) == w
  {
    hide Wrap;
    WrapPattern(w);
  }

  // ----- the code of `return e`

  ghost predicate Returns(e: Expr, regs: seq<int>, env: seq<int>, v: int, after: seq<int>)
    requires ExprOk(e, |env|)
  {
    EndsAs(Compile(Return(e), |env|).code, Run(0, regs), Returned(v, after), |regs|, |env|)
  }

  ghost predicate Ready(e: Expr, regs: seq<int>, env: seq<int>) {
    ExprOk(e, |env|) && Loaded(Return(e), regs, env)
  }

  lemma ReturnRuns(e: Expr, regs: seq<int>, env: seq<int>)
    requires Ready(e, regs, env) && SafeExpr(e)
    ensures var r := Eval(Promised, e, env);
      if r.Trap? then EndsAs(Compile(Return(e), |env|).code, Run(0, regs), Trapped, |regs|, |env|) else Returns(e, regs, env, r.v, r.env)
  {
    hide GenStmt, EndsAs, Eval, Agrees;
    EvalAgrees(e, env);
    FunctionRuns(Return(e), regs, env, 0);
  }

  lemma TwoVars(e: Expr, x: int, y: int)
    requires (e.Binary? || e.Compare?) && e.left == Var(0) && e.right == Var(1)
    ensures ExprOk(e, 2) && SafeExpr(e) && EvalBoth(Promised, e, [x, y]) == Pair(x, y, [x, y])
  {
    assert Eval(Promised, Var(0), [x, y]) == Val(x, [x, y]) && Eval(Promised, Var(1), [x, y]) == Val(y, [x, y]);
  }

  function Of(op: ArithOp): (e: Expr)
    ensures ExprOk(e, 2)
  {
    assert ExprOk(Var(0), 2) && ExprOk(Var(1), 2);
    Binary(op, Var(0), Var(1))
  }

  /** The code of `return x / y` and of `return x % y`. */
  lemma DivisionRuns(regs: seq<int>, x: int, y: int) returns (q: int, r: int)
    requires Ready(Of(Div), regs, [x, y]) && Ready(Of(Mod), regs, [x, y]) && Int32(x) && Int32(y)
    requires y != 0 && !(x == -0x8000_0000 && y == -1)
    ensures Returns(Of(Div), regs, [x, y], q, [x, y]) && Returns(Of(Mod), regs, [x, y], r, [x, y])
    ensures x == y * q + r && Abs(r) < Abs(y) && (r == 0 || (r > 0) == (x > 0))
  {
    hide Arith, Returns, Loaded;
    DivExact(x, y);
    q, r := Arith(Div, x, y).value, Arith(Mod, x, y).value;
    ArithRuns(Div, regs, x, y);
    ArithRuns(Mod, regs, x, y);
  }

  lemma ArithRuns(op: ArithOp, regs: seq<int>, x: int, y: int)
    requires Ready(Of(op), regs, [x, y])
    ensures Arith(op, x, y).Some? ==> Returns(Of(op), regs, [x, y], Arith(op, x, y).value, [x, y])
    ensures Arith(op, x, y).None? ==> EndsAs(Compile(Return(Of(op)), 2).code, Run(0, regs), Trapped, |regs|, 2)
  {
    hide Arith, Returns, Loaded, EndsAs, Compile;
    TwoVars(Of(op), x, y);
    ReturnRuns(Of(op), regs, [x, y]);
  }

  /** The code of `return x + y`, `x - y` and `x * y`. */
  lemma SumsRun(regs: seq<int>, x: int, y: int) returns (s: int, d: int, p: int)
    requires Ready(Of(Add), regs, [x, y]) && Ready(Of(Sub), regs, [x, y]) && Ready(Of(Mul), regs, [x, y])
    ensures Returns(Of(Add), regs, [x, y], s, [x, y]) && Returns(Of(Sub), regs, [x, y], d, [x, y]) && Returns(Of(Mul), regs, [x, y], p, [x, y])
    ensures Int32(s) && Int32(d) && Int32(p) && Pattern(s) == Pattern(x + y) && Pattern(d) == Pattern(x - y) && Pattern(p) == Pattern(x * y)
  {
    hide Arith, Returns, Loaded;
    ArithExact(x, y);
    s, d, p := Arith(Add, x, y).value, Arith(Sub, x, y).value, Arith(Mul, x, y).value;
    ArithRuns(Add, regs, x, y);
    ArithRuns(Sub, regs, x, y);
    ArithRuns(Mul, regs, x, y);
  }

  function Test(cmp: CmpOp): (e: Expr)
    ensures ExprOk(e, 2)
  {
    assert ExprOk(Var(0), 2) && ExprOk(Var(1), 2);
    Compare(cmp, Var(0), Var(1))
  }

  /** The code of `return x < y` and the other comparisons: 1 or 0. */
  lemma ComparisonsReturn(regs: seq<int>, x: int, y: int)
    requires forall c: CmpOp :: Ready(Test(c), regs, [x, y])
    ensures Returns(Test(Lt), regs, [x, y], if x < y then 1 else 0, [x, y])
    ensures Returns(Test(Leq), regs, [x, y], if x <= y then 1 else 0, [x, y])
    ensures Returns(Test(Gt), regs, [x, y], if x > y then 1 else 0, [x, y])
    ensures Returns(Test(Geq), regs, [x, y], if x >= y then 1 else 0, [x, y])
    ensures Returns(Test(Eq), regs, [x, y], if x == y then 1 else 0, [x, y])
    ensures Returns(Test(Neq), regs, [x, y], if x != y then 1 else 0, [x, y])
  {
    hide Returns, Loaded;
    forall c: CmpOp
      ensures Returns(Test(c), regs, [x, y], if Holds(c, x, y) then 1 else 0, [x, y])
    {
      TwoVars(Test(c), x, y);
      ReturnRuns(Test(c), regs, [x, y]);
    }
  }

  /** The code of `return -x`, `return ~x` and `return !x`. */
  lemma NegateReturns(regs: seq<int>, x: int)
    requires Ready(Negate(Var(0)), regs, [x]) && Int32(x)
    ensures Returns(Negate(Var(0)), regs, [x], if x == -0x8000_0000 then x else -x, [x])
  {
    hide Returns, Loaded, EndsAs, Compile, Wrap;
    assert Eval(Promised, Var(0), [x]) == Val(x, [x]);
    WrapPattern(-x);
    ReturnRuns(Negate(Var(0)), regs, [x]);
  }

  lemma ComplementReturns(regs: seq<int>, x: int)
    requires Ready(BitNot(Var(0)), regs, [x]) && Int32(x)
    ensures Returns(BitNot(Var(0)), regs, [x], -x - 1, [x])
  {
    hide Returns, Loaded, EndsAs, Compile, Wrap;
    assert Eval(Promised, Var(0), [x]) == Val(x, [x]);
    WrapPattern(-1 - x);
    ReturnRuns(BitNot(Var(0)), regs, [x]);
  }

  lemma NotReturns(regs: seq<int>, x: int)
    requires Ready(Not(Var(0)), regs, [x])
    ensures Returns(Not(Var(0)), regs, [x], if x == 0 then 1 else 0, [x])
  {
    hide Returns, Loaded, EndsAs, Compile;
    assert Eval(Promised, Var(0), [x]) == Val(x, [x]);
    ReturnRuns(Not(Var(0)), regs, [x]);
  }

  /** The code of `return x++`, `++x`, `x--` and `--x`: the value returned, and x afterwards. */
  lemma StepReturns(regs: seq<int>, x: int, up: bool, prefix: bool)
    requires Ready(Step(up, prefix, 0), regs, [x]) && -0x8000_0000 < x < 0x7fff_ffff
    ensures up ==> Returns(Step(up, prefix, 0), regs, [x], if prefix then x + 1 else x, [x + 1])
    ensures !up ==> Returns(Step(up, prefix, 0), regs, [x], if prefix then x - 1 else x, [x - 1])
  {
    hide Returns, Loaded, EndsAs, Compile;
    var v := if up then x + 1 else x - 1;
    assert [x][0 := v] == [v];
    ReturnRuns(Step(up, prefix, 0), regs, [x]);
  }

  /** The code of `return x && (y = 5)` and `return x || (y = 5)`: the right side runs only when it
      has to. */
  lemma LogicReturns(regs: seq<int>, x: int, y: int)
    requires Ready(Lazy(true), regs, [x, y]) && Ready(Lazy(false), regs, [x, y])
    ensures Returns(Lazy(true), regs, [x, y], if x != 0 then 1 else 0, if x != 0 then [x, 5] else [x, y])
    ensures Returns(Lazy(false), regs, [x, y], 1, if x != 0 then [x, y] else [x, 5])
  {
    hide Returns, Loaded, EndsAs, Compile;
    assert [x, y][1 := 5] == [x, 5];
    assert Eval(Promised, Const(5), [x, y]) == Val(5, [x, y]);
    assert Eval(Promised, Assign(1, Const(5)), [x, y]) == Val(5, [x, 5]);
    assert Eval(Promised, Var(0), [x, y]) == Val(x, [x, y]);
    ReturnRuns(Lazy(true), regs, [x, y]);
    ReturnRuns(Lazy(false), regs, [x, y]);
  }

  function Lazy(isAnd: bool): (e: Expr)
    ensures ExprOk(e, 2)
  {
    assert ExprOk(Const(5), 2) && ExprOk(Var(0), 2);
    assert ExprOk(Assign(1, Const(5)), 2);
    Logic(isAnd, Var(0), Assign(1, Const(5)))
  }

  /** The code of `return x ? (x = y, 7) : y + 1`, forms within forms. */
  function Choice(): (e: Expr)
    ensures ExprOk(e, 2) && SafeExpr(e)
  {
    assert ExprOk(Var(0), 2) && ExprOk(Var(1), 2) && ExprOk(Const(1), 2) && ExprOk(Const(7), 2);
    assert SafeExpr(Var(0)) && SafeExpr(Var(1)) && SafeExpr(Const(1)) && SafeExpr(Const(7));
    assert ExprOk(Assign(0, Var(1)), 2) && SafeExpr(Assign(0, Var(1)));
    Cond(Var(0), Comma(Assign(0, Var(1)), Const(7)), Binary(Add, Var(1), Const(1)))
  }

  lemma ChoiceReturns(regs: seq<int>, x: int, y: int)
    requires Ready(Choice(), regs, [x, y]) && Int32(y + 1)
    ensures Returns(Choice(), regs, [x, y], if x != 0 then 7 else y + 1, if x != 0 then [y, y] else [x, y])
  {
    hide Returns, Loaded, EndsAs, Compile, Arith;
    ChoiceIs(x, y);
    hide Eval, Choice;
    ReturnRuns(Choice(), regs, [x, y]);
  }

  lemma ChoiceIs(x: int, y: int)
    requires Int32(y + 1)
    ensures Eval(Promised, Choice(), [x, y]) == Val(if x != 0 then 7 else y + 1, if x != 0 then [y, y] else [x, y])
  {
    hide Arith, SafeExpr, Wrap;
    var e := Choice();
    assert [x, y][0 := y] == [y, y];
    assert Eval(Promised, Var(0), [x, y]) == Val(x, [x, y]) && Eval(Promised, Var(1), [x, y]) == Val(y, [x, y]);
    assert Eval(Promised, Assign(0, Var(1)), [x, y]) == Val(y, [y, y]);
    assert Eval(Promised, Const(7), [y, y]) == Val(7, [y, y]);
    assert Eval(Promised, Const(1), [x, y]) == Val(1, [x, y]);
    assert EvalBoth(Promised, e.right, [x, y]) == Pair(y, 1, [x, y]);
    ArithExact(y, 1);
  }

  /** The code of `return x op= y`. */
  lemma OpAssignReturns(op: ArithOp, regs: seq<int>, x: int, y: int)
    requires Ready(OpAssign(op, 0, Var(1)), regs, [x, y]) && Arith(op, x, y).Some?
    ensures var v := Arith(op, x, y).value; Returns(OpAssign(op, 0, Var(1)), regs, [x, y], v, [v, y])
  {
    hide Returns, Loaded, EndsAs, Compile, Arith;
    var v := Arith(op, x, y).value;
    assert [x, y][0 := v] == [v, y];
    assert Eval(Promised, Var(1), [x, y]) == Val(y, [x, y]);
    assert Writes(Var(1)) == {};
    ReturnRuns(OpAssign(op, 0, Var(1)), regs, [x, y]);
  }

  // ----- a function with a loop

  // Locals n, i and s.

  /** i >= n */
  function Past(): (e: Expr)
    ensures ExprOk(e, 3) && SafeExpr(e) && e == Compare(Geq, Var(1), Var(0))
  {
    assert ExprOk(Var(1), 3) && ExprOk(Var(0), 3);
    Compare(Geq, Var(1), Var(0))
  }

  /** i % 2 */
  function Parity(): (e: Expr)
    ensures ExprOk(e, 3) && SafeExpr(e) && e == Binary(Mod, Var(1), Const(2))
  {
    assert ExprOk(Var(1), 3) && ExprOk(Const(2), 3);
    Binary(Mod, Var(1), Const(2))
  }

  /** i % 2 == 0 */
  function IsEven(): (e: Expr)
    ensures ExprOk(e, 3) && SafeExpr(e) && e == Compare(Eq, Parity(), Const(0))
  {
    assert ExprOk(Const(0), 3);
    Compare(Eq, Parity(), Const(0))
  }

  /** s = s + i */
  function Plus(): (e: Expr)
    ensures ExprOk(e, 3) && SafeExpr(e) && e == Binary(Add, Var(2), Var(1))
  {
    assert ExprOk(Var(2), 3) && ExprOk(Var(1), 3);
    Binary(Add, Var(2), Var(1))
  }

  function AddUp(): (e: Expr)
    ensures ExprOk(e, 3) && SafeExpr(e) && e == Assign(2, Plus())
  {
    Assign(2, Plus())
  }

  /** if (i % 2 == 0) continue; s = s + i; */
  function Collect(): (s: Stmt)
    ensures StmtOk(s, 3, true) && SafeStmt(s) && s == Seq(If(IsEven(), Continue, None), Do(AddUp()))
    ensures StmtOk(s.first, 3, true) && StmtOk(s.second, 3, true)
  {
    hide IsEven, AddUp, ExprOk, SafeExpr;
    var skip := If(IsEven(), Continue, None);
    assert StmtOk(Continue, 3, true) && SafeStmt(Continue);
    assert StmtOk(skip, 3, true) && SafeStmt(skip);
    assert StmtOk(Do(AddUp()), 3, true) && SafeStmt(Do(AddUp()));
    Seq(skip, Do(AddUp()))
  }

  /** if (i >= n) break; and so on. */
  function Body(): (s: Stmt)
    ensures StmtOk(s, 3, true) && SafeStmt(s) && s == Seq(If(Past(), Break, None), Collect())
    ensures StmtOk(s.first, 3, true)
  {
    var leave := If(Past(), Break, None);
    assert StmtOk(Break, 3, true) && SafeStmt(Break);
    assert StmtOk(leave, 3, true) && SafeStmt(leave);
    Seq(leave, Collect())
  }

  function Start(): (e: Expr)
    ensures ExprOk(e, 3) && SafeExpr(e) && e == Assign(1, Const(0))
  {
    assert ExprOk(Const(0), 3);
    Assign(1, Const(0))
  }

  function Ahead(): (e: Expr)
    ensures ExprOk(e, 3) && SafeExpr(e) && e == Step(true, false, 1)
  {
    Step(true, false, 1)
  }

  /** for (i = 0; ; i++) ... */
  function OddLoop(): Stmt {
    Loop(Some(Start()), None, Some(Ahead()), None, Body())
  }

  lemma OddLoopOk()
    ensures StmtOk(OddLoop(), 3, true) && StmtOk(OddLoop(), 3, false) && SafeStmt(OddLoop())
  {
    hide Body, Start, Ahead, ExprOk, SafeExpr;
    var start, ahead, body := Start(), Ahead(), Body();
    assert OptOk(Some(start), 3) && OptOk(None, 3) && OptOk(Some(ahead), 3);
    assert SafeOpt(Some(start)) && SafeOpt(None) && SafeOpt(Some(ahead));
    LoopOk(start, ahead, body);
  }

  lemma LoopOk(start: Expr, ahead: Expr, body: Stmt)
    requires OptOk(Some(start), 3) && OptOk(Some(ahead), 3) && SafeOpt(Some(start)) && SafeOpt(Some(ahead))
    requires StmtOk(body, 3, true) && SafeStmt(body)
    ensures var s := Loop(Some(start), None, Some(ahead), None, body); StmtOk(s, 3, true) && StmtOk(s, 3, false) && SafeStmt(s)
  {
    hide ExprOk, SafeExpr;
  }

  /** The loop, then return s. */
  function OddSum(): Stmt {
    Seq(OddLoop(), Return(Var(2)))
  }

  lemma OddSumOk()
    ensures StmtOk(OddSum(), 3, false) && SafeStmt(OddSum()) && StmtOk(Return(Var(2)), 3, false)
  {
    hide OddLoop, Body, Start, Ahead;
    assert ExprOk(Var(2), 3) && SafeExpr(Var(2));
    assert StmtOk(Return(Var(2)), 3, false) && SafeStmt(Return(Var(2)));
    hide ExprOk, SafeExpr;
    OddLoopOk();
  }

  lemma Leaves(env: seq<int>, v: int)
    ensures forall x: nat :: x < |env| ==> Eval(Promised, Var(x), env) == Val(env[x], env)
    ensures Eval(Promised, Const(v), env) == Val(v, env)
  {
  }

  lemma PastIs(n: int, i: int, s: int)
    ensures Eval(Promised, Past(), [n, i, s]) == Val(if i >= n then 1 else 0, [n, i, s])
  {
    Leaves([n, i, s], 0);
    assert EvalBoth(Promised, Past(), [n, i, s]) == Pair(i, n, [n, i, s]);
  }

  lemma EvenIs(n: int, i: int, s: int)
    requires 0 <= i && Int32(i)
    ensures Eval(Promised, IsEven(), [n, i, s]) == Val(if i % 2 == 0 then 1 else 0, [n, i, s])
  {
    hide Arith;
    var env := [n, i, s];
    Leaves(env, 2);
    Leaves(env, 0);
    DivExact(i, 2);
    RemainderBy2(i, Arith(Div, i, 2).value, Arith(Mod, i, 2).value);
    assert EvalBoth(Promised, Parity(), env) == Pair(i, 2, env);
    assert Eval(Promised, Parity(), env) == Val(i % 2, env);
    assert EvalBoth(Promised, IsEven(), env) == Pair(i % 2, 0, env);
  }

  lemma AddUpIs(n: int, i: int, s: int)
    requires Int32(s + i)
    ensures Eval(Promised, AddUp(), [n, i, s]) == Val(s + i, [n, i, s + i])
  {
    hide Arith;
    var env := [n, i, s];
    Leaves(env, 0);
    ArithExact(s, i);
    assert EvalBoth(Promised, Plus(), env) == Pair(s, i, env);
    assert Eval(Promised, Plus(), env) == Val(s + i, env);
    assert env[2 := s + i] == [n, i, s + i];
  }

  lemma CollectRuns(n: int, i: int, s: int, fuel: nat)
    requires 0 <= i && Int32(i) && (i % 2 != 0 ==> Int32(s + i))
    ensures Exec(Promised, Collect(), [n, i, s], true, fuel) == if i % 2 == 0 then Continued([n, i, s]) else Next([n, i, s + i])
  {
    hide Eval, IsEven, AddUp, StmtOk;
    EvenIs(n, i, s);
    var c := Collect();
    var env := [n, i, s];
    assert Exec(Promised, c.first, env, true, fuel) == if i % 2 == 0 then Continued(env) else Next(env);
    if i % 2 != 0 {
      AddUpIs(n, i, s);
      assert Exec(Promised, c.second, env, true, fuel) == Next([n, i, s + i]);
    }
  }

  lemma BodyRuns(n: int, i: int, s: int, fuel: nat)
    requires 0 <= i && Int32(i) && (i < n && i % 2 != 0 ==> Int32(s + i))
    ensures Exec(Promised, Body(), [n, i, s], true, fuel) ==
      if i >= n then Broke([n, i, s]) else if i % 2 == 0 then Continued([n, i, s]) else Next([n, i, s + i])
  {
    hide Eval, Past, Collect, StmtOk;
    PastIs(n, i, s);
    var b := Body();
    assert Exec(Promised, b.first, [n, i, s], true, fuel) == if i >= n then Broke([n, i, s]) else Next([n, i, s]);
    if i < n { CollectRuns(n, i, s, fuel); }
  }

  lemma RemainderBy2(i: int, q: int, r: int)
    requires i >= 0 && Divided(i, 2, q, r)
    ensures r == i % 2
  {
  }

  /** The rounds of the loop from some i and s on. */
  function Left(n: int, i: int, s: int, fuel: nat): Flow {
    OddLoopOk();
    Rounds(Promised, OddLoop(), [n, i, s], fuel)
  }

  /** One round of the loop. */
  lemma OddRound(n: int, i: int, s: int, fuel: nat)
    requires 0 <= i < 0x7fff_ffff && (i < n && i % 2 != 0 ==> Int32(s + i)) && fuel > 0
    ensures Left(n, i, s, fuel) == if i >= n then Next([n, i, s]) else Left(n, i + 1, if i % 2 == 0 then s else s + i, fuel - 1)
  {
    hide Exec, Eval, StmtOk, SafeStmt, Body, Start, Ahead;
    BodyRuns(n, i, s, fuel - 1);
    StepUp(n, i, if i % 2 == 0 then s else s + i);
  }

  /** From i on, with the odd numbers below i in s. */
  lemma {:induction false} OddRounds(n: int, i: int, fuel: nat)
    requires 0 <= i <= n < 0x7fff_ffff && Int32((n / 2) * (n / 2)) && fuel > n - i
    ensures Left(n, i, (i / 2) * (i / 2), fuel) == Next([n, n, (n / 2) * (n / 2)])
    decreases fuel
  {
    hide Left;
    Squares(i, n);
    OddRound(n, i, (i / 2) * (i / 2), fuel);
    if i < n {
      NextSquare(i);
      OddRounds(n, i + 1, fuel - 1);
    }
  }

  lemma StepUp(n: int, i: int, t: int)
    requires 0 <= i < 0x7fff_ffff
    ensures Eval(Promised, Ahead(), [n, i, t]) == Val(i, [n, i + 1, t])
  {
    assert [n, i, t][1 := i + 1] == [n, i + 1, t];
  }

  lemma NextSquare(i: int)
    requires i >= 0
    ensures ((i + 1) / 2) * ((i + 1) / 2) == (i / 2) * (i / 2) + if i % 2 == 0 then 0 else i
  {
    var h := i / 2;
    if i % 2 == 0 {
      assert (i + 1) / 2 == h;
    } else {
      assert (i + 1) / 2 == h + 1 && i == 2 * h + 1;
      assert (h + 1) * (h + 1) == h * h + 2 * h + 1;
    }
  }

  lemma Squares(i: int, n: int)
    requires 0 <= i <= n && Int32((n / 2) * (n / 2)) && n < 0x7fff_ffff
    ensures i < n && i % 2 != 0 ==> Int32((i / 2) * (i / 2) + i)
    ensures i == n || i % 2 == 0 || (i / 2) * (i / 2) + i <= (n / 2) * (n / 2)
    ensures 0 <= (i / 2) * (i / 2) <= (n / 2) * (n / 2)
  {
    W.MulMono(i / 2, i / 2, n / 2);
    W.MulMono(n / 2, i / 2, n / 2);
    if i < n && i % 2 != 0 {
      NextSquare(i);
      W.MulMono((i + 1) / 2, (i + 1) / 2, n / 2);
      W.MulMono(n / 2, (i + 1) / 2, n / 2);
    }
  }

  /** The code of the function returns the sum of the odd numbers below n, the square of n / 2. */
  lemma OddSumRuns(regs: seq<int>, n: int, i: int)
    requires 0 <= n < 0x7fff_ffff && Int32((n / 2) * (n / 2)) && Loaded(OddSum(), regs, [n, i, 0])
    ensures EndsAs(Compile(OddSum(), 3).code, Run(0, regs), Returned((n / 2) * (n / 2), [n, n, (n / 2) * (n / 2)]), |regs|, 3)
  {
    hide Rounds, EndsAs, StmtOk, SafeStmt, Compile, Loaded, Body;
    OddLoopOk();
    OddSumOk();
    var loop := OddLoop();
    var env := [n, i, 0];
    assert env[1 := 0] == [n, 0, 0];
    Leaves(env, 0);
    assert Eval(Promised, Start(), env) == Val(0, [n, 0, 0]);
    OddRounds(n, 0, n + 1);
    assert Exec(Promised, loop, env, false, n + 1) == Next([n, n, (n / 2) * (n / 2)]);
    var end := [n, n, (n / 2) * (n / 2)];
    assert Eval(Promised, Var(2), end) == Val(end[2], end);
    assert Exec(Promised, Return(Var(2)), end, false, n + 1) == Returned(end[2], end);
    assert Exec(Promised, OddSum(), env, false, n + 1) == Returned(end[2], end);
    ExecAgrees(OddSum(), env, false, n + 1);
    FunctionRuns(OddSum(), regs, env, n + 1);
  }
}
