/** The part of the COD language modelled here: int locals, arithmetic, comparisons,
    short-circuit logic, conditionals, assignment, loops, break, continue, return. Two
    meanings are given: the one the language promises and the one the emitted code has. */
module CodSource {
  import W = Words

  datatype Option<T> = None | Some(value: T)

  datatype ArithOp = Add | Sub | Mul | Div | Mod | BitAnd | BitOr | BitXor

  datatype CmpOp = Lt | Leq | Gt | Geq | Eq | Neq

  /** Local x is the x-th local of the function, parameters included. */
  datatype Expr =
    | Const(v: int)
    | Var(x: nat)
    | Assign(x: nat, e: Expr)
    | OpAssign(op: ArithOp, x: nat, e: Expr)
    | Binary(op: ArithOp, left: Expr, right: Expr)
    | Compare(cmp: CmpOp, left: Expr, right: Expr)
    | Logic(isAnd: bool, left: Expr, right: Expr)
    | UnaryPlus(e: Expr)
    | Negate(e: Expr)
    | BitNot(e: Expr)
    | Not(e: Expr)
    | Step(up: bool, prefix: bool, x: nat)
    | Cond(c: Expr, left: Expr, right: Expr)
    | Comma(left: Expr, right: Expr)

  /** `Loop` is for, while and do at once: each part may be missing, and `post` is the
      test of a do loop. */
  datatype Stmt =
    | Skip
    | Do(e: Expr)
    | Seq(first: Stmt, second: Stmt)
    | If(c: Expr, thenPart: Stmt, elsePart: Option<Stmt>)
    | Loop(init: Option<Expr>, test: Option<Expr>, iter: Option<Expr>, post: Option<Expr>, body: Stmt)
    | Break
    | Continue
    | Return(e: Expr)

  // ----- int arithmetic, 32 bits

  const TWO31: int := 0x8000_0000
  const TWO32: int := 0x1_0000_0000

  function Wrap(v: int): (r: int)
    ensures -TWO31 <= r < TWO31 && (r - v) % TWO32 == 0
  {
    (v + TWO31) % TWO32 - TWO31
  }

  function Quotient(a: int, b: int): (q: int)
    requires b != 0
  {
    if a >= 0 then (if b > 0 then a / b else -(a / -b))
    else if b > 0 then -(-a / b) else -a / -b
  }

  /** The word that represents v in two's complement. */
  function Bits(v: int): (w: nat)
    ensures w < TWO32
  {
    v % TWO32
  }

  /** None when the processor traps: division by zero or overflowing division. */
  function Arith(op: ArithOp, a: int, b: int): Option<int> {
    match op
    case Add => Some(Wrap(a + b))
    case Sub => Some(Wrap(a - b))
    case Mul => Some(Wrap(a * b))
    case Div => if b == 0 || (a == -TWO31 && b == -1) then None else Some(Wrap(Quotient(a, b)))
    case Mod => if b == 0 || (a == -TWO31 && b == -1) then None else Some(Wrap(a - b * Quotient(a, b)))
    case BitAnd => Some(Wrap(W.Bitwise(W.And, Bits(a), Bits(b), 32)))
    case BitOr => Some(Wrap(W.Bitwise(W.Or, Bits(a), Bits(b), 32)))
    case BitXor => Some(Wrap(W.Bitwise(W.Xor, Bits(a), Bits(b), 32)))
  }

  /** Complementing is exclusive or with all ones. */
  lemma ComplementIsXor(v: int)
    ensures Arith(BitXor, -1, v) == Some(Wrap(-1 - v))
  {
    hide W.Bitwise, Wrap;
    W.Pow2Values();
    W.XorOnes(Bits(v), 32);
    assert Bits(-1) == W.Pow2(32) - 1;
    WrapPeriod(TWO32 - 1 - Bits(v), -1 - v, 1 + v / TWO32);
  }

  lemma WrapPeriod(a: int, b: int, k: int)
    requires a == b + k * TWO32
    ensures Wrap(a) == Wrap(b)
  {
    var x := b + TWO31;
    assert x == x / TWO32 * TWO32 + x % TWO32;
    assert a + TWO31 == (x / TWO32 + k) * TWO32 + x % TWO32;
  }

  predicate Holds(op: CmpOp, a: int, b: int) {
    match op
    case Lt => a < b
    case Leq => a <= b
    case Gt => a > b
    case Geq => a >= b
    case Eq => a == b
    case Neq => a != b
  }

  function Truth(b: bool): int {
    if b then 1 else 0
  }

  // ----- which locals an expression touches

  predicate ExprOk(e: Expr, locals: nat) {
    match e
    case Const(_) => true
    case Var(x) => x < locals
    case Assign(x, a) => x < locals && ExprOk(a, locals)
    case OpAssign(_, x, a) => x < locals && ExprOk(a, locals)
    case Binary(_, l, r) => ExprOk(l, locals) && ExprOk(r, locals)
    case Compare(_, l, r) => ExprOk(l, locals) && ExprOk(r, locals)
    case Logic(_, l, r) => ExprOk(l, locals) && ExprOk(r, locals)
    case UnaryPlus(a) => ExprOk(a, locals)
    case Negate(a) => ExprOk(a, locals)
    case BitNot(a) => ExprOk(a, locals)
    case Not(a) => ExprOk(a, locals)
    case Step(_, _, x) => x < locals
    case Cond(c, l, r) => ExprOk(c, locals) && ExprOk(l, locals) && ExprOk(r, locals)
    case Comma(l, r) => ExprOk(l, locals) && ExprOk(r, locals)
  }

  predicate OptOk(e: Option<Expr>, locals: nat) {
    e.Some? ==> ExprOk(e.value, locals)
  }

  /** Break and continue occur only inside loops. */
  predicate StmtOk(s: Stmt, locals: nat, inLoop: bool) {
    match s
    case Skip => true
    case Do(e) => ExprOk(e, locals)
    case Seq(a, b) => StmtOk(a, locals, inLoop) && StmtOk(b, locals, inLoop)
    case If(c, t, e) => ExprOk(c, locals) && StmtOk(t, locals, inLoop) && (e.Some? ==> StmtOk(e.value, locals, inLoop))
    case Loop(i, t, n, p, b) => OptOk(i, locals) && OptOk(t, locals) && OptOk(n, locals) && OptOk(p, locals) && StmtOk(b, locals, true)
    case Break => inLoop
    case Continue => inLoop
    case Return(e) => ExprOk(e, locals)
  }

  /** The local whose own register carries the value of the expression, if one does. */
  function Home(e: Expr): Option<nat> {
    match e
    case Var(x) => Some(x)
    case Assign(x, _) => Some(x)
    case OpAssign(_, x, _) => Some(x)
    case UnaryPlus(a) => Home(a)
    case Comma(_, r) => Home(r)
    case _ => None
  }

  function Writes(e: Expr): set<nat> {
    match e
    case Const(_) => {}
    case Var(_) => {}
    case Assign(x, a) => {x} + Writes(a)
    case OpAssign(_, x, a) => {x} + Writes(a)
    case Binary(_, l, r) => Writes(l) + Writes(r)
    case Compare(_, l, r) => Writes(l) + Writes(r)
    case Logic(_, l, r) => Writes(l) + Writes(r)
    case UnaryPlus(a) => Writes(a)
    case Negate(a) => Writes(a)
    case BitNot(a) => Writes(a)
    case Not(a) => Writes(a)
    case Step(_, _, x) => {x}
    case Cond(c, l, r) => Writes(c) + Writes(l) + Writes(r)
    case Comma(l, r) => Writes(l) + Writes(r)
  }

  // ----- meaning of expressions

  /** `Promised`: operands are evaluated left to right, each to a value. `Emitted`: a left
      operand that lives in a local's register is read after the right one has run, and a
      do loop tests > where >= was written. */
  datatype Mode = Promised | Emitted

  datatype Value = Val(v: int, env: seq<int>) | Trap

  function Operand(m: Mode, e: Expr, v: int, env: seq<int>): int {
    if m.Emitted? && Home(e).Some? && Home(e).value < |env| then env[Home(e).value] else v
  }

  function Eval(m: Mode, e: Expr, env: seq<int>): (r: Value)
    requires ExprOk(e, |env|)
    ensures r.Val? ==> |r.env| == |env|
    decreases e, 1
  {
    match e
    case Const(v) => Val(v, env)
    case Var(x) => Val(env[x], env)
    case Assign(x, a) =>
      var r := Eval(m, a, env);
      if r.Trap? then Trap else Val(r.v, r.env[x := r.v])
    case OpAssign(op, x, a) =>
      var r := Eval(m, a, env);
      if r.Trap? then Trap
      else
        var res := Arith(op, Operand(m, Var(x), env[x], r.env), r.v);
        if res.None? then Trap else Val(res.value, r.env[x := res.value])
    case Binary(op, _, _) =>
      var p := EvalBoth(m, e, env);
      if p.NoPair? then Trap
      else
        var res := Arith(op, p.a, p.b);
        if res.None? then Trap else Val(res.value, p.env)
    case Compare(op, _, _) =>
      var p := EvalBoth(m, e, env);
      if p.NoPair? then Trap else Val(Truth(Holds(op, p.a, p.b)), p.env)
    case Logic(isAnd, l, r) =>
      var a := Eval(m, l, env);
      if a.Trap? then Trap
      else if (a.v != 0) != isAnd then Val(Truth(!isAnd), a.env)
      else
        var b := Eval(m, r, a.env);
        if b.Trap? then Trap else Val(Truth(b.v != 0), b.env)
    case UnaryPlus(a) => Eval(m, a, env)
    case Negate(a) =>
      var r := Eval(m, a, env);
      if r.Trap? then Trap else Val(Wrap(-r.v), r.env)
    case BitNot(a) =>
      var r := Eval(m, a, env);
      if r.Trap? then Trap else Val(Wrap(-1 - r.v), r.env)
    case Not(a) =>
      var r := Eval(m, a, env);
      if r.Trap? then Trap else Val(Truth(r.v == 0), r.env)
    case Step(up, prefix, x) =>
      var v := Wrap(if up then env[x] + 1 else env[x] - 1);
      Val(if prefix then v else env[x], env[x := v])
    case Cond(c, l, r) =>
      var t := Eval(m, c, env);
      if t.Trap? then Trap else if t.v != 0 then Eval(m, l, t.env) else Eval(m, r, t.env)
    case Comma(l, r) =>
      var a := Eval(m, l, env);
      if a.Trap? then Trap else Eval(m, r, a.env)
  }

  datatype Pair = Pair(a: int, b: int, env: seq<int>) | NoPair

  /** The two operands of an operator. */
  function EvalBoth(m: Mode, e: Expr, env: seq<int>): (p: Pair)
    requires (e.Binary? || e.Compare?) && ExprOk(e, |env|)
    ensures p.Pair? ==> |p.env| == |env|
    decreases e, 0
  {
    var a := Eval(m, e.left, env);
    if a.Trap? then NoPair
    else
      var b := Eval(m, e.right, a.env);
      if b.Trap? then NoPair else Pair(Operand(m, e.left, a.v, b.env), b.v, b.env)
  }

  // ----- meaning of statements

  datatype Flow =
    | Next(env: seq<int>)
    | Broke(env: seq<int>)
    | Continued(env: seq<int>)
    | Returned(v: int, env: seq<int>)
    | Trapped
    | Timeout

  /** The test a do loop makes before going round again. */
  function BackEdge(m: Mode, e: Expr): Expr {
    if m.Emitted? && e.Compare? && e.cmp.Geq? then Compare(Gt, e.left, e.right) else e
  }

  function EvalOpt(m: Mode, e: Option<Expr>, env: seq<int>): (r: Value)
    requires OptOk(e, |env|)
    ensures r.Val? ==> |r.env| == |env|
  {
    if e.None? then Val(1, env) else Eval(m, e.value, env)
  }

  /** Meaning of a statement with at most `fuel` nested or successive loop rounds. */
  function Exec(m: Mode, s: Stmt, env: seq<int>, inLoop: bool, fuel: nat): (f: Flow)
    requires StmtOk(s, |env|, inLoop)
    ensures (f.Next? || f.Broke? || f.Continued? || f.Returned?) ==> |f.env| == |env|
    ensures !inLoop ==> !f.Broke? && !f.Continued?
    decreases fuel, s, 1
  {
    match s
    case Skip => Next(env)
    case Do(e) =>
      var r := Eval(m, e, env);
      if r.Trap? then Trapped else Next(r.env)
    case Seq(a, b) =>
      var f := Exec(m, a, env, inLoop, fuel);
      if f.Next? then Exec(m, b, f.env, inLoop, fuel) else f
    case If(c, t, e) =>
      var r := Eval(m, c, env);
      if r.Trap? then Trapped
      else if r.v != 0 then Exec(m, t, r.env, inLoop, fuel)
      else if e.Some? then Exec(m, e.value, r.env, inLoop, fuel)
      else Next(r.env)
    case Loop(i, _, _, _, _) =>
      var r := EvalOpt(m, i, env);
      if r.Trap? then Trapped else Rounds(m, s, r.env, fuel)
    case Break => Broke(env)
    case Continue => Continued(env)
    case Return(e) =>
      var r := Eval(m, e, env);
      if r.Trap? then Trapped else Returned(r.v, r.env)
  }

  /** The rounds of a loop, from its top test on. */
  function Rounds(m: Mode, s: Stmt, env: seq<int>, fuel: nat): (f: Flow)
    requires s.Loop? && StmtOk(s, |env|, true)
    ensures (f.Next? || f.Returned?) ==> |f.env| == |env|
    ensures !f.Broke? && !f.Continued?
    decreases fuel, s, 0
  {
    if fuel == 0 then Timeout
    else
      var t := EvalOpt(m, s.test, env);
      if t.Trap? then Trapped
      else if t.v == 0 then Next(t.env)
      else
        var f := Exec(m, s.body, t.env, true, fuel - 1);
        if f.Broke? then Next(f.env)
        else if !f.Next? && !f.Continued? then f
        else
          var n := EvalOpt(m, s.iter, f.env);
          if n.Trap? then Trapped
          else if s.post.None? then Rounds(m, s, n.env, fuel - 1)
          else
            var p := Eval(m, BackEdge(m, s.post.value), n.env);
            if p.Trap? then Trapped
            else if p.v != 0 then Rounds(m, s, p.env, fuel - 1)
            else Next(p.env)
  }
}
