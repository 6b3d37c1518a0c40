/** Where the two meanings of the language agree: exactly as long as no operator's left operand
    changes under it and no do loop turns on a >= of equal operands. */
module CodSteady {
  import opened CodSource

  // ----- where the two meanings agree

  /** No operand sits in the register of a local that the other operand writes. */
  predicate SafeExpr(e: Expr) {
    match e
    case Const(_) => true
    case Var(_) => true
    case Step(_, _, _) => true
    case Assign(_, a) => SafeExpr(a)
    case OpAssign(_, x, a) => SafeExpr(a) && x !in Writes(a)
    case Binary(_, l, r) => SafeExpr(l) && SafeExpr(r) && (Home(l).Some? ==> Home(l).value !in Writes(r))
    case Compare(_, l, r) => SafeExpr(l) && SafeExpr(r) && (Home(l).Some? ==> Home(l).value !in Writes(r))
    case Logic(_, l, r) => SafeExpr(l) && SafeExpr(r)
    case UnaryPlus(a) => SafeExpr(a)
    case Negate(a) => SafeExpr(a)
    case BitNot(a) => SafeExpr(a)
    case Not(a) => SafeExpr(a)
    case Cond(c, l, r) => SafeExpr(c) && SafeExpr(l) && SafeExpr(r)
    case Comma(l, r) => SafeExpr(l) && SafeExpr(r)
  }

  predicate SafeOpt(e: Option<Expr>) {
    e.Some? ==> SafeExpr(e.value)
  }

  /** And no do loop has >= at the top of its test. */
  predicate SafeStmt(s: Stmt) {
    match s
    case Skip => true
    case Break => true
    case Continue => true
    case Do(e) => SafeExpr(e)
    case Return(e) => SafeExpr(e)
    case Seq(a, b) => SafeStmt(a) && SafeStmt(b)
    case If(c, t, e) => SafeExpr(c) && SafeStmt(t) && (e.Some? ==> SafeStmt(e.value))
    case Loop(i, t, n, p, b) =>
      && SafeOpt(i) && SafeOpt(t) && SafeOpt(n) && SafeOpt(p) && SafeStmt(b)
      && (p.Some? ==> !(p.value.Compare? && p.value.cmp.Geq?))
  }

  /** A local that is not written keeps its value; a value in a local's register is that
      local's value. */
  lemma {:induction false} Unwritten(m: Mode, e: Expr, env: seq<int>, x: nat)
    requires ExprOk(e, |env|) && x < |env|
    ensures var r := Eval(m, e, env);
      r.Val? ==> (x !in Writes(e) ==> r.env[x] == env[x]) && (Home(e) == Some(x) ==> r.v == r.env[x])
    decreases e, 1
  {
    hide Arith, Holds, Wrap;
    match e
    case Const(_) =>
    case Var(_) =>
    case Step(_, _, _) =>
    case Assign(_, a) => Unwritten(m, a, env, x);
    case OpAssign(_, _, a) => Unwritten(m, a, env, x);
    case UnaryPlus(a) => Unwritten(m, a, env, x);
    case Negate(a) => Unwritten(m, a, env, x);
    case BitNot(a) => Unwritten(m, a, env, x);
    case Not(a) => Unwritten(m, a, env, x);
    case Binary(_, _, _) => BothUnwritten(m, e, env, x);
    case Compare(_, _, _) => BothUnwritten(m, e, env, x);
    case Logic(_, _, _) => BothUnwritten(m, e, env, x);
    case Comma(_, _) => BothUnwritten(m, e, env, x);
    case Cond(c, l, r) =>
      Unwritten(m, c, env, x);
      var a := Eval(m, c, env);
      if a.Val? {
        Unwritten(m, l, a.env, x);
        Unwritten(m, r, a.env, x);
      }
  }

  lemma {:induction false} BothUnwritten(m: Mode, e: Expr, env: seq<int>, x: nat)
    requires (e.Binary? || e.Compare? || e.Logic? || e.Comma?) && ExprOk(e, |env|) && x < |env|
    ensures var a := Eval(m, e.left, env);
      a.Val? ==>
        && (x !in Writes(e.left) ==> a.env[x] == env[x]) && (Home(e.left) == Some(x) ==> a.v == a.env[x])
        && var b := Eval(m, e.right, a.env);
        b.Val? ==> (x !in Writes(e.right) ==> b.env[x] == a.env[x]) && (Home(e.right) == Some(x) ==> b.v == b.env[x])
    decreases e, 0
  {
    Unwritten(m, e.left, env, x);
    var a := Eval(m, e.left, env);
    if a.Val? {
      Unwritten(m, e.right, a.env, x);
    }
  }

  // ----- what the operators see

  /** What the operators of an expression or a run get for their operands, in the shape of the
      evaluation. */
  datatype Sight = Leaf | Node(first: Sight, second: Sight, seen: Option<(int, int)>)

  function Sights(m: Mode, e: Expr, env: seq<int>): Sight
    requires ExprOk(e, |env|)
    decreases e, 1
  {
    match e
    case Const(_) => Leaf
    case Var(_) => Leaf
    case Step(_, _, _) => Leaf
    case Assign(_, a) => Sights(m, a, env)
    case UnaryPlus(a) => Sights(m, a, env)
    case Negate(a) => Sights(m, a, env)
    case BitNot(a) => Sights(m, a, env)
    case Not(a) => Sights(m, a, env)
    case OpAssign(_, x, a) =>
      var r := Eval(m, a, env);
      Node(Sights(m, a, env), Leaf, if r.Trap? then None else Some((Operand(m, Var(x), env[x], r.env), r.v)))
    case Binary(_, l, _) => Node(Sights(m, l, env), Second(m, e, env), BothSeen(m, e, env))
    case Compare(_, l, _) => Node(Sights(m, l, env), Second(m, e, env), BothSeen(m, e, env))
    case Comma(l, _) => Node(Sights(m, l, env), Second(m, e, env), None)
    case Logic(isAnd, l, r) =>
      var a := Eval(m, l, env);
      Node(Sights(m, l, env), if a.Trap? || (a.v != 0) != isAnd then Leaf else Sights(m, r, a.env), None)
    case Cond(c, l, r) =>
      var a := Eval(m, c, env);
      Node(Sights(m, c, env), if a.Trap? then Leaf else if a.v != 0 then Sights(m, l, a.env) else Sights(m, r, a.env), None)
  }

  predicate Sequential(e: Expr) {
    e.Binary? || e.Compare? || e.Comma?
  }

  /** The right part, where the left one leaves off. */
  function Second(m: Mode, e: Expr, env: seq<int>): Sight
    requires Sequential(e) && ExprOk(e, |env|)
    decreases e, 0
  {
    var a := Eval(m, e.left, env);
    if a.Trap? then Leaf else Sights(m, e.right, a.env)
  }

  function BothSeen(m: Mode, e: Expr, env: seq<int>): Option<(int, int)>
    requires (e.Binary? || e.Compare?) && ExprOk(e, |env|)
  {
    var p := EvalBoth(m, e, env);
    if p.NoPair? then None else Some((p.a, p.b))
  }

  // ----- when they see the same

  /** The local whose register holds the operand has in `after` the value it had in `before`. */
  predicate Unmoved(e: Expr, before: seq<int>, after: seq<int>) {
    Home(e).Some? && Home(e).value < |before| == |after| ==> after[Home(e).value] == before[Home(e).value]
  }

  /** The right operand leaves the left one as it was. */
  predicate OperandKept(e: Expr, env: seq<int>)
    requires (e.Binary? || e.Compare?) && ExprOk(e, |env|)
  {
    var a := Eval(Promised, e.left, env);
    a.Val? ==>
      var b := Eval(Promised, e.right, a.env);
      b.Val? ==> Unmoved(e.left, a.env, b.env)
  }

  /** Evaluated as promised, no operator's right operand changes the local that its left operand
      sits in. */
  predicate Steady(e: Expr, env: seq<int>)
    requires ExprOk(e, |env|)
    decreases e, 1
  {
    match e
    case Const(_) => true
    case Var(_) => true
    case Step(_, _, _) => true
    case Assign(_, a) => Steady(a, env)
    case UnaryPlus(a) => Steady(a, env)
    case Negate(a) => Steady(a, env)
    case BitNot(a) => Steady(a, env)
    case Not(a) => Steady(a, env)
    case OpAssign(_, x, a) =>
      var r := Eval(Promised, a, env);
      Steady(a, env) && (r.Val? ==> r.env[x] == env[x])
    case Binary(_, _, _) => SteadyBoth(e, env) && OperandKept(e, env)
    case Compare(_, _, _) => SteadyBoth(e, env) && OperandKept(e, env)
    case Comma(_, _) => SteadyBoth(e, env)
    case Logic(isAnd, l, r) =>
      var a := Eval(Promised, l, env);
      Steady(l, env) && (a.Val? && (a.v != 0) == isAnd ==> Steady(r, a.env))
    case Cond(c, l, r) =>
      var a := Eval(Promised, c, env);
      Steady(c, env) && (a.Val? ==> if a.v != 0 then Steady(l, a.env) else Steady(r, a.env))
  }

  /** Left and right part, each where it is evaluated. */
  predicate SteadyBoth(e: Expr, env: seq<int>)
    requires Sequential(e) && ExprOk(e, |env|)
    decreases e, 0
  {
    var a := Eval(Promised, e.left, env);
    Steady(e.left, env) && (a.Val? ==> Steady(e.right, a.env))
  }

  lemma {:induction false} HomeIsLocal(e: Expr, locals: nat)
    requires ExprOk(e, locals)
    ensures Home(e).Some? ==> Home(e).value < locals
  {
    match e
    case UnaryPlus(a) => HomeIsLocal(a, locals);
    case Comma(_, r) => HomeIsLocal(r, locals);
    case _ =>
  }

  /** An operator gets the operands promised if and only if its right operand leaves the left
      one as it was. */
  lemma OperandExact(e: Expr, env: seq<int>)
    requires (e.Binary? || e.Compare?) && ExprOk(e, |env|)
    requires Eval(Emitted, e.left, env) == Eval(Promised, e.left, env)
    requires var a := Eval(Promised, e.left, env); a.Val? ==> Eval(Emitted, e.right, a.env) == Eval(Promised, e.right, a.env)
    ensures EvalBoth(Emitted, e, env) == EvalBoth(Promised, e, env) <==> OperandKept(e, env)
    ensures EvalBoth(Emitted, e, env).NoPair? == EvalBoth(Promised, e, env).NoPair?
    ensures BothSeen(Emitted, e, env) == BothSeen(Promised, e, env) <==> OperandKept(e, env)
  {
    hide Eval;
    HomeIsLocal(e.left, |env|);
    if Home(e.left).Some? { BothUnwritten(Promised, e, env, Home(e.left).value); }
  }

  /** What op= adds to is the local's value on entry if and only if the right side leaves it. */
  lemma OpAssignExact(e: Expr, env: seq<int>)
    requires e.OpAssign? && ExprOk(e, |env|) && Eval(Emitted, e.e, env) == Eval(Promised, e.e, env)
    ensures Sights(Emitted, e, env).seen == Sights(Promised, e, env).seen <==>
      var r := Eval(Promised, e.e, env); r.Val? ==> r.env[e.x] == env[e.x]
  {
    hide Eval;
    assert Home(Var(e.x)) == Some(e.x);
  }

  /** Main result. The operators of an expression get the operands promised if and only if it is
      steady; then it has the value promised. */
  lemma {:induction false} SteadyExact(e: Expr, env: seq<int>)
    requires ExprOk(e, |env|)
    ensures Sights(Emitted, e, env) == Sights(Promised, e, env) <==> Steady(e, env)
    ensures Steady(e, env) ==> Eval(Emitted, e, env) == Eval(Promised, e, env)
    decreases e, 1
  {
    hide Arith, Holds, Wrap, Writes, Operand, OperandKept, BothSeen;
    match e
    case Const(_) =>
    case Var(_) =>
    case Step(_, _, _) =>
    case Assign(_, a) => SteadyExact(a, env);
    case UnaryPlus(a) => SteadyExact(a, env);
    case Negate(a) => SteadyExact(a, env);
    case BitNot(a) => SteadyExact(a, env);
    case Not(a) => SteadyExact(a, env);
    case OpAssign(_, _, a) =>
      SteadyExact(a, env);
      if Steady(a, env) { OpAssignExact(e, env); }
    case Binary(_, _, _) =>
      BothExact(e, env);
      if SteadyBoth(e, env) { OperandExact(e, env); }
    case Compare(_, _, _) =>
      BothExact(e, env);
      if SteadyBoth(e, env) { OperandExact(e, env); }
    case Comma(_, _) => BothExact(e, env);
    case Logic(_, l, r) =>
      SteadyExact(l, env);
      var a := Eval(Promised, l, env);
      if a.Val? { SteadyExact(r, a.env); }
    case Cond(c, l, r) =>
      SteadyExact(c, env);
      var a := Eval(Promised, c, env);
      if a.Val? {
        SteadyExact(l, a.env);
        SteadyExact(r, a.env);
      }
  }

  lemma {:induction false} BothExact(e: Expr, env: seq<int>)
    requires Sequential(e) && ExprOk(e, |env|)
    ensures Sights(Emitted, e.left, env) == Sights(Promised, e.left, env) && Second(Emitted, e, env) == Second(Promised, e, env)
      <==> SteadyBoth(e, env)
    ensures SteadyBoth(e, env) ==> Eval(Emitted, e.left, env) == Eval(Promised, e.left, env)
    ensures SteadyBoth(e, env) ==> var a := Eval(Promised, e.left, env);
      a.Val? ==> Eval(Emitted, e.right, a.env) == Eval(Promised, e.right, a.env)
    decreases e, 0
  {
    hide Eval;
    SteadyExact(e.left, env);
    var a := Eval(Promised, e.left, env);
    if a.Val? { SteadyExact(e.right, a.env); }
  }

  // ----- what is steady as it stands

  /** An expression in which no operand sits in a local that the other operand writes is steady
      whatever the locals hold. */
  lemma {:induction false} SafeSteady(e: Expr, env: seq<int>)
    requires ExprOk(e, |env|) && SafeExpr(e)
    ensures Steady(e, env)
    decreases e, 1
  {
    hide Arith, Holds, Wrap, Writes, OperandKept;
    match e
    case Const(_) =>
    case Var(_) =>
    case Step(_, _, _) =>
    case Assign(_, a) => SafeSteady(a, env);
    case UnaryPlus(a) => SafeSteady(a, env);
    case Negate(a) => SafeSteady(a, env);
    case BitNot(a) => SafeSteady(a, env);
    case Not(a) => SafeSteady(a, env);
    case OpAssign(_, x, a) =>
      SafeSteady(a, env);
      Unwritten(Promised, a, env, x);
    case Binary(_, _, _) => SafeBoth(e, env);
    case Compare(_, _, _) => SafeBoth(e, env);
    case Comma(_, _) => SafeBoth(e, env);
    case Logic(_, l, r) =>
      SafeSteady(l, env);
      var a := Eval(Promised, l, env);
      if a.Val? { SafeSteady(r, a.env); }
    case Cond(c, l, r) =>
      SafeSteady(c, env);
      var a := Eval(Promised, c, env);
      if a.Val? {
        SafeSteady(l, a.env);
        SafeSteady(r, a.env);
      }
  }

  lemma {:induction false} SafeBoth(e: Expr, env: seq<int>)
    requires Sequential(e) && ExprOk(e, |env|) && SafeExpr(e)
    ensures SteadyBoth(e, env) && (!e.Comma? ==> OperandKept(e, env))
    decreases e, 0
  {
    hide Eval, Writes;
    HomeIsLocal(e.left, |env|);
    if Home(e.left).Some? { BothUnwritten(Promised, e, env, Home(e.left).value); }
    SafeSteady(e.left, env);
    var a := Eval(Promised, e.left, env);
    if a.Val? { SafeSteady(e.right, a.env); }
  }

  lemma EvalAgrees(e: Expr, env: seq<int>)
    requires ExprOk(e, |env|) && SafeExpr(e)
    ensures Eval(Emitted, e, env) == Eval(Promised, e, env)
  {
    SafeSteady(e, env);
    SteadyExact(e, env);
  }

  // ----- runs

  function OptSights(m: Mode, e: Option<Expr>, env: seq<int>): Sight
    requires OptOk(e, |env|)
  {
    if e.None? then Leaf else Sights(m, e.value, env)
  }

  /** What a run sees; of the test of a do loop also what the loop turns on. */
  function RunSights(m: Mode, s: Stmt, env: seq<int>, inLoop: bool, fuel: nat): Sight
    requires StmtOk(s, |env|, inLoop)
    decreases fuel, s, 1
  {
    match s
    case Skip => Leaf
    case Break => Leaf
    case Continue => Leaf
    case Do(e) => Sights(m, e, env)
    case Return(e) => Sights(m, e, env)
    case Seq(a, b) =>
      var f := Exec(m, a, env, inLoop, fuel);
      Node(RunSights(m, a, env, inLoop, fuel), if f.Next? then RunSights(m, b, f.env, inLoop, fuel) else Leaf, None)
    case If(c, t, e) =>
      var r := Eval(m, c, env);
      Node(Sights(m, c, env),
           if r.Trap? then Leaf
           else if r.v != 0 then RunSights(m, t, r.env, inLoop, fuel)
           else if e.Some? then RunSights(m, e.value, r.env, inLoop, fuel)
           else Leaf, None)
    case Loop(i, _, _, _, _) =>
      var r := EvalOpt(m, i, env);
      Node(OptSights(m, i, env), if r.Trap? then Leaf else RoundSights(m, s, r.env, fuel), None)
  }

  function RoundSights(m: Mode, s: Stmt, env: seq<int>, fuel: nat): Sight
    requires s.Loop? && StmtOk(s, |env|, true)
    decreases fuel, s, 0
  {
    if fuel == 0 then Leaf
    else
      var t := EvalOpt(m, s.test, env);
      Node(OptSights(m, s.test, env), if t.Trap? || t.v == 0 then Leaf else BodySights(m, s, t.env, fuel), None)
  }

  function BodySights(m: Mode, s: Stmt, env: seq<int>, fuel: nat): Sight
    requires s.Loop? && StmtOk(s, |env|, true) && fuel > 0
    decreases fuel - 1, s, 3
  {
    var f := Exec(m, s.body, env, true, fuel - 1);
    Node(RunSights(m, s.body, env, true, fuel - 1), if f.Next? || f.Continued? then TailSights(m, s, f.env, fuel) else Leaf, None)
  }

  function TailSights(m: Mode, s: Stmt, env: seq<int>, fuel: nat): Sight
    requires s.Loop? && StmtOk(s, |env|, true) && fuel > 0
    decreases fuel - 1, s, 2
  {
    var n := EvalOpt(m, s.iter, env);
    Node(OptSights(m, s.iter, env),
         if n.Trap? then Leaf
         else if s.post.None? then RoundSights(m, s, n.env, fuel - 1)
         else TestSights(m, s, n.env, fuel), None)
  }

  function TestSights(m: Mode, s: Stmt, env: seq<int>, fuel: nat): Sight
    requires s.Loop? && s.post.Some? && StmtOk(s, |env|, true) && fuel > 0
    decreases fuel - 1, s, 1
  {
    var p := Eval(m, BackEdge(m, s.post.value), env);
    Node(Sights(m, s.post.value, env), if p.Trap? || p.v == 0 then Leaf else RoundSights(m, s, p.env, fuel - 1),
         if p.Trap? then None else Some((p.v, 0)))
  }

  predicate SteadyOpt(e: Option<Expr>, env: seq<int>)
    requires OptOk(e, |env|)
  {
    e.Some? ==> Steady(e.value, env)
  }

  /** The test does not compare equal operands by >=. */
  predicate TestKept(e: Expr, env: seq<int>)
    requires ExprOk(e, |env|)
  {
    e.Compare? && e.cmp.Geq? ==> var p := EvalBoth(Promised, e, env); p.Pair? ==> p.a != p.b
  }

  /** Run as promised, every expression is steady where it is evaluated, and no do loop turns on
      a >= of equal operands. */
  predicate SteadyRun(s: Stmt, env: seq<int>, inLoop: bool, fuel: nat)
    requires StmtOk(s, |env|, inLoop)
    decreases fuel, s, 1
  {
    match s
    case Skip => true
    case Break => true
    case Continue => true
    case Do(e) => Steady(e, env)
    case Return(e) => Steady(e, env)
    case Seq(a, b) =>
      var f := Exec(Promised, a, env, inLoop, fuel);
      SteadyRun(a, env, inLoop, fuel) && (f.Next? ==> SteadyRun(b, f.env, inLoop, fuel))
    case If(c, t, e) =>
      var r := Eval(Promised, c, env);
      Steady(c, env) && (r.Val? ==> if r.v != 0 then SteadyRun(t, r.env, inLoop, fuel) else e.Some? ==> SteadyRun(e.value, r.env, inLoop, fuel))
    case Loop(i, _, _, _, _) =>
      var r := EvalOpt(Promised, i, env);
      SteadyOpt(i, env) && (r.Val? ==> SteadyRounds(s, r.env, fuel))
  }

  predicate SteadyRounds(s: Stmt, env: seq<int>, fuel: nat)
    requires s.Loop? && StmtOk(s, |env|, true)
    decreases fuel, s, 0
  {
    fuel > 0 ==>
      var t := EvalOpt(Promised, s.test, env);
      SteadyOpt(s.test, env) && (t.Val? && t.v != 0 ==> SteadyBody(s, t.env, fuel))
  }

  predicate SteadyBody(s: Stmt, env: seq<int>, fuel: nat)
    requires s.Loop? && StmtOk(s, |env|, true) && fuel > 0
    decreases fuel - 1, s, 3
  {
    var f := Exec(Promised, s.body, env, true, fuel - 1);
    SteadyRun(s.body, env, true, fuel - 1) && (f.Next? || f.Continued? ==> SteadyTail(s, f.env, fuel))
  }

  predicate SteadyTail(s: Stmt, env: seq<int>, fuel: nat)
    requires s.Loop? && StmtOk(s, |env|, true) && fuel > 0
    decreases fuel - 1, s, 2
  {
    var n := EvalOpt(Promised, s.iter, env);
    SteadyOpt(s.iter, env) && (n.Val? ==> if s.post.None? then SteadyRounds(s, n.env, fuel - 1) else SteadyTest(s, n.env, fuel))
  }

  predicate SteadyTest(s: Stmt, env: seq<int>, fuel: nat)
    requires s.Loop? && s.post.Some? && StmtOk(s, |env|, true) && fuel > 0
    decreases fuel - 1, s, 1
  {
    var p := Eval(Promised, s.post.value, env);
    && Steady(s.post.value, env) && TestKept(s.post.value, env)
    && (p.Val? && p.v != 0 ==> SteadyRounds(s, p.env, fuel - 1))
  }

  lemma OptExact(e: Option<Expr>, env: seq<int>)
    requires OptOk(e, |env|)
    ensures OptSights(Emitted, e, env) == OptSights(Promised, e, env) <==> SteadyOpt(e, env)
    ensures SteadyOpt(e, env) ==> EvalOpt(Emitted, e, env) == EvalOpt(Promised, e, env)
  {
    hide Eval, Steady, Sights;
    if e.Some? { SteadyExact(e.value, env); }
  }

  /** The branch at the end of a do loop turns as its test promised if and only if the test does
      not compare equal operands by >=. */
  lemma BackEdgeExact(e: Expr, env: seq<int>)
    requires ExprOk(e, |env|) && Steady(e, env)
    ensures Eval(Emitted, BackEdge(Emitted, e), env) == Eval(Promised, e, env) <==> TestKept(e, env)
    ensures var p, q := Eval(Emitted, BackEdge(Emitted, e), env), Eval(Promised, e, env);
      p.Trap? == q.Trap? && (!TestKept(e, env) ==> p.Val? && p.v != q.v)
  {
    SteadyExact(e, env);
    if e.Compare? {
      var t := BackEdge(Emitted, e);
      BothExact(e, env);
      OperandExact(e, env);
      hide OperandKept, SteadyBoth;
      assert EvalBoth(Emitted, t, env) == EvalBoth(Emitted, e, env) by {
        assert t.left == e.left && t.right == e.right;
      }
    }
  }

  /** Main result. A run of the emitted code sees what was promised, at every operator and at
      the end of every do loop, if and only if the run is steady; then it ends as promised. */
  lemma {:induction false} RunExact(s: Stmt, env: seq<int>, inLoop: bool, fuel: nat)
    requires StmtOk(s, |env|, inLoop)
    ensures RunSights(Emitted, s, env, inLoop, fuel) == RunSights(Promised, s, env, inLoop, fuel) <==> SteadyRun(s, env, inLoop, fuel)
    ensures SteadyRun(s, env, inLoop, fuel) ==> Exec(Emitted, s, env, inLoop, fuel) == Exec(Promised, s, env, inLoop, fuel)
    decreases fuel, s, 1
  {
    hide Eval, Steady, Sights, Rounds, ExprOk, EvalOpt, SteadyOpt, OptSights, RoundSights, SteadyRounds;
    match s
    case Skip =>
    case Break =>
    case Continue =>
    case Do(e) => SteadyExact(e, env);
    case Return(e) => SteadyExact(e, env);
    case Seq(a, b) =>
      RunExact(a, env, inLoop, fuel);
      var f := Exec(Promised, a, env, inLoop, fuel);
      if f.Next? { RunExact(b, f.env, inLoop, fuel); }
    case If(c, t, e) =>
      SteadyExact(c, env);
      var r := Eval(Promised, c, env);
      if r.Val? {
        if r.v != 0 { RunExact(t, r.env, inLoop, fuel); }
        else if e.Some? { RunExact(e.value, r.env, inLoop, fuel); }
      }
    case Loop(i, _, _, _, _) =>
      OptExact(i, env);
      var r := EvalOpt(Promised, i, env);
      if r.Val? { RoundsExact(s, r.env, fuel); }
  }

  lemma {:induction false} RoundsExact(s: Stmt, env: seq<int>, fuel: nat)
    requires s.Loop? && StmtOk(s, |env|, true)
    ensures RoundSights(Emitted, s, env, fuel) == RoundSights(Promised, s, env, fuel) <==> SteadyRounds(s, env, fuel)
    ensures SteadyRounds(s, env, fuel) ==> Rounds(Emitted, s, env, fuel) == Rounds(Promised, s, env, fuel)
    decreases fuel, s, 0
  {
    hide Eval, ExprOk, EvalOpt, SteadyOpt, OptSights, BodySights, SteadyBody, AfterTest;
    if fuel > 0 {
      RoundsUnfold(Emitted, s, env, fuel);
      RoundsUnfold(Promised, s, env, fuel);
      hide Rounds;
      OptExact(s.test, env);
      var t := EvalOpt(Promised, s.test, env);
      if t.Val? && t.v != 0 { BodyExact(s, t.env, fuel); }
    }
  }

  // A round in its parts.

  function AfterTest(m: Mode, s: Stmt, env: seq<int>, fuel: nat): Flow
    requires s.Loop? && StmtOk(s, |env|, true) && fuel > 0
  {
    var f := Exec(m, s.body, env, true, fuel - 1);
    if f.Broke? then Next(f.env) else if !f.Next? && !f.Continued? then f else AfterBody(m, s, f.env, fuel)
  }

  function AfterBody(m: Mode, s: Stmt, env: seq<int>, fuel: nat): Flow
    requires s.Loop? && StmtOk(s, |env|, true) && fuel > 0
  {
    var n := EvalOpt(m, s.iter, env);
    if n.Trap? then Trapped else if s.post.None? then Rounds(m, s, n.env, fuel - 1) else AfterStep(m, s, n.env, fuel)
  }

  function AfterStep(m: Mode, s: Stmt, env: seq<int>, fuel: nat): Flow
    requires s.Loop? && s.post.Some? && StmtOk(s, |env|, true) && fuel > 0
  {
    var p := Eval(m, BackEdge(m, s.post.value), env);
    if p.Trap? then Trapped else if p.v != 0 then Rounds(m, s, p.env, fuel - 1) else Next(p.env)
  }

  lemma RoundsUnfold(m: Mode, s: Stmt, env: seq<int>, fuel: nat)
    requires s.Loop? && StmtOk(s, |env|, true) && fuel > 0
    ensures var t := EvalOpt(m, s.test, env);
      Rounds(m, s, env, fuel) == if t.Trap? then Trapped else if t.v == 0 then Next(t.env) else AfterTest(m, s, t.env, fuel)
  {
    hide Eval, EvalOpt, Exec;
  }

  lemma {:induction false} BodyExact(s: Stmt, env: seq<int>, fuel: nat)
    requires s.Loop? && StmtOk(s, |env|, true) && fuel > 0
    ensures BodySights(Emitted, s, env, fuel) == BodySights(Promised, s, env, fuel) <==> SteadyBody(s, env, fuel)
    ensures SteadyBody(s, env, fuel) ==> AfterTest(Emitted, s, env, fuel) == AfterTest(Promised, s, env, fuel)
    decreases fuel - 1, s, 3
  {
    hide Eval, ExprOk, EvalOpt, Exec, RunSights, SteadyRun, TailSights, SteadyTail, AfterBody;
    RunExact(s.body, env, true, fuel - 1);
    var f := Exec(Promised, s.body, env, true, fuel - 1);
    if f.Next? || f.Continued? { TailExact(s, f.env, fuel); }
  }

  lemma {:induction false} TailExact(s: Stmt, env: seq<int>, fuel: nat)
    requires s.Loop? && StmtOk(s, |env|, true) && fuel > 0
    ensures TailSights(Emitted, s, env, fuel) == TailSights(Promised, s, env, fuel) <==> SteadyTail(s, env, fuel)
    ensures SteadyTail(s, env, fuel) ==> AfterBody(Emitted, s, env, fuel) == AfterBody(Promised, s, env, fuel)
    decreases fuel - 1, s, 2
  {
    hide Eval, ExprOk, EvalOpt, Rounds, SteadyOpt, OptSights, RoundSights, SteadyRounds, TestSights, SteadyTest, AfterStep;
    OptExact(s.iter, env);
    var n := EvalOpt(Promised, s.iter, env);
    if n.Val? {
      if s.post.None? { RoundsExact(s, n.env, fuel - 1); } else { TestExact(s, n.env, fuel); }
    }
  }

  lemma {:induction false} TestExact(s: Stmt, env: seq<int>, fuel: nat)
    requires s.Loop? && s.post.Some? && StmtOk(s, |env|, true) && fuel > 0
    ensures TestSights(Emitted, s, env, fuel) == TestSights(Promised, s, env, fuel) <==> SteadyTest(s, env, fuel)
    ensures SteadyTest(s, env, fuel) ==> AfterStep(Emitted, s, env, fuel) == AfterStep(Promised, s, env, fuel)
    decreases fuel - 1, s, 1
  {
    hide Eval, ExprOk, Rounds, RoundSights, SteadyRounds, Steady, Sights, TestKept;
    var e := s.post.value;
    SteadyExact(e, env);
    if Steady(e, env) {
      BackEdgeExact(e, env);
      var p := Eval(Promised, e, env);
      if p.Val? && p.v != 0 { RoundsExact(s, p.env, fuel - 1); }
    }
  }

  // ----- safe statements

  lemma SafeOptSteady(e: Option<Expr>, env: seq<int>)
    requires OptOk(e, |env|) && SafeOpt(e)
    ensures SteadyOpt(e, env)
  {
    if e.Some? { SafeSteady(e.value, env); }
  }

  lemma {:induction false} SafeRun(s: Stmt, env: seq<int>, inLoop: bool, fuel: nat)
    requires StmtOk(s, |env|, inLoop) && SafeStmt(s)
    ensures SteadyRun(s, env, inLoop, fuel)
    decreases fuel, s, 1
  {
    hide Eval, SafeExpr, Steady, ExprOk, EvalOpt, SteadyOpt, SteadyRounds, Exec;
    match s
    case Skip =>
    case Break =>
    case Continue =>
    case Do(e) => SafeSteady(e, env);
    case Return(e) => SafeSteady(e, env);
    case Seq(a, b) =>
      SafeRun(a, env, inLoop, fuel);
      var f := Exec(Promised, a, env, inLoop, fuel);
      if f.Next? { SafeRun(b, f.env, inLoop, fuel); }
    case If(c, t, e) =>
      SafeSteady(c, env);
      var r := Eval(Promised, c, env);
      if r.Val? {
        SafeRun(t, r.env, inLoop, fuel);
        if e.Some? { SafeRun(e.value, r.env, inLoop, fuel); }
      }
    case Loop(i, _, _, _, _) =>
      SafeOptSteady(i, env);
      var r := EvalOpt(Promised, i, env);
      if r.Val? { SafeRounds(s, r.env, fuel); }
  }

  lemma {:induction false} SafeRounds(s: Stmt, env: seq<int>, fuel: nat)
    requires s.Loop? && StmtOk(s, |env|, true) && SafeStmt(s)
    ensures SteadyRounds(s, env, fuel)
    decreases fuel, s, 0
  {
    hide Eval, SafeExpr, Steady, ExprOk, EvalOpt, SteadyOpt, Exec, SteadyTail;
    if fuel > 0 {
      SafeOptSteady(s.test, env);
      var t := EvalOpt(Promised, s.test, env);
      if t.Val? && t.v != 0 {
        SafeRun(s.body, t.env, true, fuel - 1);
        var f := Exec(Promised, s.body, t.env, true, fuel - 1);
        if f.Next? || f.Continued? { SafeTail(s, f.env, fuel); }
      }
    }
  }

  lemma {:induction false} SafeTail(s: Stmt, env: seq<int>, fuel: nat)
    requires s.Loop? && StmtOk(s, |env|, true) && SafeStmt(s) && fuel > 0
    ensures SteadyTail(s, env, fuel)
    decreases fuel - 1, s, 2
  {
    hide Eval, SafeExpr, Steady, ExprOk, EvalOpt, SteadyOpt, SteadyRounds;
    SafeOptSteady(s.iter, env);
    var n := EvalOpt(Promised, s.iter, env);
    if n.Val? {
      if s.post.None? {
        SafeRounds(s, n.env, fuel - 1);
      } else {
        SafeSteady(s.post.value, n.env);
        var p := Eval(Promised, s.post.value, n.env);
        if p.Val? { SafeRounds(s, p.env, fuel - 1); }
      }
    }
  }

  lemma ExecAgrees(s: Stmt, env: seq<int>, inLoop: bool, fuel: nat)
    requires StmtOk(s, |env|, inLoop) && SafeStmt(s)
    ensures Exec(Emitted, s, env, inLoop, fuel) == Exec(Promised, s, env, inLoop, fuel)
  {
    SafeRun(s, env, inLoop, fuel);
    RunExact(s, env, inLoop, fuel);
  }
}
