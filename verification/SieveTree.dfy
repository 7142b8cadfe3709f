/** Sieve scripts as trees, what they do, and the constant folding that
    `tree_optimize` performs before code is generated. */
module SieveTree {
  import opened Text

  /** Where a node stands in the script. */
  datatype Point = Point(file: nat, line: nat, col: nat)
  datatype Locus = Locus(beg: Point, end: Point)

  datatype Test =
    | True
    | False
    | Check(id: nat, locus: Locus)
    | Not(arg: Test, locus: Locus)
    | AnyOf(args: seq<Test>, locus: Locus)
    | AllOf(args: seq<Test>, locus: Locus)

  /** `iffalse` is empty where there is no else part. */
  datatype Stmt =
    | Noop
    | Action(id: nat, locus: Locus)
    | If(cond: Test, iftrue: seq<Stmt>, iffalse: seq<Stmt>, locus: Locus)
    | End(locus: Locus)

  // ----- meaning -----

  datatype Event = Tested(id: nat) | Acted(id: nat)
  type History = seq<Event>

  /** The handlers: what a test answers, which may depend on all that happened
      before, and which action is `stop`. */
  datatype Handlers = Handlers(answer: (nat, History) -> bool, stop: nat)

  datatype Answer = Answer(yes: bool, history: History)

  function Eval(t: Test, env: Handlers, h: History): Answer
    decreases t
  {
    match t
    case True => Answer(true, h)
    case False => Answer(false, h)
    case Check(id, _) => Answer(env.answer(id, h), h + [Tested(id)])
    case Not(a, _) => var r := Eval(a, env, h); Answer(!r.yes, r.history)
    case AnyOf(ts, _) => EvalList(ts, env, h, true)
    case AllOf(ts, _) => EvalList(ts, env, h, false)
  }

  /** From left to right until an answer is `solve`. */
  function EvalList(ts: seq<Test>, env: Handlers, h: History, solve: bool): Answer
    decreases ts
  {
    if ts == [] then Answer(!solve, h)
    else
      var r := Eval(ts[0], env, h);
      if r.yes == solve then r else EvalList(ts[1..], env, r.history, solve)
  }

  /** The history after a statement, and whether the script has ended. */
  datatype Effect = Effect(history: History, ended: bool)

  function Exec(s: Stmt, env: Handlers, h: History): Effect
    decreases s
  {
    match s
    case Noop => Effect(h, false)
    case Action(id, _) => Effect(h + [Acted(id)], id == env.stop)
    case End(_) => Effect(h, true)
    case If(c, t, e, _) =>
      var r := Eval(c, env, h);
      if r.yes then ExecAll(t, env, r.history) else ExecAll(e, env, r.history)
  }

  function ExecAll(ss: seq<Stmt>, env: Handlers, h: History): Effect
    decreases ss
  {
    if ss == [] then Effect(h, false)
    else
      var r := Exec(ss[0], env, h);
      if r.ended then r else ExecAll(ss[1..], env, r.history)
  }

  // ----- optimization -----

  predicate IsConst(t: Test) {
    t.True? || t.False?
  }

  function Const(b: bool): Test {
    if b then True else False
  }

  function OptTest(t: Test): Test
    decreases t
  {
    match t
    case True => t
    case False => t
    case Check(_, _) => t
    case Not(a, l) =>
      var a' := OptTest(a);
      if a'.True? then False else if a'.False? then True else Not(a', l)
    case AnyOf(ts, l) => Solve(OptTests(ts), true, t)
    case AllOf(ts, l) => Solve(OptTests(ts), false, t)
  }

  function OptTests(ts: seq<Test>): (r: seq<Test>)
    ensures |r| == |ts|
    decreases ts
  {
    if ts == [] then [] else [OptTest(ts[0])] + OptTests(ts[1..])
  }

  /** `optimize_x_of` with its arguments optimized: the solving constant decides,
      other constants drop out. */
  function Solve(ts: seq<Test>, solve: bool, node: Test): Test
    requires node.AnyOf? || node.AllOf?
  {
    if Const(solve) in ts then Const(solve)
    else if Residue(ts) == [] then Const(!solve)
    else if node.AnyOf? then AnyOf(Residue(ts), node.locus) else AllOf(Residue(ts), node.locus)
  }

  function Residue(ts: seq<Test>): (r: seq<Test>)
    ensures forall t :: t in r ==> t in ts && !IsConst(t)
  {
    if ts == [] then []
    else (if IsConst(ts[0]) then [] else [ts[0]]) + Residue(ts[1..])
  }

  /** `node_replace`: only the first statement of the block takes the node's place, with
      the location of the node. */
  function FirstOf(block: seq<Stmt>, l: Locus): Stmt {
    if block == [] then Noop else Moved(block[0], l)
  }

  function Moved(s: Stmt, l: Locus): Stmt {
    if s.Noop? then s else s.(locus := l)
  }

  function OptStmt(s: Stmt): Stmt
    decreases s
  {
    match s
    case Noop => s
    case Action(_, _) => s
    case End(_) => s
    case If(c, t, e, l) =>
      var c' := OptTest(c);
      if c'.True? then FirstOf(OptStmts(t), l)
      else if c'.False? then FirstOf(OptStmts(e), l)
      else If(c', OptStmts(t), OptStmts(e), l)
  }

  function OptStmts(ss: seq<Stmt>): (r: seq<Stmt>)
    ensures |r| == |ss|
    decreases ss
  {
    if ss == [] then [] else [OptStmt(ss[0])] + OptStmts(ss[1..])
  }

  /** A location has no effect. */
  lemma MovedRuns(s: Stmt, l: Locus, env: Handlers, h: History)
    ensures Exec(Moved(s, l), env, h) == Exec(s, env, h)
  {
  }

  // ----- what optimized trees look like -----

  /** No constants anywhere, and no empty list of alternatives. */
  predicate Residual(t: Test)
    decreases t
  {
    match t
    case True => false
    case False => false
    case Check(_, _) => true
    case Not(a, _) => Residual(a)
    case AnyOf(ts, _) => ts != [] && ResidualAll(ts)
    case AllOf(ts, _) => ts != [] && ResidualAll(ts)
  }

  predicate ResidualAll(ts: seq<Test>)
    decreases ts
  {
    ts != [] ==> Residual(ts[0]) && ResidualAll(ts[1..])
  }

  predicate Ready(s: Stmt)
    decreases s
  {
    s.If? ==> Residual(s.cond) && ReadyAll(s.iftrue) && ReadyAll(s.iffalse)
  }

  predicate ReadyAll(ss: seq<Stmt>)
    decreases ss
  {
    ss != [] ==> Ready(ss[0]) && ReadyAll(ss[1..])
  }

  lemma {:induction false} OptTestShape(t: Test)
    ensures IsConst(OptTest(t)) || Residual(OptTest(t))
    decreases t
  {
    match t
    case True =>
    case False =>
    case Check(_, _) =>
    case Not(a, _) => OptTestShape(a);
    case AnyOf(ts, _) =>
      OptTestsShape(ts);
      ResidueShape(OptTests(ts));
    case AllOf(ts, _) =>
      OptTestsShape(ts);
      ResidueShape(OptTests(ts));
  }

  predicate ConstOrResidual(ts: seq<Test>) {
    forall i :: 0 <= i < |ts| ==> IsConst(ts[i]) || Residual(ts[i])
  }

  lemma {:induction false} OptTestsShape(ts: seq<Test>)
    ensures ConstOrResidual(OptTests(ts))
    decreases ts
  {
    if ts != [] {
      OptTestShape(ts[0]);
      OptTestsShape(ts[1..]);
    }
  }

  lemma {:induction false} ResidueShape(ts: seq<Test>)
    requires ConstOrResidual(ts)
    ensures ResidualAll(Residue(ts))
  {
    if ts != [] {
      assert ConstOrResidual(ts[1..]);
      ResidueShape(ts[1..]);
      EmptyConcat(Residue(ts[1..]));
      if !IsConst(ts[0]) { ConsDrop(ts[0], Residue(ts[1..])); }
    }
  }

  /** Optimized scripts contain no constants: the code generator never meets one. */
  lemma {:induction false} OptStmtReady(s: Stmt)
    ensures Ready(OptStmt(s))
    decreases s
  {
    if s.If? {
      OptTestShape(s.cond);
      OptStmtsReady(s.iftrue);
      OptStmtsReady(s.iffalse);
      FirstReady(OptStmts(s.iftrue), s.locus);
      FirstReady(OptStmts(s.iffalse), s.locus);
    }
  }

  lemma FirstReady(block: seq<Stmt>, l: Locus)
    requires ReadyAll(block)
    ensures Ready(FirstOf(block, l))
  {
  }

  lemma {:induction false} OptStmtsReady(ss: seq<Stmt>)
    ensures ReadyAll(OptStmts(ss))
    decreases ss
  {
    if ss != [] {
      OptStmtReady(ss[0]);
      OptStmtsReady(ss[1..]);
      ConsDrop(OptStmt(ss[0]), OptStmts(ss[1..]));
    }
  }
}
