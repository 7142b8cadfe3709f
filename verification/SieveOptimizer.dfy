/** Does constant folding keep the meaning of a script?  Of its tests, always.  Of
    its statements, as long as a run performs no action in a part of a block that is
    thrown away. */
module SieveOptimizer {
  import opened Text
  import opened SieveTree

  /** The actions of a history. */
  function Acts(h: History): seq<nat> {
    if h == [] then []
    else Acts(h[..|h| - 1]) + (match h[|h| - 1] case Acted(id) => [id] case Tested(_) => [])
  }

  lemma ActsSnoc(h: History, e: Event)
    ensures Acts(h + [e]) == Acts(h) + (match e case Acted(id) => [id] case Tested(_) => [])
  {
    assert (h + [e])[..|h|] == h;
  }

  /** Tests look only at what the actions did. */
  ghost predicate Pure(env: Handlers) {
    forall id, h, h' :: Acts(h) == Acts(h') ==> env.answer(id, h) == env.answer(id, h')
  }

  // ----- tests -----

  lemma {:induction false} TestsDoNotAct(t: Test, env: Handlers, h: History)
    ensures Acts(Eval(t, env, h).history) == Acts(h)
    decreases t
  {
    match t
    case True =>
    case False =>
    case Check(id, _) =>
      ActsSnoc(h, Tested(id));
      EmptyConcat(Acts(h));
    case Not(a, _) => TestsDoNotAct(a, env, h);
    case AnyOf(ts, _) => ListsDoNotAct(ts, env, h, true);
    case AllOf(ts, _) => ListsDoNotAct(ts, env, h, false);
  }

  lemma {:induction false} ListsDoNotAct(ts: seq<Test>, env: Handlers, h: History, solve: bool)
    ensures Acts(EvalList(ts, env, h, solve).history) == Acts(h)
    decreases ts
  {
    if ts != [] {
      TestsDoNotAct(ts[0], env, h);
      ListsDoNotAct(ts[1..], env, Eval(ts[0], env, h).history, solve);
    }
  }

  /** With pure tests the order of evaluation does not matter, nor does what was
      tested before. */
  lemma {:induction false} SameAnswer(t: Test, env: Handlers, h: History, h': History)
    requires Pure(env) && Acts(h) == Acts(h')
    ensures Eval(t, env, h).yes == Eval(t, env, h').yes
    decreases t
  {
    match t
    case True =>
    case False =>
    case Check(id, _) => assert env.answer(id, h) == env.answer(id, h');
    case Not(a, _) => SameAnswer(a, env, h, h');
    case AnyOf(ts, _) => SameListAnswer(ts, env, h, h', true);
    case AllOf(ts, _) => SameListAnswer(ts, env, h, h', false);
  }

  lemma {:induction false} SameListAnswer(ts: seq<Test>, env: Handlers, h: History, h': History, solve: bool)
    requires Pure(env) && Acts(h) == Acts(h')
    ensures EvalList(ts, env, h, solve).yes == EvalList(ts, env, h', solve).yes
    decreases ts
  {
    if ts != [] {
      SameAnswer(ts[0], env, h, h');
      TestsDoNotAct(ts[0], env, h);
      TestsDoNotAct(ts[0], env, h');
      SameListAnswer(ts[1..], env, Eval(ts[0], env, h).history, Eval(ts[0], env, h').history, solve);
    }
  }

  /** Folding keeps the answer of every test. */
  lemma {:induction false} FoldedTest(t: Test, env: Handlers, h: History)
    requires Pure(env)
    ensures Eval(OptTest(t), env, h).yes == Eval(t, env, h).yes
    decreases t
  {
    match t
    case True =>
    case False =>
    case Check(_, _) =>
    case Not(a, _) => FoldedTest(a, env, h);
    case AnyOf(ts, _) =>
      FoldedList(ts, env, h, true);
      SolvedList(OptTests(ts), env, h, true, t);
    case AllOf(ts, _) =>
      FoldedList(ts, env, h, false);
      SolvedList(OptTests(ts), env, h, false, t);
  }

  lemma {:induction false} FoldedList(ts: seq<Test>, env: Handlers, h: History, solve: bool)
    requires Pure(env)
    ensures EvalList(OptTests(ts), env, h, solve).yes == EvalList(ts, env, h, solve).yes
    decreases ts
  {
    if ts != [] {
      var t, o := ts[0], OptTest(ts[0]);
      FoldedTest(t, env, h);
      TestsDoNotAct(t, env, h);
      TestsDoNotAct(o, env, h);
      ConsDrop(o, OptTests(ts[1..]));
      var h1, h2 := Eval(t, env, h).history, Eval(o, env, h).history;
      FoldedList(ts[1..], env, h1, solve);
      SameListAnswer(OptTests(ts[1..]), env, h1, h2, solve);
    }
  }

  lemma SolvedList(ts: seq<Test>, env: Handlers, h: History, solve: bool, node: Test)
    requires Pure(env) && (if solve then node.AnyOf? else node.AllOf?)
    ensures Eval(Solve(ts, solve, node), env, h).yes == EvalList(ts, env, h, solve).yes
  {
    if Const(solve) in ts {
      ConstantSolves(ts, env, h, solve);
    } else {
      ConstantsDropOut(ts, env, h, solve);
    }
  }

  lemma {:induction false} ConstantSolves(ts: seq<Test>, env: Handlers, h: History, solve: bool)
    requires Const(solve) in ts
    ensures EvalList(ts, env, h, solve).yes == solve
    decreases ts
  {
    if ts[0] != Const(solve) && Eval(ts[0], env, h).yes != solve {
      ConstantSolves(ts[1..], env, Eval(ts[0], env, h).history, solve);
    }
  }

  lemma {:induction false} ConstantsDropOut(ts: seq<Test>, env: Handlers, h: History, solve: bool)
    requires Const(solve) !in ts
    ensures EvalList(Residue(ts), env, h, solve) == EvalList(ts, env, h, solve)
    decreases ts
  {
    if ts != [] {
      ConstantsDropOut(ts[1..], env, Eval(ts[0], env, h).history, solve);
      if IsConst(ts[0]) {
        EmptyConcat(Residue(ts[1..]));
      } else {
        ConsDrop(ts[0], Residue(ts[1..]));
      }
    }
  }

  // ----- statements -----

  predicate Folds(s: Stmt) {
    s.If? && IsConst(OptTest(s.cond))
  }

  /** Scripts end only at their end: blocks contain no end node. */
  predicate NoEnd(s: Stmt)
    decreases s
  {
    !s.End? && (s.If? ==> NoEndAll(s.iftrue) && NoEndAll(s.iffalse))
  }

  predicate NoEndAll(ss: seq<Stmt>)
    decreases ss
  {
    ss != [] ==> NoEnd(ss[0]) && NoEndAll(ss[1..])
  }

  /** How many actions a run performs in parts of the script that `node_replace`
      throws away. */
  function Lost(s: Stmt, env: Handlers, h: History): nat
    decreases s
  {
    if !s.If? then 0
    else
      var r := Eval(s.cond, env, h);
      if !Folds(s) then LostAll(if r.yes then s.iftrue else s.iffalse, env, r.history)
      else
        var block := if r.yes then s.iftrue else s.iffalse;
        if block == [] then 0
        else
          var first := Exec(block[0], env, r.history);
          Lost(block[0], env, r.history)
          + (if first.ended then 0
             else
               var n, m := |Acts(ExecAll(block[1..], env, first.history).history)|, |Acts(first.history)|;
               if n >= m then n - m else 0)
  }

  function LostAll(ss: seq<Stmt>, env: Handlers, h: History): nat
    decreases ss
  {
    if ss == [] then 0
    else
      var r := Exec(ss[0], env, h);
      Lost(ss[0], env, h) + (if r.ended then 0 else LostAll(ss[1..], env, r.history))
  }

  /** Actions are only ever added. */
  lemma {:induction false} ActsGrow(s: Stmt, env: Handlers, h: History)
    ensures Acts(h) <= Acts(Exec(s, env, h).history)
    ensures NoEnd(s) && Exec(s, env, h).ended ==> Acts(h) < Acts(Exec(s, env, h).history)
    decreases s
  {
    if s.Action? {
      ActsSnoc(h, Acted(s.id));
    } else if s.If? {
      var r := Eval(s.cond, env, h);
      TestsDoNotAct(s.cond, env, h);
      ActsGrowAll(if r.yes then s.iftrue else s.iffalse, env, r.history);
    }
  }

  lemma {:induction false} ActsGrowAll(ss: seq<Stmt>, env: Handlers, h: History)
    ensures Acts(h) <= Acts(ExecAll(ss, env, h).history)
    ensures NoEndAll(ss) && ExecAll(ss, env, h).ended ==> Acts(h) < Acts(ExecAll(ss, env, h).history)
    decreases ss
  {
    if ss != [] {
      var r := Exec(ss[0], env, h);
      ActsGrow(ss[0], env, h);
      if !r.ended { ActsGrowAll(ss[1..], env, r.history); }
    }
  }

  predicate SameEffect(a: Effect, b: Effect) {
    Acts(a.history) == Acts(b.history) && a.ended == b.ended
  }

  /** If a run loses nothing, the optimized script performs the same actions and
      ends in the same way. */
  lemma {:induction false} OptimizedStmt(s: Stmt, env: Handlers, h: History, h': History)
    requires Pure(env) && NoEnd(s) && Acts(h) == Acts(h') && Lost(s, env, h) == 0
    ensures SameEffect(Exec(OptStmt(s), env, h'), Exec(s, env, h))
    decreases s
  {
    match s
    case Noop =>
    case Action(id, _) =>
      ActsSnoc(h, Acted(id));
      ActsSnoc(h', Acted(id));
    case End(_) =>
    case If(c, t, e, _) =>
      FoldedTest(c, env, h);
      SameAnswer(OptTest(c), env, h, h');
      TestsDoNotAct(c, env, h);
      TestsDoNotAct(OptTest(c), env, h');
      var r := Eval(c, env, h);
      if Folds(s) {
        OptimizedChoice(if r.yes then t else e, s.locus, env, r.history, h');
      } else {
        OptimizedAll(if r.yes then t else e, env, r.history, Eval(OptTest(c), env, h').history);
      }
  }

  /** A block of which only the first statement is kept. */
  lemma {:induction false} OptimizedChoice(block: seq<Stmt>, l: Locus, env: Handlers, h: History, h': History)
    requires Pure(env) && NoEndAll(block) && Acts(h) == Acts(h')
    requires block != [] ==> Lost(block[0], env, h) == 0
    requires block != [] && !Exec(block[0], env, h).ended ==>
      |Acts(ExecAll(block[1..], env, Exec(block[0], env, h).history).history)| <= |Acts(Exec(block[0], env, h).history)|
    ensures SameEffect(Exec(FirstOf(OptStmts(block), l), env, h'), ExecAll(block, env, h))
    decreases block, 1
  {
    if block != [] {
      OptimizedStmt(block[0], env, h, h');
      MovedRuns(OptStmt(block[0]), l, env, h');
      var r := Exec(block[0], env, h);
      if !r.ended { ActsGrowAll(block[1..], env, r.history); }
    }
  }

  lemma {:induction false} OptimizedAll(ss: seq<Stmt>, env: Handlers, h: History, h': History)
    requires Pure(env) && NoEndAll(ss) && Acts(h) == Acts(h') && LostAll(ss, env, h) == 0
    ensures SameEffect(ExecAll(OptStmts(ss), env, h'), ExecAll(ss, env, h))
    decreases ss
  {
    if ss != [] {
      ConsDrop(OptStmt(ss[0]), OptStmts(ss[1..]));
      OptimizedStmt(ss[0], env, h, h');
      var r, r' := Exec(ss[0], env, h), Exec(OptStmt(ss[0]), env, h');
      if !r.ended { OptimizedAll(ss[1..], env, r.history, r'.history); }
    }
  }

  // ----- scripts without `stop` -----

  /** Tests whose answers do not change while the script runs. */
  ghost predicate Steady(env: Handlers) {
    forall id, h, h' :: env.answer(id, h) == env.answer(id, h')
  }

  predicate NoStop(s: Stmt, stop: nat)
    decreases s
  {
    && !s.End? && (s.Action? ==> s.id != stop)
    && (s.If? ==> NoStopAll(s.iftrue, stop) && NoStopAll(s.iffalse, stop))
  }

  predicate NoStopAll(ss: seq<Stmt>, stop: nat)
    decreases ss
  {
    ss != [] ==> NoStop(ss[0], stop) && NoStopAll(ss[1..], stop)
  }

  lemma SteadyIsPure(env: Handlers)
    requires Steady(env)
    ensures Pure(env)
  {
  }

  lemma {:induction false} SteadyAnswer(t: Test, env: Handlers, h: History, h': History)
    requires Steady(env)
    ensures Eval(t, env, h).yes == Eval(t, env, h').yes
    decreases t
  {
    match t
    case True =>
    case False =>
    case Check(id, _) => assert env.answer(id, h) == env.answer(id, h');
    case Not(a, _) => SteadyAnswer(a, env, h, h');
    case AnyOf(ts, _) => SteadyList(ts, env, h, h', true);
    case AllOf(ts, _) => SteadyList(ts, env, h, h', false);
  }

  lemma {:induction false} SteadyList(ts: seq<Test>, env: Handlers, h: History, h': History, solve: bool)
    requires Steady(env)
    ensures EvalList(ts, env, h, solve).yes == EvalList(ts, env, h', solve).yes
    decreases ts
  {
    if ts != [] {
      SteadyAnswer(ts[0], env, h, h');
      SteadyList(ts[1..], env, Eval(ts[0], env, h).history, Eval(ts[0], env, h').history, solve);
    }
  }

  /** How many actions a statement adds. */
  function Gain(r: Effect, h: History): int {
    |Acts(r.history)| - |Acts(h)|
  }

  /** What the optimized statement does and what is lost make up what the statement
      does. */
  lemma {:induction false} LostStmt(s: Stmt, env: Handlers, h: History, h': History)
    requires Steady(env) && NoStop(s, env.stop)
    ensures !Exec(s, env, h).ended && !Exec(OptStmt(s), env, h').ended
    ensures Gain(Exec(s, env, h), h) == Gain(Exec(OptStmt(s), env, h'), h') + Lost(s, env, h)
    decreases s
  {
    match s
    case Noop =>
    case Action(id, _) =>
      ActsSnoc(h, Acted(id));
      ActsSnoc(h', Acted(id));
    case If(c, t, e, _) =>
      SteadyIsPure(env);
      FoldedTest(c, env, h);
      SteadyAnswer(OptTest(c), env, h, h');
      TestsDoNotAct(c, env, h);
      TestsDoNotAct(OptTest(c), env, h');
      var r := Eval(c, env, h);
      var block := if r.yes then t else e;
      if Folds(s) {
        LostChoice(block, s.locus, env, r.history, h');
      } else {
        LostBlock(block, env, r.history, Eval(OptTest(c), env, h').history);
      }
  }

  lemma {:induction false} LostChoice(block: seq<Stmt>, l: Locus, env: Handlers, h: History, h': History)
    requires Steady(env) && NoStopAll(block, env.stop)
    ensures !ExecAll(block, env, h).ended && !Exec(FirstOf(OptStmts(block), l), env, h').ended
    ensures block == [] ==> Gain(ExecAll(block, env, h), h) == 0 == Gain(Exec(FirstOf(OptStmts(block), l), env, h'), h')
    ensures block != [] ==>
      var first := Exec(block[0], env, h);
      && Gain(ExecAll(block[1..], env, first.history), first.history) >= 0
      && Gain(ExecAll(block, env, h), h)
         == Gain(Exec(FirstOf(OptStmts(block), l), env, h'), h') + Lost(block[0], env, h)
            + Gain(ExecAll(block[1..], env, first.history), first.history)
    decreases block, 1
  {
    if block != [] {
      LostStmt(block[0], env, h, h');
      MovedRuns(OptStmt(block[0]), l, env, h');
      var first := Exec(block[0], env, h);
      NeverEnds(block[1..], env, first.history);
      ActsGrowAll(block[1..], env, first.history);
    }
  }

  lemma {:induction false} NeverEnds(ss: seq<Stmt>, env: Handlers, h: History)
    requires Steady(env) && NoStopAll(ss, env.stop)
    ensures !ExecAll(ss, env, h).ended
    decreases ss
  {
    if ss != [] {
      LostStmt(ss[0], env, h, h);
      NeverEnds(ss[1..], env, Exec(ss[0], env, h).history);
    }
  }

  lemma {:induction false} LostBlock(ss: seq<Stmt>, env: Handlers, h: History, h': History)
    requires Steady(env) && NoStopAll(ss, env.stop)
    ensures !ExecAll(ss, env, h).ended && !ExecAll(OptStmts(ss), env, h').ended
    ensures Gain(ExecAll(ss, env, h), h) == Gain(ExecAll(OptStmts(ss), env, h'), h') + LostAll(ss, env, h)
    decreases ss
  {
    if ss != [] {
      ConsDrop(OptStmt(ss[0]), OptStmts(ss[1..]));
      LostStmt(ss[0], env, h, h');
      LostBlock(ss[1..], env, Exec(ss[0], env, h).history, Exec(OptStmt(ss[0]), env, h').history);
    }
  }

  lemma {:induction false} NoStopNoEnd(s: Stmt, stop: nat)
    requires NoStop(s, stop)
    ensures NoEnd(s)
    decreases s
  {
    if s.If? {
      NoStopNoEndAll(s.iftrue, stop);
      NoStopNoEndAll(s.iffalse, stop);
    }
  }

  lemma {:induction false} NoStopNoEndAll(ss: seq<Stmt>, stop: nat)
    requires NoStopAll(ss, stop)
    ensures NoEndAll(ss)
    decreases ss
  {
    if ss != [] {
      NoStopNoEnd(ss[0], stop);
      NoStopNoEndAll(ss[1..], stop);
    }
  }

  /** For steady tests and scripts without `stop`: optimization keeps what the
      script does if and only if the run performs no action in a part that is thrown
      away. */
  lemma OptimizationIsExact(ss: seq<Stmt>, env: Handlers, h: History)
    requires Steady(env) && NoStopAll(ss, env.stop)
    ensures SameEffect(ExecAll(OptStmts(ss), env, h), ExecAll(ss, env, h)) <==> LostAll(ss, env, h) == 0
  {
    SteadyIsPure(env);
    NoStopNoEndAll(ss, env.stop);
    LostBlock(ss, env, h, h);
    if LostAll(ss, env, h) == 0 { OptimizedAll(ss, env, h, h); }
  }

  /** The smallest script that is changed: `if true { a; b; }` performs only `a`. */
  lemma SecondStatementIsLost(a: nat, b: nat, l: Locus, env: Handlers)
    requires env.stop != a && env.stop != b
    ensures var ss := [If(True, [Action(a, l), Action(b, l)], [], l)];
      && Acts(ExecAll(ss, env, []).history) == [a, b]
      && Acts(ExecAll(OptStmts(ss), env, []).history) == [a]
  {
    var x, y := Action(a, l), Action(b, l);
    var block := [x, y];
    var s := If(True, block, [], l);
    assert block[1..] == [y] && [y][1..] == [] && [s][1..] == [];
    ActsSnoc([], Acted(a));
    ActsSnoc([Acted(a)], Acted(b));
    assert [] + [Acted(a)] == [Acted(a)] && [Acted(a)] + [Acted(b)] == [Acted(a), Acted(b)];
    assert Exec(x, env, []) == Effect([Acted(a)], false);
    assert ExecAll([y], env, [Acted(a)]) == Effect([Acted(a), Acted(b)], false);
    assert ExecAll(block, env, []) == Effect([Acted(a), Acted(b)], false);
    assert ExecAll([s], env, []) == Effect([Acted(a), Acted(b)], false);
    assert OptStmts(block)[0] == x;
    assert OptStmts([s]) == [x] && [x][1..] == [];
    assert ExecAll([x], env, []) == Effect([Acted(a)], false);
  }
}
