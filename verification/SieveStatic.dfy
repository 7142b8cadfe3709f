/** Which scripts the optimizer changes, seen from the script alone. */
module SieveStatic {
  import opened Text
  import opened SieveTree
  import opened SieveOptimizer

  // ----- the condition -----

  /** A statement that never acts, whatever its tests answer. */
  predicate Mute(s: Stmt)
    decreases s
  {
    match s
    case Noop => true
    case Action(_, _) => false
    case End(_) => true
    case If(c, t, e, _) =>
      if OptTest(c).True? then MuteAll(t)
      else if OptTest(c).False? then MuteAll(e)
      else MuteAll(t) && MuteAll(e)
  }

  predicate MuteAll(ss: seq<Stmt>)
    decreases ss
  {
    ss != [] ==> Mute(ss[0]) && MuteAll(ss[1..])
  }

  /** Behind the first statement of every block that a constant chooses, nothing ever
      acts. */
  predicate Keeps(s: Stmt)
    decreases s
  {
    s.If? ==>
      if OptTest(s.cond).True? then KeepsFirst(s.iftrue)
      else if OptTest(s.cond).False? then KeepsFirst(s.iffalse)
      else KeepsAll(s.iftrue) && KeepsAll(s.iffalse)
  }

  predicate KeepsFirst(block: seq<Stmt>)
    decreases block, 0
  {
    block != [] ==> Keeps(block[0]) && MuteAll(block[1..])
  }

  predicate KeepsAll(ss: seq<Stmt>)
    decreases ss, 0
  {
    ss != [] ==> Keeps(ss[0]) && KeepsAll(ss[1..])
  }

  // ----- it is enough -----

  lemma {:induction false} MuteNeverActs(s: Stmt, env: Handlers, h: History)
    requires Pure(env) && Mute(s) && NoEnd(s)
    ensures var r := Exec(s, env, h); !r.ended && Acts(r.history) == Acts(h)
    decreases s
  {
    if s.If? {
      FoldedTest(s.cond, env, h);
      TestsDoNotAct(s.cond, env, h);
      var r := Eval(s.cond, env, h);
      MuteAllNeverAct(if r.yes then s.iftrue else s.iffalse, env, r.history);
    }
  }

  lemma {:induction false} MuteAllNeverAct(ss: seq<Stmt>, env: Handlers, h: History)
    requires Pure(env) && MuteAll(ss) && NoEndAll(ss)
    ensures var r := ExecAll(ss, env, h); !r.ended && Acts(r.history) == Acts(h)
    decreases ss
  {
    if ss != [] {
      MuteNeverActs(ss[0], env, h);
      MuteAllNeverAct(ss[1..], env, Exec(ss[0], env, h).history);
    }
  }

  lemma {:induction false} KeepsLosesNothing(s: Stmt, env: Handlers, h: History)
    requires Pure(env) && Keeps(s) && NoEnd(s)
    ensures Lost(s, env, h) == 0
    decreases s, 1
  {
    if s.If? {
      var r := Eval(s.cond, env, h);
      FoldedTest(s.cond, env, h);
      var block := if r.yes then s.iftrue else s.iffalse;
      if !Folds(s) {
        KeepsAllLosesNothing(block, env, r.history);
      } else if block != [] {
        KeepsLosesNothing(block[0], env, r.history);
        var first := Exec(block[0], env, r.history);
        if !first.ended { MuteAllNeverAct(block[1..], env, first.history); }
      }
    }
  }

  lemma {:induction false} KeepsAllLosesNothing(ss: seq<Stmt>, env: Handlers, h: History)
    requires Pure(env) && KeepsAll(ss) && NoEndAll(ss)
    ensures LostAll(ss, env, h) == 0
    decreases ss, 0
  {
    if ss != [] {
      KeepsLosesNothing(ss[0], env, h);
      if !Exec(ss[0], env, h).ended { KeepsAllLosesNothing(ss[1..], env, Exec(ss[0], env, h).history); }
    }
  }

  /** For tests that look only at what the actions did, and with or without `stop`. */
  lemma KeptScriptsAreKept(ss: seq<Stmt>, env: Handlers, h: History)
    requires Pure(env) && NoEndAll(ss) && KeepsAll(ss)
    ensures SameEffect(ExecAll(OptStmts(ss), env, h), ExecAll(ss, env, h))
  {
    KeepsAllLosesNothing(ss, env, h);
    OptimizedAll(ss, env, h, h);
  }

  // ----- steady answers -----

  /** Tests of which exactly those in `yes` succeed. */
  function Env(yes: set<nat>, stop: nat): Handlers {
    Handlers((id, h) => id in yes, stop)
  }

  lemma EnvIsSteady(yes: set<nat>, stop: nat)
    ensures Steady(Env(yes, stop)) && Pure(Env(yes, stop))
  {
  }

  function Val(t: Test, yes: set<nat>): bool
    decreases t
  {
    match t
    case True => true
    case False => false
    case Check(id, _) => id in yes
    case Not(a, _) => !Val(a, yes)
    case AnyOf(ts, _) => ListVal(ts, yes, true)
    case AllOf(ts, _) => ListVal(ts, yes, false)
  }

  function ListVal(ts: seq<Test>, yes: set<nat>, solve: bool): bool
    decreases ts
  {
    if ts == [] then !solve else if Val(ts[0], yes) == solve then solve else ListVal(ts[1..], yes, solve)
  }

  lemma {:induction false} EvalIsVal(t: Test, yes: set<nat>, stop: nat, h: History)
    ensures Eval(t, Env(yes, stop), h).yes == Val(t, yes)
    decreases t
  {
    match t
    case True =>
    case False =>
    case Check(_, _) =>
    case Not(a, _) => EvalIsVal(a, yes, stop, h);
    case AnyOf(ts, _) => EvalListIsVal(ts, yes, stop, h, true);
    case AllOf(ts, _) => EvalListIsVal(ts, yes, stop, h, false);
  }

  lemma {:induction false} EvalListIsVal(ts: seq<Test>, yes: set<nat>, stop: nat, h: History, solve: bool)
    ensures EvalList(ts, Env(yes, stop), h, solve).yes == ListVal(ts, yes, solve)
    decreases ts
  {
    if ts != [] {
      EvalIsVal(ts[0], yes, stop, h);
      EvalListIsVal(ts[1..], yes, stop, Eval(ts[0], Env(yes, stop), h).history, solve);
    }
  }

  /** A test that folds has the value of its constant. */
  lemma FoldedVal(t: Test, yes: set<nat>)
    requires IsConst(OptTest(t))
    ensures Val(t, yes) == OptTest(t).True?
  {
    EnvIsSteady(yes, 0);
    FoldedTest(t, Env(yes, 0), []);
    EvalIsVal(t, yes, 0, []);
  }

  // ----- the tests of a script -----

  function TestIds(t: Test): set<nat>
    decreases t
  {
    match t
    case True => {}
    case False => {}
    case Check(id, _) => {id}
    case Not(a, _) => TestIds(a)
    case AnyOf(ts, _) => ListIds(ts)
    case AllOf(ts, _) => ListIds(ts)
  }

  function ListIds(ts: seq<Test>): set<nat>
    decreases ts
  {
    if ts == [] then {} else TestIds(ts[0]) + ListIds(ts[1..])
  }

  function StmtIds(s: Stmt): set<nat>
    decreases s
  {
    if s.If? then TestIds(s.cond) + BlockIds(s.iftrue) + BlockIds(s.iffalse) else {}
  }

  function BlockIds(ss: seq<Stmt>): set<nat>
    decreases ss
  {
    if ss == [] then {} else StmtIds(ss[0]) + BlockIds(ss[1..])
  }

  /** No test occurs twice in a condition. */
  predicate Once(t: Test)
    decreases t
  {
    match t
    case True => true
    case False => true
    case Check(_, _) => true
    case Not(a, _) => Once(a)
    case AnyOf(ts, _) => OnceList(ts)
    case AllOf(ts, _) => OnceList(ts)
  }

  predicate OnceList(ts: seq<Test>)
    decreases ts
  {
    ts != [] ==> Once(ts[0]) && OnceList(ts[1..]) && TestIds(ts[0]) !! ListIds(ts[1..])
  }

  /** And none is asked again inside a block that depends on it; side by side tests may
      be repeated. */
  predicate OnceStmt(s: Stmt)
    decreases s
  {
    s.If? ==>
      && Once(s.cond) && OnceAll(s.iftrue) && OnceAll(s.iffalse)
      && TestIds(s.cond) !! BlockIds(s.iftrue) && TestIds(s.cond) !! BlockIds(s.iffalse)
  }

  predicate OnceAll(ss: seq<Stmt>)
    decreases ss
  {
    ss != [] ==> OnceStmt(ss[0]) && OnceAll(ss[1..])
  }

  /** Two sets of answers agree on some tests. */
  predicate Agree(a: set<nat>, b: set<nat>, ids: set<nat>) {
    forall id :: id in ids ==> (id in a <==> id in b)
  }

  lemma {:induction false} ValDepends(t: Test, a: set<nat>, b: set<nat>)
    requires Agree(a, b, TestIds(t))
    ensures Val(t, a) == Val(t, b)
    decreases t
  {
    match t
    case True =>
    case False =>
    case Check(_, _) =>
    case Not(x, _) => ValDepends(x, a, b);
    case AnyOf(ts, _) => ListDepends(ts, a, b, true);
    case AllOf(ts, _) => ListDepends(ts, a, b, false);
  }

  lemma {:induction false} ListDepends(ts: seq<Test>, a: set<nat>, b: set<nat>, solve: bool)
    requires Agree(a, b, ListIds(ts))
    ensures ListVal(ts, a, solve) == ListVal(ts, b, solve)
    decreases ts
  {
    if ts != [] {
      ValDepends(ts[0], a, b);
      ListDepends(ts[1..], a, b, solve);
    }
  }

  /** Answers for some tests put in the place of others. */
  function Override(a: set<nat>, b: set<nat>, ids: set<nat>): (r: set<nat>)
    ensures Agree(r, b, ids)
    ensures forall other :: other !! ids ==> Agree(r, a, other)
  {
    (a - ids) + (b * ids)
  }

  /** A condition that does not fold can be made to come out either way. */
  lemma {:induction false} Settable(t: Test, value: bool) returns (yes: set<nat>)
    requires Once(t) && !IsConst(OptTest(t))
    ensures Val(t, yes) == value
    decreases t, 0
  {
    match t
    case Check(id, _) => yes := if value then {id} else {};
    case Not(a, _) => yes := Settable(a, !value);
    case AnyOf(ts, _) =>
      if value { yes := SettableOne(ts, true); } else { yes := SettableAll(ts, true); }
    case AllOf(ts, _) =>
      if value { yes := SettableAll(ts, false); } else { yes := SettableOne(ts, false); }
  }

  /** Some test of a list gives the answer that solves it. */
  lemma {:induction false} SettableOne(ts: seq<Test>, solve: bool) returns (yes: set<nat>)
    requires OnceList(ts) && Residue(OptTests(ts)) != []
    ensures ListVal(ts, yes, solve) == solve
    decreases ts, 1
  {
    ConsDrop(OptTest(ts[0]), OptTests(ts[1..]));
    if IsConst(OptTest(ts[0])) {
      EmptyConcat(Residue(OptTests(ts[1..])));
      yes := SettableOne(ts[1..], solve);
    } else {
      yes := Settable(ts[0], solve);
    }
  }

  /** None of them does. */
  lemma {:induction false} SettableAll(ts: seq<Test>, solve: bool) returns (yes: set<nat>)
    requires OnceList(ts) && Const(solve) !in OptTests(ts)
    ensures ListVal(ts, yes, solve) == !solve
    decreases ts, 1
  {
    if ts == [] {
      yes := {};
    } else {
      ConsDrop(OptTest(ts[0]), OptTests(ts[1..]));
      assert forall x :: x in OptTests(ts[1..]) ==> x in OptTests(ts);
      var rest := SettableAll(ts[1..], solve);
      if IsConst(OptTest(ts[0])) {
        assert OptTest(ts[0]) in OptTests(ts);
        FoldedVal(ts[0], rest);
        yes := rest;
      } else {
        var first := Settable(ts[0], !solve);
        yes := Override(rest, first, TestIds(ts[0]));
        ValDepends(ts[0], yes, first);
        ListDepends(ts[1..], yes, rest, solve);
      }
    }
  }

  // ----- counting actions -----

  /** How many actions a statement performs, and how many of them are thrown away. */
  function Count(s: Stmt, yes: set<nat>): nat
    decreases s
  {
    match s
    case Noop => 0
    case Action(_, _) => 1
    case End(_) => 0
    case If(c, t, e, _) => if Val(c, yes) then CountAll(t, yes) else CountAll(e, yes)
  }

  function CountAll(ss: seq<Stmt>, yes: set<nat>): nat
    decreases ss
  {
    if ss == [] then 0 else Count(ss[0], yes) + CountAll(ss[1..], yes)
  }

  function Thrown(s: Stmt, yes: set<nat>): nat
    decreases s
  {
    if !s.If? then 0
    else if Folds(s) then
      if Val(s.cond, yes) then ThrownFirst(s.iftrue, yes) else ThrownFirst(s.iffalse, yes)
    else if Val(s.cond, yes) then ThrownAll(s.iftrue, yes) else ThrownAll(s.iffalse, yes)
  }

  function ThrownFirst(block: seq<Stmt>, yes: set<nat>): nat
    decreases block, 0
  {
    if block == [] then 0 else Thrown(block[0], yes) + CountAll(block[1..], yes)
  }

  function ThrownAll(ss: seq<Stmt>, yes: set<nat>): nat
    decreases ss, 0
  {
    if ss == [] then 0 else Thrown(ss[0], yes) + ThrownAll(ss[1..], yes)
  }

  lemma {:induction false} GainIsCount(s: Stmt, yes: set<nat>, stop: nat, h: History)
    requires NoStop(s, stop)
    ensures var r := Exec(s, Env(yes, stop), h); !r.ended && Gain(r, h) == Count(s, yes)
    decreases s
  {
    if s.Action? {
      ActsSnoc(h, Acted(s.id));
    } else if s.If? {
      var r := Eval(s.cond, Env(yes, stop), h);
      EvalIsVal(s.cond, yes, stop, h);
      TestsDoNotAct(s.cond, Env(yes, stop), h);
      GainsAreCounted(if r.yes then s.iftrue else s.iffalse, yes, stop, r.history);
    }
  }

  lemma {:induction false} GainsAreCounted(ss: seq<Stmt>, yes: set<nat>, stop: nat, h: History)
    requires NoStopAll(ss, stop)
    ensures var r := ExecAll(ss, Env(yes, stop), h); !r.ended && Gain(r, h) == CountAll(ss, yes)
    decreases ss
  {
    if ss != [] {
      GainIsCount(ss[0], yes, stop, h);
      GainsAreCounted(ss[1..], yes, stop, Exec(ss[0], Env(yes, stop), h).history);
    }
  }

  lemma {:induction false} LostIsThrown(s: Stmt, yes: set<nat>, stop: nat, h: History)
    requires NoStop(s, stop)
    ensures Lost(s, Env(yes, stop), h) == Thrown(s, yes)
    decreases s, 1
  {
    if s.If? {
      var env := Env(yes, stop);
      var r := Eval(s.cond, env, h);
      EvalIsVal(s.cond, yes, stop, h);
      var block := if r.yes then s.iftrue else s.iffalse;
      if !Folds(s) {
        LossesAreThrown(block, yes, stop, r.history);
      } else if block != [] {
        LostIsThrown(block[0], yes, stop, r.history);
        GainIsCount(block[0], yes, stop, r.history);
        GainsAreCounted(block[1..], yes, stop, Exec(block[0], env, r.history).history);
      }
    }
  }

  lemma {:induction false} LossesAreThrown(ss: seq<Stmt>, yes: set<nat>, stop: nat, h: History)
    requires NoStopAll(ss, stop)
    ensures LostAll(ss, Env(yes, stop), h) == ThrownAll(ss, yes)
    decreases ss, 0
  {
    if ss != [] {
      LostIsThrown(ss[0], yes, stop, h);
      GainIsCount(ss[0], yes, stop, h);
      LossesAreThrown(ss[1..], yes, stop, Exec(ss[0], Env(yes, stop), h).history);
    }
  }

  lemma {:induction false} CountDepends(s: Stmt, a: set<nat>, b: set<nat>)
    requires Agree(a, b, StmtIds(s))
    ensures Count(s, a) == Count(s, b) && Thrown(s, a) == Thrown(s, b)
    decreases s, 1
  {
    if s.If? {
      ValDepends(s.cond, a, b);
      CountsDepend(s.iftrue, a, b);
      CountsDepend(s.iffalse, a, b);
    }
  }

  lemma {:induction false} CountsDepend(ss: seq<Stmt>, a: set<nat>, b: set<nat>)
    requires Agree(a, b, BlockIds(ss))
    ensures CountAll(ss, a) == CountAll(ss, b) && ThrownAll(ss, a) == ThrownAll(ss, b)
    ensures ThrownFirst(ss, a) == ThrownFirst(ss, b)
    decreases ss, 0
  {
    if ss != [] {
      CountDepends(ss[0], a, b);
      CountsDepend(ss[1..], a, b);
    }
  }

  // ----- it is needed -----

  /** Answers under which a statement that is not mute acts. */
  lemma {:induction false} CanAct(s: Stmt) returns (yes: set<nat>)
    requires OnceStmt(s) && !Mute(s)
    ensures Count(s, yes) > 0
    decreases s
  {
    if s.If? {
      var c := OptTest(s.cond);
      if IsConst(c) {
        yes := CanActAll(if c.True? then s.iftrue else s.iffalse);
        FoldedVal(s.cond, yes);
      } else {
        var side := !MuteAll(s.iftrue);
        var block := if side then s.iftrue else s.iffalse;
        var inner := CanActAll(block);
        yes := Steer(s.cond, side, inner, block);
      }
    } else {
      yes := {};
    }
  }

  lemma {:induction false} CanActAll(ss: seq<Stmt>) returns (yes: set<nat>)
    requires OnceAll(ss) && !MuteAll(ss)
    ensures CountAll(ss, yes) > 0
    decreases ss
  {
    if !Mute(ss[0]) { yes := CanAct(ss[0]); } else { yes := CanActAll(ss[1..]); }
  }

  /** Answers that lead into a block without changing what happens in it. */
  lemma Steer(t: Test, side: bool, inner: set<nat>, block: seq<Stmt>) returns (yes: set<nat>)
    requires Once(t) && !IsConst(OptTest(t)) && TestIds(t) !! BlockIds(block)
    ensures Val(t, yes) == side
    ensures CountAll(block, yes) == CountAll(block, inner) && ThrownAll(block, yes) == ThrownAll(block, inner)
  {
    var way := Settable(t, side);
    yes := Override(inner, way, TestIds(t));
    ValDepends(t, yes, way);
    CountsDepend(block, yes, inner);
  }

  /** Answers under which a statement that is not kept loses an action. */
  lemma {:induction false} CanLose(s: Stmt) returns (yes: set<nat>)
    requires OnceStmt(s) && !Keeps(s)
    ensures Thrown(s, yes) > 0
    decreases s, 1
  {
    var c := OptTest(s.cond);
    if IsConst(c) {
      var block := if c.True? then s.iftrue else s.iffalse;
      if !Keeps(block[0]) { yes := CanLose(block[0]); } else { yes := CanActAll(block[1..]); }
      FoldedVal(s.cond, yes);
    } else {
      var side := !KeepsAll(s.iftrue);
      var block := if side then s.iftrue else s.iffalse;
      var inner := CanLoseIn(block);
      yes := Steer(s.cond, side, inner, block);
    }
  }

  lemma {:induction false} CanLoseIn(ss: seq<Stmt>) returns (yes: set<nat>)
    requires OnceAll(ss) && !KeepsAll(ss)
    ensures ThrownAll(ss, yes) > 0
    decreases ss, 0
  {
    if !Keeps(ss[0]) { yes := CanLose(ss[0]); } else { yes := CanLoseIn(ss[1..]); }
  }

  lemma {:induction false} NoStopEndsNot(ss: seq<Stmt>, stop: nat)
    requires NoStopAll(ss, stop)
    ensures NoEndAll(ss)
  {
    NoStopNoEndAll(ss, stop);
  }

  /** For every script without `stop` in which no test is asked again where its answer is
      known: the optimizer leaves it the same actions under all answers if and only if
      nothing behind the first statement of a block chosen by a constant can ever act. */
  lemma StaticallyExact(ss: seq<Stmt>, stop: nat)
    requires NoStopAll(ss, stop) && OnceAll(ss)
    ensures KeepsAll(ss) <==>
      forall yes :: SameEffect(ExecAll(OptStmts(ss), Env(yes, stop), []), ExecAll(ss, Env(yes, stop), []))
  {
    hide ExecAll, SameEffect, KeepsAll, OnceAll, NoStopAll, Env;
    if KeepsAll(ss) {
      forall yes ensures SameEffect(ExecAll(OptStmts(ss), Env(yes, stop), []), ExecAll(ss, Env(yes, stop), [])) {
        EnvIsSteady(yes, stop);
        NoStopEndsNot(ss, stop);
        KeptScriptsAreKept(ss, Env(yes, stop), []);
      }
    } else {
      var yes := CanLoseIn(ss);
      EnvIsSteady(yes, stop);
      LossesAreThrown(ss, yes, stop, []);
      StopIs(yes, stop);
      OptimizationIsExact(ss, Env(yes, stop), []);
    }
  }

  lemma StopIs(yes: set<nat>, stop: nat)
    ensures Env(yes, stop).stop == stop
  {
  }

  // ----- why not with `stop` -----

  /** With `stop` two losses can make up for each other: here an action and a `stop` are
      thrown away, and the same two follow. */
  lemma LossesCancel(a: nat, b: nat, l: Locus, env: Handlers)
    requires a != env.stop && b != env.stop
    ensures var ss := [If(True, [Action(a, l), Action(b, l), Action(env.stop, l)], [], l), Action(b, l), Action(env.stop, l)];
      && LostAll(ss, env, []) > 0
      && SameEffect(ExecAll(OptStmts(ss), env, []), ExecAll(ss, env, []))
  {
    var x, y, z := Action(a, l), Action(b, l), Action(env.stop, l);
    var block := [x, y, z];
    var s := If(True, block, [], l);
    var ss := [s, y, z];
    ThreeActions(a, b, l, env);
    assert ss[1..] == [y, z];
    assert OptStmts(block)[0] == x;
    assert OptStmt(s) == x;
    OptOfPlain(y, z);
    assert OptStmts(ss) == [x] + OptStmts(ss[1..]) == [x, y, z];
    assert Exec(s, env, []) == ExecAll(block, env, []);
    assert block[1..] == [y, z];
    ActsSnoc([], Acted(a));
    assert [] + [Acted(a)] == [Acted(a)];
  }

  lemma OptOfPlain(y: Stmt, z: Stmt)
    requires y.Action? && z.Action?
    ensures OptStmts([y, z]) == [y, z]
  {
    assert [y, z][1..] == [z] && [z][1..] == [];
    assert OptStmts([z]) == [z];
  }

  lemma ThreeActions(a: nat, b: nat, l: Locus, env: Handlers)
    requires a != env.stop && b != env.stop
    ensures var x, y, z := Action(a, l), Action(b, l), Action(env.stop, l);
      && Exec(x, env, []) == Effect([Acted(a)], false)
      && ExecAll([y, z], env, [Acted(a)]) == Effect([Acted(a), Acted(b), Acted(env.stop)], true)
      && ExecAll([x, y, z], env, []) == Effect([Acted(a), Acted(b), Acted(env.stop)], true)
    ensures |Acts([Acted(a), Acted(b), Acted(env.stop)])| == 3 && |Acts([Acted(a)])| == 1
  {
    var x, y, z := Action(a, l), Action(b, l), Action(env.stop, l);
    var h1, h2, h3 := [Acted(a)], [Acted(a), Acted(b)], [Acted(a), Acted(b), Acted(env.stop)];
    assert [] + [Acted(a)] == h1 && h1 + [Acted(b)] == h2 && h2 + [Acted(env.stop)] == h3;
    assert [x, y, z][1..] == [y, z] && [y, z][1..] == [z] && [z][1..] == [];
    assert ExecAll([z], env, h2) == Effect(h3, true);
    ActsSnoc([], Acted(a));
    ActsSnoc(h1, Acted(b));
    ActsSnoc(h2, Acted(env.stop));
  }
}
