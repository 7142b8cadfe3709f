/** The code generated for a script, the machine that runs it, and the proof that
    running the code is running the script. */
module SieveCode {
  import opened Text
  import opened SieveTree

  /** `sieve_op_t`: an instruction, a number, or one of the six operands of a
      command (its handler, its arguments and tags, its name and comparator). */
  datatype Cell =
    | Halt | LocusOp | ActionOp | TestOp | NotOp | BranchOp | BrzOp | BrnzOp
    | Num(n: nat)
    | Arg(id: nat, k: nat)

  // ----- code generation -----

  /** What `mu_i_sv_code` remembers: the last location, and whether it has yet to
      be put into the code. */
  datatype Gen = Gen(locus: Option<Locus>, changeloc: bool)

  datatype Coded = Coded(cells: seq<Cell>, gen: Gen)

  function LocusCells(l: Locus): seq<Cell> {
    [LocusOp, Num(l.beg.file), Num(l.beg.line), Num(l.beg.col), Num(l.end.file), Num(l.end.line), Num(l.end.col)]
  }

  /** `mu_i_sv_locus`. */
  function SetLocus(g: Gen, l: Locus): Gen {
    if g.locus.Some? && g.locus.value.beg == l.beg then g else Gen(Some(l), true)
  }

  /** `mu_i_sv_code`: a pending location comes first. */
  function Emit(g: Gen, op: Cell): (r: Coded)
    ensures |r.cells| >= 1
  {
    if g.changeloc && g.locus.Some? then Coded(LocusCells(g.locus.value) + [op], g.(changeloc := false))
    else Coded([op], g.(changeloc := false))
  }

  function Operands(id: nat): seq<Cell> {
    [Arg(id, 0), Arg(id, 1), Arg(id, 2), Arg(id, 3), Arg(id, 4), Arg(id, 5)]
  }

  function CodeCommand(op: Cell, id: nat, l: Locus, g: Gen): Coded {
    var e := Emit(SetLocus(g, l), op);
    Coded(e.cells + Operands(id), e.gen)
  }

  function CodeTest(t: Test, g: Gen): Coded
    decreases t
  {
    match t
    case True => Coded([], g)
    case False => Coded([], g)
    case Check(id, l) => CodeCommand(TestOp, id, l, g)
    case Not(a, l) =>
      var c := CodeTest(a, SetLocus(g, l));
      var e := Emit(c.gen, NotOp);
      Coded(c.cells + e.cells, e.gen)
    case AnyOf(ts, l) => CodeList(ts, BrnzOp, SetLocus(g, l))
    case AllOf(ts, l) => CodeList(ts, BrzOp, SetLocus(g, l))
  }

  /** Alternatives: after each but the last, a branch to the end of the list. */
  function CodeList(ts: seq<Test>, op: Cell, g: Gen): Coded
    decreases ts
  {
    if ts == [] then Coded([], g)
    else
      var c := CodeTest(ts[0], g);
      if |ts| == 1 then c
      else
        var e := Emit(c.gen, op);
        var rest := CodeList(ts[1..], op, e.gen);
        Coded(c.cells + (e.cells + ([Num(|rest.cells|)] + rest.cells)), rest.gen)
  }

  function CodeStmt(s: Stmt, g: Gen): Coded
    decreases s
  {
    match s
    case Noop => Coded([], g)
    case Action(id, l) => CodeCommand(ActionOp, id, l, g)
    case End(l) => Emit(SetLocus(g, l), Halt)
    case If(c, t, e, l) =>
      var cc := CodeTest(c, SetLocus(g, l));
      var brz := Emit(cc.gen, BrzOp);
      var ct := CodeStmts(t, brz.gen);
      if e == [] then Coded(cc.cells + (brz.cells + ([Num(|ct.cells|)] + ct.cells)), ct.gen)
      else
        var br := Emit(ct.gen, BranchOp);
        var ce := CodeStmts(e, br.gen);
        var tail := ct.cells + (br.cells + [Num(|ce.cells|)]);
        Coded(cc.cells + (brz.cells + ([Num(|tail|)] + (tail + ce.cells))), ce.gen)
  }

  function CodeStmts(ss: seq<Stmt>, g: Gen): Coded
    decreases ss
  {
    if ss == [] then Coded([], g)
    else
      var c := CodeStmt(ss[0], g);
      var rest := CodeStmts(ss[1..], c.gen);
      Coded(c.cells + rest.cells, rest.gen)
  }

  /** `sieve_parse`: cell 0 holds no instruction, and the code ends in one. */
  function CodeScript(ss: seq<Stmt>): seq<Cell> {
    var c := CodeStmts(ss, Gen(None, false));
    [Halt] + (c.cells + Emit(c.gen, Halt).cells)
  }

  // ----- the machine -----

  datatype Outcome = Finished(history: History) | Crashed

  /** The loop of `sieve_run` from instruction `pc` with register `reg`.  `stop`
      sends it to cell 0. */
  function Run(prog: seq<Cell>, env: Handlers, pc: nat, reg: bool, h: History): Outcome
    decreases if pc < |prog| then |prog| - pc else 0
  {
    if pc >= |prog| then Crashed
    else
      match prog[pc]
      case Halt => Finished(h)
      case LocusOp => Run(prog, env, pc + 7, reg, h)
      case NotOp => Run(prog, env, pc + 1, !reg, h)
      case Num(_) => Crashed
      case Arg(_, _) => Crashed
      case ActionOp =>
        if pc + 1 >= |prog| || !prog[pc + 1].Arg? then Crashed
        else if prog[pc + 1].id == env.stop then
          (if prog[0] == Halt then Finished(h + [Acted(prog[pc + 1].id)]) else Crashed)
        else Run(prog, env, pc + 7, reg, h + [Acted(prog[pc + 1].id)])
      case TestOp =>
        if pc + 1 >= |prog| || !prog[pc + 1].Arg? then Crashed
        else Run(prog, env, pc + 7, env.answer(prog[pc + 1].id, h), h + [Tested(prog[pc + 1].id)])
      case BranchOp => if Bad(prog, pc + 1) then Crashed else Run(prog, env, pc + 2 + prog[pc + 1].n, reg, h)
      case BrzOp =>
        if Bad(prog, pc + 1) then Crashed
        else Run(prog, env, if reg then pc + 2 else pc + 2 + prog[pc + 1].n, reg, h)
      case BrnzOp =>
        if Bad(prog, pc + 1) then Crashed
        else Run(prog, env, if reg then pc + 2 + prog[pc + 1].n else pc + 2, reg, h)
  }

  predicate Bad(prog: seq<Cell>, pc: nat) {
    pc >= |prog| || !prog[pc].Num?
  }

  // ----- code in a program -----

  ghost predicate At(prog: seq<Cell>, p: nat, cells: seq<Cell>) {
    p + |cells| <= |prog| && prog[p..p + |cells|] == cells
  }

  lemma AtSplit(prog: seq<Cell>, p: nat, a: seq<Cell>, b: seq<Cell>)
    requires At(prog, p, a + b)
    ensures At(prog, p, a) && At(prog, p + |a|, b)
  {
    var s := prog[p..p + |a + b|];
    SliceSlice(prog, p, p + |a + b|, 0, |a|);
    SliceSlice(prog, p, p + |a + b|, |a|, |a + b|);
    assert (a + b)[0..|a|] == a && (a + b)[|a|..|a + b|] == b;
  }

  /** Code, an instruction, its operand, and the code after it. */
  lemma Layout(prog: seq<Cell>, p: nat, a: seq<Cell>, b: seq<Cell>, n: nat, d: seq<Cell>)
    requires At(prog, p, a + (b + ([Num(n)] + d)))
    ensures At(prog, p, a) && At(prog, p + |a|, b) && At(prog, p + |a| + |b| + 1, d)
    ensures p + |a| + |b| < |prog| && prog[p + |a| + |b|] == Num(n)
  {
    AtSplit(prog, p, a, b + ([Num(n)] + d));
    AtSplit(prog, p + |a|, b, [Num(n)] + d);
    AtSplit(prog, p + |a| + |b|, [Num(n)], d);
    AtCell(prog, p + |a| + |b|, Num(n));
  }

  lemma AtCell(prog: seq<Cell>, p: nat, c: Cell)
    requires At(prog, p, [c])
    ensures p < |prog| && prog[p] == c
  {
    assert prog[p..p + 1][0] == prog[p];
  }

  /** A pending location does not change what happens next. */
  lemma EmitRuns(prog: seq<Cell>, p: nat, g: Gen, op: Cell, env: Handlers, reg: bool, h: History)
    requires At(prog, p, Emit(g, op).cells)
    ensures var q := p + |Emit(g, op).cells| - 1;
      && q < |prog| && prog[q] == op && Run(prog, env, p, reg, h) == Run(prog, env, q, reg, h)
  {
    if g.changeloc && g.locus.Some? {
      var l := LocusCells(g.locus.value);
      AtSplit(prog, p, l, [op]);
      assert prog[p] == prog[p..p + 7][0];
      AtCell(prog, p + 7, op);
    } else {
      AtCell(prog, p, op);
    }
  }

  lemma OperandsAt(prog: seq<Cell>, p: nat, id: nat)
    requires At(prog, p, Operands(id))
    ensures p + 6 <= |prog| && prog[p] == Arg(id, 0)
  {
    assert prog[p] == prog[p..p + 6][0];
  }

  // ----- tests -----

  lemma CheckRuns(prog: seq<Cell>, p: nat, id: nat, l: Locus, g: Gen, env: Handlers, reg: bool, h: History)
    requires At(prog, p, CodeCommand(TestOp, id, l, g).cells)
    ensures Run(prog, env, p, reg, h)
      == Run(prog, env, p + |CodeCommand(TestOp, id, l, g).cells|, env.answer(id, h), h + [Tested(id)])
  {
    var e := Emit(SetLocus(g, l), TestOp);
    AtSplit(prog, p, e.cells, Operands(id));
    EmitRuns(prog, p, SetLocus(g, l), TestOp, env, reg, h);
    OperandsAt(prog, p + |e.cells|, id);
  }

  /** The code of a test leaves its answer in the register, and tests exactly what
      the script tests, in the same order. */
  lemma {:induction false} TestRuns(prog: seq<Cell>, p: nat, t: Test, g: Gen, env: Handlers, reg: bool, h: History)
    requires Residual(t) && At(prog, p, CodeTest(t, g).cells)
    ensures Run(prog, env, p, reg, h)
      == Run(prog, env, p + |CodeTest(t, g).cells|, Eval(t, env, h).yes, Eval(t, env, h).history)
    decreases t
  {
    hide Run, At, Emit;
    match t
    case Check(id, l) => CheckRuns(prog, p, id, l, g, env, reg, h);
    case Not(a, l) =>
      var g1 := SetLocus(g, l);
      var c := CodeTest(a, g1);
      var r := Eval(a, env, h);
      var e := Emit(c.gen, NotOp);
      AtSplit(prog, p, c.cells, e.cells);
      TestRuns(prog, p, a, g1, env, reg, h);
      EmitRuns(prog, p + |c.cells|, c.gen, NotOp, env, r.yes, r.history);
      NotRuns(prog, p + |c.cells| + |e.cells| - 1, env, r.yes, r.history);
    case AnyOf(ts, l) => ListRuns(prog, p, ts, true, SetLocus(g, l), env, reg, h);
    case AllOf(ts, l) => ListRuns(prog, p, ts, false, SetLocus(g, l), env, reg, h);
  }

  lemma NotRuns(prog: seq<Cell>, pc: nat, env: Handlers, reg: bool, h: History)
    requires pc < |prog| && prog[pc] == NotOp
    ensures Run(prog, env, pc, reg, h) == Run(prog, env, pc + 1, !reg, h)
  {
  }

  function BranchIf(solve: bool): Cell {
    if solve then BrnzOp else BrzOp
  }

  lemma BranchIfRuns(prog: seq<Cell>, pc: nat, solve: bool, n: nat, env: Handlers, reg: bool, h: History)
    requires pc + 1 < |prog| && prog[pc] == BranchIf(solve) && prog[pc + 1] == Num(n)
    ensures Run(prog, env, pc, reg, h) == Run(prog, env, if reg == solve then pc + 2 + n else pc + 2, reg, h)
  {
  }

  lemma {:induction false} ListRuns(prog: seq<Cell>, p: nat, ts: seq<Test>, solve: bool, g: Gen,
                                    env: Handlers, reg: bool, h: History)
    requires ts != [] && ResidualAll(ts) && At(prog, p, CodeList(ts, BranchIf(solve), g).cells)
    ensures Run(prog, env, p, reg, h)
      == Run(prog, env, p + |CodeList(ts, BranchIf(solve), g).cells|,
             EvalList(ts, env, h, solve).yes, EvalList(ts, env, h, solve).history)
    decreases ts
  {
    hide Run, At, CodeTest, Emit, Eval;
    var c := CodeTest(ts[0], g);
    var r := Eval(ts[0], env, h);
    if |ts| == 1 {
      TestRuns(prog, p, ts[0], g, env, reg, h);
      assert ts[1..] == [];
    } else {
      var op := BranchIf(solve);
      var e := Emit(c.gen, op);
      var rest := CodeList(ts[1..], op, e.gen);
      var n := |rest.cells|;
      var q := p + |c.cells| + |e.cells|;
      Layout(prog, p, c.cells, e.cells, n, rest.cells);
      TestRuns(prog, p, ts[0], g, env, reg, h);
      EmitRuns(prog, p + |c.cells|, c.gen, op, env, r.yes, r.history);
      BranchIfRuns(prog, q - 1, solve, n, env, r.yes, r.history);
      if r.yes != solve {
        ListRuns(prog, q + 1, ts[1..], solve, e.gen, env, r.yes, r.history);
      }
    }
  }

  // ----- statements -----

  /** The register after a statement that has not ended the script. */
  function RegAfter(s: Stmt, env: Handlers, reg: bool, h: History): bool
    decreases s
  {
    if !s.If? then reg
    else
      var r := Eval(s.cond, env, h);
      RegAfterAll(if r.yes then s.iftrue else s.iffalse, env, r.yes, r.history)
  }

  function RegAfterAll(ss: seq<Stmt>, env: Handlers, reg: bool, h: History): bool
    decreases ss
  {
    if ss == [] then reg
    else RegAfterAll(ss[1..], env, RegAfter(ss[0], env, reg, h), Exec(ss[0], env, h).history)
  }

  /** From code for `r` the machine comes to the state after it, or finishes. */
  ghost predicate Does(prog: seq<Cell>, env: Handlers, p: nat, reg: bool, h: History, q: nat, r: Effect, reg': bool) {
    if r.ended then Run(prog, env, p, reg, h) == Finished(r.history)
    else Run(prog, env, p, reg, h) == Run(prog, env, q, reg', r.history)
  }

  lemma ActionRuns(prog: seq<Cell>, p: nat, id: nat, l: Locus, g: Gen, env: Handlers, reg: bool, h: History)
    requires prog != [] && prog[0] == Halt && At(prog, p, CodeCommand(ActionOp, id, l, g).cells)
    ensures Does(prog, env, p, reg, h, p + |CodeCommand(ActionOp, id, l, g).cells|,
                 Effect(h + [Acted(id)], id == env.stop), reg)
  {
    var e := Emit(SetLocus(g, l), ActionOp);
    AtSplit(prog, p, e.cells, Operands(id));
    EmitRuns(prog, p, SetLocus(g, l), ActionOp, env, reg, h);
    OperandsAt(prog, p + |e.cells|, id);
  }

  lemma EndRuns(prog: seq<Cell>, p: nat, g: Gen, env: Handlers, reg: bool, h: History)
    requires At(prog, p, Emit(g, Halt).cells)
    ensures Run(prog, env, p, reg, h) == Finished(h)
  {
    EmitRuns(prog, p, g, Halt, env, reg, h);
  }

  lemma BranchRuns(prog: seq<Cell>, pc: nat, n: nat, env: Handlers, reg: bool, h: History)
    requires pc + 1 < |prog| && prog[pc] == BranchOp && prog[pc + 1] == Num(n)
    ensures Run(prog, env, pc, reg, h) == Run(prog, env, pc + 2 + n, reg, h)
  {
  }

  /** The code of a statement does what the statement does. */
  lemma {:induction false} StmtRuns(prog: seq<Cell>, p: nat, s: Stmt, g: Gen, env: Handlers, reg: bool, h: History)
    requires prog != [] && prog[0] == Halt && Ready(s) && At(prog, p, CodeStmt(s, g).cells)
    ensures Does(prog, env, p, reg, h, p + |CodeStmt(s, g).cells|, Exec(s, env, h), RegAfter(s, env, reg, h))
    decreases s, 1
  {
    hide Run, At, CodeTest, Emit, Eval;
    match s
    case Noop =>
    case Action(id, l) => ActionRuns(prog, p, id, l, g, env, reg, h);
    case End(l) => EndRuns(prog, p, SetLocus(g, l), env, reg, h);
    case If(c, t, e, l) =>
      if e == [] {
        IfRuns(prog, p, s, g, env, reg, h);
      } else {
        IfElseRuns(prog, p, s, g, env, reg, h);
      }
  }

  lemma {:induction false} IfRuns(prog: seq<Cell>, p: nat, s: Stmt, g: Gen, env: Handlers, reg: bool, h: History)
    requires prog != [] && prog[0] == Halt && Ready(s) && At(prog, p, CodeStmt(s, g).cells)
    requires s.If? && s.iffalse == []
    ensures Does(prog, env, p, reg, h, p + |CodeStmt(s, g).cells|, Exec(s, env, h), RegAfter(s, env, reg, h))
    decreases s, 0
  {
    hide Run, At, CodeTest, Emit, Eval, CodeStmts, ExecAll, RegAfterAll, SetLocus;
    var g1, r := SetLocus(g, s.locus), Eval(s.cond, env, h);
    var cc := CodeTest(s.cond, g1);
    var brz := Emit(cc.gen, BrzOp);
    var ct := CodeStmts(s.iftrue, brz.gen);
    var q := p + |cc.cells| + |brz.cells|;
    Layout(prog, p, cc.cells, brz.cells, |ct.cells|, ct.cells);
    TestRuns(prog, p, s.cond, g1, env, reg, h);
    EmitRuns(prog, p + |cc.cells|, cc.gen, BrzOp, env, r.yes, r.history);
    BranchIfRuns(prog, q - 1, false, |ct.cells|, env, r.yes, r.history);
    if r.yes {
      StmtsRun(prog, q + 1, s.iftrue, brz.gen, env, r.yes, r.history);
    } else {
      NothingRuns(env, r.yes, r.history);
    }
  }

  lemma {:induction false} IfElseRuns(prog: seq<Cell>, p: nat, s: Stmt, g: Gen, env: Handlers, reg: bool, h: History)
    requires prog != [] && prog[0] == Halt && Ready(s) && At(prog, p, CodeStmt(s, g).cells)
    requires s.If? && s.iffalse != []
    ensures Does(prog, env, p, reg, h, p + |CodeStmt(s, g).cells|, Exec(s, env, h), RegAfter(s, env, reg, h))
    decreases s, 0
  {
    hide Run, At, CodeTest, Emit, Eval, CodeStmts, ExecAll, RegAfterAll, SetLocus;
    var g1, r := SetLocus(g, s.locus), Eval(s.cond, env, h);
    var cc := CodeTest(s.cond, g1);
    var brz := Emit(cc.gen, BrzOp);
    var ct := CodeStmts(s.iftrue, brz.gen);
    var br := Emit(ct.gen, BranchOp);
    var ce := CodeStmts(s.iffalse, br.gen);
    var tail := ct.cells + (br.cells + [Num(|ce.cells|)]);
    var q := p + |cc.cells| + |brz.cells|;
    Layout(prog, p, cc.cells, brz.cells, |tail|, tail + ce.cells);
    TailAt(prog, q + 1, ct.cells, br.cells, |ce.cells|, ce.cells);
    TestRuns(prog, p, s.cond, g1, env, reg, h);
    EmitRuns(prog, p + |cc.cells|, cc.gen, BrzOp, env, r.yes, r.history);
    BranchIfRuns(prog, q - 1, false, |tail|, env, r.yes, r.history);
    if r.yes {
      ThenRuns(prog, q + 1, s, brz.gen, |ce.cells|, env, r.yes, r.history);
    } else {
      StmtsRun(prog, q + 1 + |tail|, s.iffalse, br.gen, env, r.yes, r.history);
    }
  }

  /** The block before an else, and the branch over the else. */
  lemma {:induction false} ThenRuns(prog: seq<Cell>, p: nat, s: Stmt, g: Gen, n: nat,
                                    env: Handlers, reg: bool, h: History)
    requires prog != [] && prog[0] == Halt && s.If? && ReadyAll(s.iftrue)
    requires At(prog, p, CodeStmts(s.iftrue, g).cells)
    requires var ct := CodeStmts(s.iftrue, g);
      var br := Emit(ct.gen, BranchOp).cells;
      && At(prog, p + |ct.cells|, br)
      && p + |ct.cells| + |br| < |prog| && prog[p + |ct.cells| + |br|] == Num(n)
    ensures var ct := CodeStmts(s.iftrue, g);
      Does(prog, env, p, reg, h, p + |ct.cells| + |Emit(ct.gen, BranchOp).cells| + 1 + n,
           ExecAll(s.iftrue, env, h), RegAfterAll(s.iftrue, env, reg, h))
    decreases s, 0, 0
  {
    hide Run, At, Emit, CodeStmts, ExecAll, RegAfterAll;
    var ct := CodeStmts(s.iftrue, g);
    var x, reg1 := ExecAll(s.iftrue, env, h), RegAfterAll(s.iftrue, env, reg, h);
    StmtsRun(prog, p, s.iftrue, g, env, reg, h);
    if !x.ended {
      EmitRuns(prog, p + |ct.cells|, ct.gen, BranchOp, env, reg1, x.history);
      BranchRuns(prog, p + |ct.cells| + |Emit(ct.gen, BranchOp).cells| - 1, n, env, reg1, x.history);
    }
  }

  lemma NothingRuns(env: Handlers, reg: bool, h: History)
    ensures ExecAll([], env, h) == Effect(h, false) && RegAfterAll([], env, reg, h) == reg
  {
  }

  lemma TailAt(prog: seq<Cell>, p: nat, a: seq<Cell>, b: seq<Cell>, n: nat, d: seq<Cell>)
    requires At(prog, p, a + (b + [Num(n)]) + d)
    ensures At(prog, p, a) && At(prog, p + |a|, b) && At(prog, p + |a + (b + [Num(n)])|, d)
    ensures p + |a| + |b| < |prog| && prog[p + |a| + |b|] == Num(n)
  {
    ConcatAssoc(a, b + [Num(n)], d);
    ConcatAssoc(b, [Num(n)], d);
    Layout(prog, p, a, b, n, d);
  }

  lemma {:induction false} StmtsRun(prog: seq<Cell>, p: nat, ss: seq<Stmt>, g: Gen, env: Handlers, reg: bool, h: History)
    requires prog != [] && prog[0] == Halt && ReadyAll(ss) && At(prog, p, CodeStmts(ss, g).cells)
    ensures Does(prog, env, p, reg, h, p + |CodeStmts(ss, g).cells|, ExecAll(ss, env, h), RegAfterAll(ss, env, reg, h))
    decreases ss, 0
  {
    hide Run, At, CodeStmt, Exec, RegAfter;
    if ss != [] {
      var c := CodeStmt(ss[0], g);
      var rest := CodeStmts(ss[1..], c.gen);
      AtSplit(prog, p, c.cells, rest.cells);
      StmtRuns(prog, p, ss[0], g, env, reg, h);
      var r := Exec(ss[0], env, h);
      if !r.ended {
        StmtsRun(prog, p + |c.cells|, ss[1..], c.gen, env, RegAfter(ss[0], env, reg, h), r.history);
      }
    }
  }

  // ----- scripts -----

  /** Running the code of an optimized script is running that script: the same tests
      and actions, in the same order, whatever the register holds at the start. */
  lemma CodeIsScript(ss: seq<Stmt>, env: Handlers, reg: bool)
    requires ReadyAll(ss)
    ensures Run(CodeScript(ss), env, 1, reg, []) == Finished(ExecAll(ss, env, []).history)
  {
    hide Run, CodeStmts, Emit, ExecAll;
    var g := Gen(None, false);
    var c := CodeStmts(ss, g);
    var end := Emit(c.gen, Halt).cells;
    var prog := CodeScript(ss);
    assert At(prog, 1, c.cells + end);
    AtSplit(prog, 1, c.cells, end);
    StmtsRun(prog, 1, ss, g, env, reg, []);
    var r := ExecAll(ss, env, []);
    if !r.ended { EndRuns(prog, 1 + |c.cells|, c.gen, env, RegAfterAll(ss, env, reg, []), r.history); }
  }

  /** The compiler as a whole, for every script. */
  lemma CompiledScriptRuns(ss: seq<Stmt>, env: Handlers, reg: bool)
    ensures Run(CodeScript(OptStmts(ss)), env, 1, reg, []) == Finished(ExecAll(OptStmts(ss), env, []).history)
  {
    OptStmtsReady(ss);
    CodeIsScript(OptStmts(ss), env, reg);
  }
}
