/** The code generator and the interpreter as the program has them: one growing
    program, operands patched in place, and a chain of branches linked through
    their own operands until the end of a list is known. */
module SieveMachine {
  import opened Text
  import opened SieveTree
  import opened SieveOptimizer
  import opened SieveStatic
  import opened SieveCode

  // ----- lists of alternatives, before and after the branches are fixed up -----

  function GenAfter(ts: seq<Test>, op: Cell, g: Gen): Gen {
    if ts == [] then g else GenAfter(ts[1..], op, Emit(CodeTest(ts[0], g).gen, op).gen)
  }

  /** Each test with its branch; `room` cells of code follow. */
  function Filled(ts: seq<Test>, op: Cell, g: Gen, room: nat): seq<Cell> {
    if ts == [] then []
    else
      var c := CodeTest(ts[0], g);
      var e := Emit(c.gen, op);
      var more := Filled(ts[1..], op, e.gen, room);
      c.cells + (e.cells + ([Num(|more| + room)] + more))
  }

  /** The same at `base` with each operand pointing to the operand before it. */
  function Linked(ts: seq<Test>, op: Cell, g: Gen, base: nat, prev: nat): seq<Cell> {
    if ts == [] then []
    else
      var c := CodeTest(ts[0], g);
      var e := Emit(c.gen, op);
      var slot := base + |c.cells| + |e.cells|;
      c.cells + (e.cells + ([Num(prev)] + Linked(ts[1..], op, e.gen, slot + 1, slot)))
  }

  /** Where the last operand is. */
  function LastSlot(ts: seq<Test>, op: Cell, g: Gen, base: nat, prev: nat): nat {
    if ts == [] then prev
    else
      var c := CodeTest(ts[0], g);
      var e := Emit(c.gen, op);
      var slot := base + |c.cells| + |e.cells|;
      LastSlot(ts[1..], op, e.gen, slot + 1, slot)
  }

  lemma SnocParts(ts: seq<Test>, t: Test)
    ensures ts == [] ==> ts + [t] == [t] && [t][1..] == []
    ensures ts != [] ==> (ts + [t])[0] == ts[0] && (ts + [t])[1..] == ts[1..] + [t]
  {
  }

  lemma {:induction false} GenSnoc(ts: seq<Test>, t: Test, op: Cell, g: Gen)
    ensures GenAfter(ts + [t], op, g) == Emit(CodeTest(t, GenAfter(ts, op, g)).gen, op).gen
    decreases |ts|
  {
    hide CodeTest, Emit;
    SnocParts(ts, t);
    if ts != [] { GenSnoc(ts[1..], t, op, Emit(CodeTest(ts[0], g).gen, op).gen); }
  }

  lemma {:induction false} SlotSnoc(ts: seq<Test>, t: Test, op: Cell, g: Gen, base: nat, prev: nat)
    ensures var c := CodeTest(t, GenAfter(ts, op, g));
      LastSlot(ts + [t], op, g, base, prev)
      == base + |Linked(ts, op, g, base, prev)| + |c.cells| + |Emit(c.gen, op).cells|
    decreases |ts|
  {
    hide CodeTest, Emit;
    SnocParts(ts, t);
    if ts != [] {
      var c := CodeTest(ts[0], g);
      var e := Emit(c.gen, op);
      var slot := base + |c.cells| + |e.cells|;
      SlotSnoc(ts[1..], t, op, e.gen, slot + 1, slot);
    }
  }

  /** One more test at the end of the chain. */
  lemma {:induction false} LinkedSnoc(ts: seq<Test>, t: Test, op: Cell, g: Gen, base: nat, prev: nat)
    ensures var c := CodeTest(t, GenAfter(ts, op, g));
      Linked(ts + [t], op, g, base, prev)
      == Linked(ts, op, g, base, prev)
         + (c.cells + (Emit(c.gen, op).cells + [Num(LastSlot(ts, op, g, base, prev))]))
    decreases |ts|
  {
    hide CodeTest, Emit;
    SnocParts(ts, t);
    if ts == [] {
      var c := CodeTest(t, g);
      EmptyConcat([Num(prev)]);
      EmptyConcat(c.cells + (Emit(c.gen, op).cells + [Num(prev)]));
    } else {
      var c := CodeTest(ts[0], g);
      var e := Emit(c.gen, op);
      var slot := base + |c.cells| + |e.cells|;
      LinkedSnoc(ts[1..], t, op, e.gen, slot + 1, slot);
      var more := Linked(ts[1..], op, e.gen, slot + 1, slot);
      var c' := CodeTest(t, GenAfter(ts, op, g));
      var tail := c'.cells + (Emit(c'.gen, op).cells + [Num(LastSlot(ts, op, g, base, prev))]);
      ConcatAssoc([Num(prev)], more, tail);
      ConcatAssoc(e.cells, [Num(prev)] + more, tail);
      ConcatAssoc(c.cells, e.cells + ([Num(prev)] + more), tail);
    }
  }

  /** All but the last test, then the last one. */
  lemma {:induction false} ListIsFilled(ts: seq<Test>, op: Cell, g: Gen)
    requires ts != []
    ensures var front, t := ts[..|ts| - 1], ts[|ts| - 1];
      var last := CodeTest(t, GenAfter(front, op, g));
      CodeList(ts, op, g) == Coded(Filled(front, op, g, |last.cells|) + last.cells, last.gen)
    decreases |ts|
  {
    hide *;
    var front, t := ts[..|ts| - 1], ts[|ts| - 1];
    if |ts| == 1 {
      assert front == [] && ts == [t];
      OneTest(t, op, g);
    } else {
      var u := ts[1..];
      assert front[0] == ts[0] && front[1..] == u[..|u| - 1] && u[|u| - 1] == t && front[0..] == front;
      ListCons(ts, op, g);
      GenCons(front, op, g);
      var c := CodeTest(ts[0], g);
      var e := Emit(c.gen, op);
      ListIsFilled(u, op, e.gen);
      var last := CodeTest(t, GenAfter(front, op, g));
      FilledCons(front, 0, op, g, |last.cells|);
      var more := Filled(front[1..], op, e.gen, |last.cells|);
      var n := Num(|more| + |last.cells|);
      ConcatAssoc([n], more, last.cells);
      ConcatAssoc(e.cells, [n] + more, last.cells);
      ConcatAssoc(c.cells, e.cells + ([n] + more), last.cells);
    }
  }

  lemma OneTest(t: Test, op: Cell, g: Gen)
    ensures CodeList([t], op, g) == CodeTest(t, g) && GenAfter([], op, g) == g
    ensures Filled([], op, g, |CodeTest(t, g).cells|) + CodeTest(t, g).cells == CodeTest(t, g).cells
  {
    EmptyConcat(CodeTest(t, g).cells);
  }

  lemma ListCons(ts: seq<Test>, op: Cell, g: Gen)
    requires |ts| > 1
    ensures var c := CodeTest(ts[0], g);
      var e := Emit(c.gen, op);
      var rest := CodeList(ts[1..], op, e.gen);
      CodeList(ts, op, g) == Coded(c.cells + (e.cells + ([Num(|rest.cells|)] + rest.cells)), rest.gen)
  {
  }

  lemma GenCons(ts: seq<Test>, op: Cell, g: Gen)
    requires ts != []
    ensures GenAfter(ts, op, g) == GenAfter(ts[1..], op, Emit(CodeTest(ts[0], g).gen, op).gen)
  {
  }

  /** One step of the fix-up loop: the last link of the chain becomes a distance. */
  lemma FixUp(front: seq<Test>, k: nat, op: Cell, g: Gen, base: nat, room: nat, before: seq<Cell>, last: seq<Cell>)
    requires k < |front| && |before| == base && |last| == room
    ensures var slot := LastSlot(front[..k + 1], op, g, base, 0);
      var old1 := before + (Linked(front[..k + 1], op, g, base, 0)
                  + (Filled(front[k + 1..], op, GenAfter(front[..k + 1], op, g), room) + last));
      var new1 := before + (Linked(front[..k], op, g, base, 0)
                  + (Filled(front[k..], op, GenAfter(front[..k], op, g), room) + last));
      && 0 < slot < |old1| && old1[slot] == Num(LastSlot(front[..k], op, g, base, 0))
      && old1[slot := Num(|old1| - slot - 1)] == new1
  {
    hide *;
    assert front[..k + 1] == front[..k] + [front[k]];
    LinkedSnoc(front[..k], front[k], op, g, base, 0);
    SlotSnoc(front[..k], front[k], op, g, base, 0);
    GenSnoc(front[..k], front[k], op, g);
    var g' := GenAfter(front[..k], op, g);
    FilledCons(front, k, op, g', room);
    var c := CodeTest(front[k], g');
    var e := Emit(c.gen, op);
    Patch(before, Linked(front[..k], op, g, base, 0), c.cells, e.cells,
          LastSlot(front[..k], op, g, base, 0), Filled(front[k + 1..], op, e.gen, room), last);
  }

  lemma FilledCons(front: seq<Test>, k: nat, op: Cell, g: Gen, room: nat)
    requires k < |front|
    ensures var c := CodeTest(front[k], g);
      var e := Emit(c.gen, op);
      var more := Filled(front[k + 1..], op, e.gen, room);
      Filled(front[k..], op, g, room) == c.cells + (e.cells + ([Num(|more| + room)] + more))
  {
    hide CodeTest, Emit;
    assert front[k..][0] == front[k] && front[k..][1..] == front[k + 1..];
  }

  lemma Patch(before: seq<Cell>, a: seq<Cell>, c: seq<Cell>, e: seq<Cell>, link: nat, more: seq<Cell>, last: seq<Cell>)
    requires |e| > 0
    ensures var old1 := before + ((a + (c + (e + [Num(link)]))) + (more + last));
      var new1 := before + (a + ((c + (e + ([Num(|more| + |last|)] + more))) + last));
      var slot := |before| + |a| + |c| + |e|;
      && 0 < slot < |old1| && old1[slot] == Num(link)
      && old1[slot := Num(|old1| - slot - 1)] == new1
  {
    var head, d := before + a + c + e, Num(|more| + |last|);
    var old1 := before + ((a + (c + (e + [Num(link)]))) + (more + last));
    var new1 := before + (a + ((c + (e + ([d] + more))) + last));
    assert old1 == head + ([Num(link)] + (more + last));
    assert new1 == head + ([d] + (more + last));
    assert (head + ([Num(link)] + (more + last)))[|head| := d] == head + ([d] + (more + last));
  }

  // ----- the machine -----

  /** `struct mu_sieve_machine`, as far as code and its execution go. */
  class Machine {
    var prog: seq<Cell>
    var locus: Option<Locus>
    var changeloc: bool
    var pc: nat
    var reg: bool
    var history: History
    var actionCount: nat

    constructor ()
      ensures prog == [] && G() == Gen(None, false)
    {
      prog, locus, changeloc := [], None, false;
      pc, reg, history, actionCount := 0, false, [], 0;
    }

    ghost function G(): Gen
      reads this`locus, this`changeloc
    {
      Gen(locus, changeloc)
    }

    /** `mu_i_sv_code`. */
    method Code(op: Cell)
      modifies this`prog, this`changeloc
      ensures prog == old(prog) + Emit(old(G()), op).cells && G() == Emit(old(G()), op).gen
    {
      if changeloc && locus.Some? {
        prog := prog + LocusCells(locus.value);
        ConcatAssoc(old(prog), LocusCells(locus.value), [op]);
      }
      changeloc := false;
      prog := prog + [op];
    }

    /** `mu_i_sv_locus`. */
    method SetLoc(l: Locus)
      modifies this`locus, this`changeloc
      ensures G() == SetLocus(old(G()), l)
    {
      if locus.None? || locus.value.beg != l.beg {
        changeloc := true;
        locus := Some(l);
      }
    }

    method CodeOperands(id: nat)
      requires !changeloc
      modifies this`prog, this`changeloc
      ensures prog == old(prog) + Operands(id) && G() == old(G())
    {
      var k := 0;
      EmptyConcat(prog);
      assert Operands(id)[..0] == [];
      while k < 6
        invariant 0 <= k <= 6 && prog == old(prog) + Operands(id)[..k] && G() == old(G())
      {
        assert Operands(id)[..k + 1] == Operands(id)[..k] + [Arg(id, k)];
        ConcatAssoc(old(prog), Operands(id)[..k], [Arg(id, k)]);
        Code(Arg(id, k));
        k := k + 1;
      }
      assert Operands(id)[..6] == Operands(id);
    }

    /** `mu_i_sv_code_test` and `mu_i_sv_code_action`. */
    method CodeCommandNode(op: Cell, id: nat, l: Locus)
      modifies this`prog, this`changeloc, this`locus
      ensures prog == old(prog) + CodeCommand(op, id, l, old(G())).cells
      ensures G() == CodeCommand(op, id, l, old(G())).gen
    {
      SetLoc(l);
      ghost var g := G();
      Code(op);
      ConcatAssoc(old(prog), Emit(g, op).cells, Operands(id));
      CodeOperands(id);
    }

    /** `node_code` on a test. */
    method CodeTestNode(t: Test)
      modifies this`prog, this`changeloc, this`locus
      ensures prog == old(prog) + CodeTest(t, old(G())).cells && G() == CodeTest(t, old(G())).gen
      decreases t, 1
    {
      hide Emit, SetLocus, CodeCommand;
      match t
      case True => EmptyConcat(prog);
      case False => EmptyConcat(prog);
      case Check(id, l) => CodeCommandNode(TestOp, id, l);
      case Not(a, l) =>
        SetLoc(l);
        ghost var g := G();
        CodeTestNode(a);
        ConcatAssoc(old(prog), CodeTest(a, g).cells, Emit(CodeTest(a, g).gen, NotOp).cells);
        Code(NotOp);
      case AnyOf(ts, l) =>
        SetLoc(l);
        CodeXOf(ts, BrnzOp);
      case AllOf(ts, l) =>
        SetLoc(l);
        CodeXOf(ts, BrzOp);
    }

    /** The first loop of `code_node_x_of`: each test, and behind each but the last
        a branch whose operand links back to the branch before. */
    method CodeChain(ts: seq<Test>, op: Cell) returns (slot: nat)
      requires ts != []
      modifies this`prog, this`changeloc, this`locus
      ensures var front, g := ts[..|ts| - 1], old(G());
        var last := CodeTest(ts[|ts| - 1], GenAfter(front, op, g));
        && slot == LastSlot(front, op, g, |old(prog)|, 0)
        && prog == old(prog) + (Linked(front, op, g, |old(prog)|, 0) + last.cells)
        && G() == last.gen
      decreases ts, 0
    {
      hide *;
      var i := 0;
      slot := 0;
      ghost var g, base := G(), |prog|;
      ChainStarts(op, g, base);
      EmptyConcat(prog);
      assert ts[..0] == [];
      while i + 1 < |ts|
        invariant 0 <= i < |ts|
        invariant slot == LastSlot(ts[..i], op, g, base, 0) && G() == GenAfter(ts[..i], op, g)
        invariant prog == old(prog) + Linked(ts[..i], op, g, base, 0)
      {
        ghost var pre, lk := ts[..i], Linked(ts[..i], op, g, base, 0);
        ghost var c := CodeTest(ts[i], G());
        ghost var e := Emit(c.gen, op);
        CodeTestNode(ts[i]);
        Code(op);
        NothingPending(c.gen, op, Num(slot));
        Code(Num(slot));
        assert ts[..i + 1] == pre + [ts[i]];
        LinkedSnoc(pre, ts[i], op, g, base, 0);
        SlotSnoc(pre, ts[i], op, g, base, 0);
        GenSnoc(pre, ts[i], op, g);
        ChainGrows(old(prog), lk, c.cells, e.cells, Num(slot));
        slot := |prog| - 1;
        i := i + 1;
      }
      ghost var lk := Linked(ts[..i], op, g, base, 0);
      ConcatAssoc(old(prog), lk, CodeTest(ts[i], G()).cells);
      CodeTestNode(ts[i]);
    }

    /** `code_node_x_of`: when the end is known, the chain is followed back and every
        link becomes the distance to the end. */
    method CodeXOf(ts: seq<Test>, op: Cell)
      modifies this`prog, this`changeloc, this`locus
      ensures prog == old(prog) + CodeList(ts, op, old(G())).cells && G() == CodeList(ts, op, old(G())).gen
      decreases ts, 1
    {
      hide *;
      if ts == [] {
        NoTests(op, G());
        EmptyConcat(prog);
        return;
      }
      ghost var g, base, before, front := G(), |prog|, prog, ts[..|ts| - 1];
      var slot := CodeChain(ts, op);
      ghost var last := CodeTest(ts[|ts| - 1], GenAfter(front, op, g)).cells;
      ghost var room, k, gEnd := |last|, |front|, G();
      NothingFilled(op, GenAfter(front, op, g), room);
      assert front[..k] == front && front[k..] == [];
      EmptyConcat(last);
      var end := |prog|;
      ChainStarts(op, g, base);
      assert front[..0] == [] && front[0..] == front;
      while slot != 0
        invariant 0 <= k <= |front| && |prog| == end && G() == gEnd
        invariant slot == LastSlot(front[..k], op, g, base, 0)
        invariant prog == before + (Linked(front[..k], op, g, base, 0)
          + (Filled(front[k..], op, GenAfter(front[..k], op, g), room) + last))
        decreases k
      {
        k := k - 1;
        FixUp(front, k, op, g, base, room, before, last);
        var prev := prog[slot].n;
        prog := prog[slot := Num(end - slot - 1)];
        slot := prev;
      }
      if k > 0 { FixUp(front, k - 1, op, g, base, room, before, last); }
      EmptyConcat(Filled(front, op, g, room) + last);
      ListIsFilled(ts, op, g);
    }

    /** `node_code` on a statement. */
    method CodeStmtNode(s: Stmt)
      modifies this`prog, this`changeloc, this`locus
      ensures prog == old(prog) + CodeStmt(s, old(G())).cells && G() == CodeStmt(s, old(G())).gen
      decreases s, 1
    {
      hide Emit, SetLocus, CodeCommand, CodeTest, CodeStmts;
      match s
      case Noop => EmptyConcat(prog);
      case Action(id, l) => CodeCommandNode(ActionOp, id, l);
      case End(l) =>
        SetLoc(l);
        Code(Halt);
      case If(c, t, e, l) =>
        SetLoc(l);
        CodeCond(s);
    }

    /** `code_node_cond`: the operands of both branches are patched once the code
        they jump over is there. */
    method CodeCond(s: Stmt)
      requires s.If?
      modifies this`prog, this`changeloc, this`locus
      ensures prog == old(prog) + CondCode(s, old(G())).cells && G() == CondCode(s, old(G())).gen
      decreases s, 0
    {
      hide Emit, SetLocus, CodeTest, CodeStmts;
      ghost var before, g := prog, G();
      CodeTestNode(s.cond);
      ghost var cc := CodeTest(s.cond, g);
      Code(BrzOp);
      ghost var brz := Emit(cc.gen, BrzOp);
      NothingPending(cc.gen, BrzOp, Num(0));
      var br1 := |prog|;
      Code(Num(0));
      ghost var head := before + cc.cells + brz.cells;
      CodeTree(s.iftrue);
      ghost var ct := CodeStmts(s.iftrue, brz.gen);
      if s.iffalse != [] {
        CodeElse(s, br1, head, ct);
        ghost var br := Emit(ct.gen, BranchOp);
        ghost var ce := CodeStmts(s.iffalse, br.gen);
        CondElse(before, cc.cells, brz.cells, ct.cells + (br.cells + [Num(|ce.cells|)]), ce.cells);
      } else {
        PatchOne(head, 0, ct.cells);
        CondThen(before, cc.cells, brz.cells, ct.cells);
        prog := prog[br1 := Num(|prog| - br1 - 1)];
      }
    }

    /** The else part of `code_node_cond`. */
    method CodeElse(s: Stmt, br1: nat, ghost head: seq<Cell>, ghost ct: Coded)
      requires s.If? && prog == head + [Num(0)] + ct.cells && br1 == |head| && G() == ct.gen
      modifies this`prog, this`changeloc, this`locus
      ensures var br := Emit(ct.gen, BranchOp);
        var ce := CodeStmts(s.iffalse, br.gen);
        var tail := ct.cells + (br.cells + [Num(|ce.cells|)]);
        prog == head + [Num(|tail|)] + (tail + ce.cells) && G() == ce.gen
      decreases s, 0, 0
    {
      hide *;
      Code(BranchOp);
      ghost var br := Emit(ct.gen, BranchOp);
      NothingPending(ct.gen, BranchOp, Num(0));
      var br2 := |prog|;
      Code(Num(0));
      ConcatAssoc(head + [Num(0)], ct.cells, br.cells);
      ConcatAssoc(head + [Num(0)], ct.cells + br.cells, [Num(0)]);
      PatchOne(head, 0, ct.cells + br.cells + [Num(0)]);
      prog := prog[br1 := Num(|prog| - br1 - 1)];
      CodeTree(s.iffalse);
      PatchElse(head, ct.cells, br.cells, CodeStmts(s.iffalse, br.gen).cells);
      prog := prog[br2 := Num(|prog| - br2 - 1)];
    }

    /** `tree_code`. */
    method CodeTree(ss: seq<Stmt>)
      modifies this`prog, this`changeloc, this`locus
      ensures prog == old(prog) + CodeStmts(ss, old(G())).cells && G() == CodeStmts(ss, old(G())).gen
      decreases ss, 0
    {
      hide *;
      var i := 0;
      ghost var g := G();
      CodedNone(g);
      assert ss[..0] == [];
      EmptyConcat(prog);
      while i < |ss|
        invariant 0 <= i <= |ss|
        invariant prog == old(prog) + CodeStmts(ss[..i], g).cells && G() == CodeStmts(ss[..i], g).gen
      {
        assert ss[..i + 1] == ss[..i] + [ss[i]];
        StmtsSnoc(ss[..i], ss[i], g);
        ConcatAssoc(old(prog), CodeStmts(ss[..i], g).cells, CodeStmt(ss[i], G()).cells);
        CodeStmtNode(ss[i]);
        i := i + 1;
      }
      assert ss[..i] == ss;
    }

    /** The second half of `sieve_parse`. */
    method Compile(ss: seq<Stmt>)
      requires prog == [] && G() == Gen(None, false)
      modifies this`prog, this`changeloc, this`locus
      ensures prog == CodeScript(OptStmts(ss))
    {
      hide CodeStmts, OptStmts;
      var tree := OptStmts(ss);
      Code(Halt);
      CodeTree(tree);
      ghost var c := CodeStmts(tree, Gen(None, false));
      ConcatAssoc([Halt], c.cells, Emit(c.gen, Halt).cells);
      Code(Halt);
    }

    /** One instruction: `(*mach->prog[mach->pc++].instr) (mach)`. */
    method Step(env: Handlers)
      requires 0 < pc < |prog| && prog[pc] != Halt && prog[0] == Halt
      requires Run(prog, env, pc, reg, history).Finished? && actionCount == |Acts(history)|
      modifies this`pc, this`reg, this`history, this`actionCount
      ensures actionCount == |Acts(history)|
      ensures pc == 0 ==> old(Run(prog, env, pc, reg, history)) == Finished(history)
      ensures pc > 0 ==> pc > old(pc) && Run(prog, env, pc, reg, history) == old(Run(prog, env, pc, reg, history))
    {
      hide Acts;
      var op := prog[pc];
      pc := pc + 1;
      match op
      case LocusOp => pc := pc + 6;
      case NotOp => reg := !reg;
      case ActionOp =>
        var id := prog[pc].id;
        pc := pc + 6;
        actionCount := actionCount + 1;
        ActsSnoc(history, Acted(id));
        history := history + [Acted(id)];
        if id == env.stop { pc := 0; }
      case TestOp =>
        var id := prog[pc].id;
        pc := pc + 6;
        reg := env.answer(id, history);
        ActsSnoc(history, Tested(id));
        EmptyConcat(Acts(history));
        history := history + [Tested(id)];
      case BranchOp => pc := pc + 1 + prog[pc].n;
      case BrzOp =>
        var num := prog[pc].n;
        pc := pc + 1;
        if !reg { pc := pc + num; }
      case BrnzOp =>
        var num := prog[pc].n;
        pc := pc + 1;
        if reg { pc := pc + num; }
    }

    /** `sieve_run`: the script's tests and actions happen, each exactly once and in
        order, and the message is kept if no action was performed. */
    method SieveRun(env: Handlers, ghost ss: seq<Stmt>) returns (implicitKeep: bool)
      requires prog == CodeScript(OptStmts(ss))
      modifies this`pc, this`reg, this`history, this`actionCount
      ensures history == ExecAll(OptStmts(ss), env, []).history
      ensures implicitKeep <==> Acts(history) == []
    {
      hide CodeStmts, OptStmts, ExecAll, Acts, Emit, Run;
      CompiledScriptRuns(ss, env, reg);
      ghost var end := ExecAll(OptStmts(ss), env, []).history;
      NoActs();
      actionCount, history, pc := 0, [], 1;
      RunInside(prog, env, pc, reg, history);
      while prog[pc] != Halt
        invariant pc < |prog| && prog[0] == Halt && actionCount == |Acts(history)|
        invariant pc == 0 ==> history == end
        invariant pc > 0 ==> Run(prog, env, pc, reg, history) == Finished(end)
        decreases if pc == 0 then 0 else |prog| - pc
      {
        Step(env);
        if pc > 0 { RunInside(prog, env, pc, reg, history); }
      }
      if pc > 0 { RunHalts(prog, env, pc, reg, history); }
      implicitKeep := actionCount == 0;
    }
  }

  lemma ChainStarts(op: Cell, g: Gen, base: nat)
    ensures LastSlot([], op, g, base, 0) == 0 && GenAfter([], op, g) == g && Linked([], op, g, base, 0) == []
  {
  }

  lemma NoTests(op: Cell, g: Gen)
    ensures CodeList([], op, g) == Coded([], g)
  {
  }

  lemma NothingFilled(op: Cell, g: Gen, room: nat)
    ensures Filled([], op, g, room) == []
  {
  }

  /** Right after an instruction no location is pending. */
  lemma NothingPending(g: Gen, op: Cell, x: Cell)
    ensures Emit(Emit(g, op).gen, x) == Coded([x], Emit(g, op).gen)
  {
  }

  lemma ChainGrows(before: seq<Cell>, lk: seq<Cell>, c: seq<Cell>, e: seq<Cell>, x: Cell)
    ensures before + lk + c + e + [x] == before + (lk + (c + (e + [x])))
    ensures |before + lk + c + e + [x]| - 1 == |before| + |lk| + |c| + |e|
  {
    ConcatAssoc(before + lk + c, e, [x]);
    ConcatAssoc(before + lk, c, e + [x]);
    ConcatAssoc(before, lk, c + (e + [x]));
  }

  /** The code of a condition behind its location. */
  function CondCode(s: Stmt, g: Gen): Coded
    requires s.If?
  {
    var cc := CodeTest(s.cond, g);
    var brz := Emit(cc.gen, BrzOp);
    var ct := CodeStmts(s.iftrue, brz.gen);
    if s.iffalse == [] then Coded(cc.cells + (brz.cells + ([Num(|ct.cells|)] + ct.cells)), ct.gen)
    else
      var br := Emit(ct.gen, BranchOp);
      var ce := CodeStmts(s.iffalse, br.gen);
      var tail := ct.cells + (br.cells + [Num(|ce.cells|)]);
      Coded(cc.cells + (brz.cells + ([Num(|tail|)] + (tail + ce.cells))), ce.gen)
  }

  lemma PatchOne(head: seq<Cell>, n: nat, tail: seq<Cell>)
    ensures var p := head + [Num(n)] + tail;
      && |head| < |p| && |p| - |head| - 1 == |tail|
      && p[|head| := Num(|tail|)] == head + [Num(|tail|)] + tail
  {
  }

  lemma CondThen(before: seq<Cell>, c: seq<Cell>, z: seq<Cell>, t: seq<Cell>)
    ensures before + c + z + [Num(|t|)] + t == before + (c + (z + ([Num(|t|)] + t)))
  {
    ConcatAssoc(before + c + z, [Num(|t|)], t);
    ConcatAssoc(before + c, z, [Num(|t|)] + t);
    ConcatAssoc(before, c, z + ([Num(|t|)] + t));
  }

  lemma CondElse(before: seq<Cell>, c: seq<Cell>, z: seq<Cell>, tail: seq<Cell>, e: seq<Cell>)
    ensures before + c + z + [Num(|tail|)] + (tail + e) == before + (c + (z + ([Num(|tail|)] + (tail + e))))
  {
    ConcatAssoc(before + c + z, [Num(|tail|)], tail + e);
    ConcatAssoc(before + c, z, [Num(|tail|)] + (tail + e));
    ConcatAssoc(before, c, z + ([Num(|tail|)] + (tail + e)));
  }

  lemma PatchElse(head: seq<Cell>, t: seq<Cell>, b: seq<Cell>, e: seq<Cell>)
    ensures var n := Num(|t + b + [Num(0)]|);
      var mid := head + [n] + (t + b + [Num(0)]) + e;
      var tail := t + (b + [Num(|e|)]);
      var slot := |head| + 1 + |t| + |b|;
      && slot < |mid| && |mid| - slot - 1 == |e|
      && mid[slot := Num(|e|)] == head + [Num(|tail|)] + (tail + e)
  {
    var n := Num(|t + b + [Num(0)]|);
    var front := head + [n] + (t + b);
    var tail := t + (b + [Num(|e|)]);
    assert head + [n] + (t + b + [Num(0)]) + e == front + [Num(0)] + e;
    PatchOne(front, 0, e);
    assert front + [Num(|e|)] + e == head + [n] + (tail + e);
  }

  lemma CodedNone(g: Gen)
    ensures CodeStmts([], g) == Coded([], g)
  {
  }

  lemma {:induction false} StmtsSnoc(ss: seq<Stmt>, s: Stmt, g: Gen)
    ensures var a := CodeStmts(ss, g);
      var b := CodeStmt(s, a.gen);
      CodeStmts(ss + [s], g) == Coded(a.cells + b.cells, b.gen)
    decreases |ss|
  {
    hide CodeStmt;
    if ss == [] {
      assert [] + [s] == [s] && [s][1..] == [];
      EmptyConcat(CodeStmt(s, g).cells);
    } else {
      assert (ss + [s])[0] == ss[0] && (ss + [s])[1..] == ss[1..] + [s];
      var c := CodeStmt(ss[0], g);
      StmtsSnoc(ss[1..], s, c.gen);
      var a := CodeStmts(ss, g);
      ConcatAssoc(c.cells, CodeStmts(ss[1..], c.gen).cells, CodeStmt(s, a.gen).cells);
    }
  }

  lemma NoActs()
    ensures Acts([]) == []
  {
  }

  /** A run that finishes never leaves the program. */
  lemma RunInside(prog: seq<Cell>, env: Handlers, pc: nat, reg: bool, h: History)
    requires Run(prog, env, pc, reg, h).Finished?
    ensures pc < |prog|
  {
  }

  lemma RunHalts(prog: seq<Cell>, env: Handlers, pc: nat, reg: bool, h: History)
    requires pc < |prog| && prog[pc] == Halt
    ensures Run(prog, env, pc, reg, h) == Finished(h)
  {
  }

  // ----- the compiler as a whole -----

  lemma {:induction false} OptSnoc(ss: seq<Stmt>, s: Stmt)
    ensures OptStmts(ss + [s]) == OptStmts(ss) + [OptStmt(s)]
    decreases |ss|
  {
    if ss == [] {
      assert [] + [s] == [s] && [s][1..] == [];
    } else {
      assert (ss + [s])[0] == ss[0] && (ss + [s])[1..] == ss[1..] + [s];
      OptSnoc(ss[1..], s);
      ConcatAssoc([OptStmt(ss[0])], OptStmts(ss[1..]), [OptStmt(s)]);
    }
  }

  lemma {:induction false} EndChangesNothing(ss: seq<Stmt>, l: Locus, env: Handlers, h: History)
    ensures ExecAll(ss + [End(l)], env, h).history == ExecAll(ss, env, h).history
    decreases |ss|
  {
    var all := ss + [End(l)];
    if ss == [] {
      assert all == [End(l)] && all[1..] == [];
    } else {
      assert all[0] == ss[0] && all[1..] == ss[1..] + [End(l)];
      EndChangesNothing(ss[1..], l, env, Exec(ss[0], env, h).history);
    }
  }

  /** What the compiled script does, in terms of the optimized one. */
  lemma CompiledActs(body: seq<Stmt>, l: Locus, env: Handlers, reg: bool)
    ensures var r := Run(CodeScript(OptStmts(body + [End(l)])), env, 1, reg, []);
      r.Finished? && Acts(r.history) == Acts(ExecAll(OptStmts(body), env, []).history)
  {
    hide Run, CodeScript, ExecAll, Acts;
    CompiledScriptRuns(body + [End(l)], env, reg);
    OptSnoc(body, End(l));
    EndChangesNothing(OptStmts(body), l, env, []);
  }

  /** The compiled script ends, and performs the actions of the script, in order. */
  predicate RunsAsWritten(body: seq<Stmt>, l: Locus, env: Handlers, reg: bool) {
    var r := Run(CodeScript(OptStmts(body + [End(l)])), env, 1, reg, []);
    r.Finished? && Acts(r.history) == Acts(ExecAll(body + [End(l)], env, []).history)
  }

  /** Every script in which nothing acts behind the first statement of a block chosen by
      a constant performs, once compiled, exactly the actions it says, in order, for all
      tests that look only at what the actions did. */
  lemma CompilerPreservesMeaning(body: seq<Stmt>, l: Locus, env: Handlers, reg: bool)
    requires Pure(env) && NoEndAll(body) && KeepsAll(body)
    ensures RunsAsWritten(body, l, env, reg)
  {
    hide Run, CodeScript, ExecAll, Acts, Pure, KeepsAll;
    CompiledActs(body, l, env, reg);
    EndChangesNothing(body, l, env, []);
    KeptScriptsAreKept(body, env, []);
  }

  /** Without `stop`, and with no test asked again where its answer is known, those are
      all the scripts of which that is true. */
  lemma CompilerIsExact(body: seq<Stmt>, l: Locus, stop: nat, reg: bool)
    requires NoStopAll(body, stop) && OnceAll(body)
    ensures KeepsAll(body) <==> forall yes :: RunsAsWritten(body, l, Env(yes, stop), reg)
  {
    hide Run, CodeScript, ExecAll, KeepsAll, NoStopAll, OnceAll, Acts, Env;
    StaticallyExact(body, stop);
    forall yes
      ensures SameEffect(ExecAll(OptStmts(body), Env(yes, stop), []), ExecAll(body, Env(yes, stop), []))
        <==> RunsAsWritten(body, l, Env(yes, stop), reg)
    {
      CompiledActs(body, l, Env(yes, stop), reg);
      EndChangesNothing(body, l, Env(yes, stop), []);
      EnvIsSteady(yes, stop);
      StopIs(yes, stop);
      LostBlock(body, Env(yes, stop), [], []);
    }
  }
}
