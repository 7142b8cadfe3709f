/** Evaluation of compiled SEARCH trees: type soundness and agreement with the
    boolean meaning of the keys. */
module SearchEval {
  import opened Text
  import opened SearchSyntax
  import opened SearchParser

  /** Reading `v.number`: the number if there is one, else whatever the bits of
      the other union member happen to be. */
  function NumberOf(v: Value, q: Query): int {
    if v.Number? then v.number else q.pun(v)
  }

  /** `evaluate_node`. */
  function Evaluate(node: Node, q: Query): Value {
    match node
    case Call(fun, args) => Apply(fun, seq(|args|, i requires 0 <= i < |args| => Evaluate(args[i], q)), q)
    case And(l, r) =>
      if NumberOf(Evaluate(l, q), q) == 0 then Number(0)
      else Number(NumberOf(Evaluate(r, q), q))
    case Or(l, r) =>
      if NumberOf(Evaluate(l, q), q) != 0 then Number(1)
      else Number(NumberOf(Evaluate(r, q), q))
    case Not(n) => Number(if NumberOf(Evaluate(n, q), q) == 0 then 1 else 0)
    case Val(v) => v
    case False => Number(0)
  }

  function Apply(fun: Instr, vals: seq<Value>, q: Query): Value {
    match fun
    case MsgsetInstr =>
      Number(if |vals| > 0 && vals[0].Set? && q.msgno in vals[0].members then 1 else 0)
    case CondInstr(c) => Number(q.cond(c, vals))
  }

  // ----- types -----

  predicate HasType(v: Value, t: ArgType) {
    match t
    case StringArg => v.Str?
    case NumberArg => v.Number?
    case DateArg => v.Date?
    case UidArg => v.Set?
  }

  predicate TypedArgs(args: seq<Node>, types: seq<ArgType>) {
    && |args| == |types|
    && forall i :: 0 <= i < |args| ==> args[i].Val? && HasType(args[i].value, types[i])
  }

  /** A tree that stands for a truth value. */
  predicate WellTyped(node: Node) {
    match node
    case Call(MsgsetInstr, args) => |args| == 1 && args[0].Val? && args[0].value.Set?
    case Call(CondInstr(c), args) => |args| <= MAX_NODE_ARGS && TypedArgs(args, ArgTypes(c))
    case And(l, r) => WellTyped(l) && WellTyped(r)
    case Or(l, r) => WellTyped(l) && WellTyped(r)
    case Not(n) => WellTyped(n)
    case Val(v) => v.Number?
    case False => true
  }

  lemma MacroNodeTyped(m: Macro)
    ensures WellTyped(MacroNode(m))
  {
    assert TypedArgs([Val(Str(MacroFlag(m)))], ArgTypes(KEYWORD));
  }

  lemma {:induction false} CompileTyped(lib: Library, k: Key)
    requires WellFormed(lib, k)
    ensures WellTyped(Compile(lib, k))
    decreases k, 1
  {
    match k
    case NotKey(_, a) => CompileTyped(lib, a);
    case OrKey(_, l, r) => CompileTyped(lib, l); CompileTyped(lib, r);
    case GroupKey(_, ks, _) => CompileListTyped(lib, None, ks);
    case MacroKey(w) => MacroNodeTyped(w.word.macro);
    case AllKey(_) =>
    case CondKey(_, _) =>
    case SetKey(_) =>
  }

  lemma {:induction false} CompileListTyped(lib: Library, left: Option<Node>, ks: seq<Key>)
    requires WellFormedList(lib, ks)
    requires ks != [] || left.Some?
    requires left.Some? ==> WellTyped(left.value)
    ensures WellTyped(CompileList(lib, left, ks))
    decreases ks, 0
  {
    if ks != [] {
      CompileTyped(lib, ks[0]);
      CompileListTyped(lib, Some(Join(left, Compile(lib, ks[0]))), ks[1..]);
    }
  }

  /** Every tree the compiler can return is well typed: each call node has
      exactly the arguments, in number and kind, its condition asks for. */
  lemma ParsedTreesAreTyped(lib: Library, toks: seq<Token>)
    requires ParseList(lib, None, toks).Ok?
    ensures WellTyped(ParseList(lib, None, toks).node)
  {
    var ks := ListSound(lib, None, toks);
    CompileListTyped(lib, None, ks);
  }

  /** Evaluating a well-typed tree gives a number, and never looks at the wrong
      member of the value union: the result does not depend on `pun`. */
  lemma {:induction false} TypedEvaluation(node: Node, q: Query, pun: Value -> int)
    requires WellTyped(node)
    ensures Evaluate(node, q).Number?
    ensures Evaluate(node, q) == Evaluate(node, q.(pun := pun))
  {
    match node
    case Call(fun, args) =>
      var q' := q.(pun := pun);
      assert seq(|args|, i requires 0 <= i < |args| => Evaluate(args[i], q))
          == seq(|args|, i requires 0 <= i < |args| => Evaluate(args[i], q'));
    case And(l, r) => TypedEvaluation(l, q, pun); TypedEvaluation(r, q, pun);
    case Or(l, r) => TypedEvaluation(l, q, pun); TypedEvaluation(r, q, pun);
    case Not(n) => TypedEvaluation(n, q, pun);
    case Val(_) =>
    case False =>
  }

  /** The `abort` in `search_run` is unreachable. */
  lemma SearchRunNeverAborts(lib: Library, toks: seq<Token>, q: Query)
    requires ParseList(lib, None, toks).Ok?
    ensures Evaluate(ParseList(lib, None, toks).node, q).Number?
  {
    ParsedTreesAreTyped(lib, toks);
    TypedEvaluation(ParseList(lib, None, toks).node, q, q.pun);
  }

  // ----- meaning -----

  predicate Holds(node: Node, q: Query) {
    NumberOf(Evaluate(node, q), q) != 0
  }

  lemma FlagHolds(flag: string, q: Query)
    ensures Holds(FlagNode(flag), q) <==> HasFlag(q, flag)
  {
    var args := [Val(Str(flag))];
    assert seq(|args|, i requires 0 <= i < |args| => Evaluate(args[i], q)) == [Str(flag)];
  }

  lemma MacroHolds(m: Macro, q: Query)
    requires m != UNKEYWORD
    ensures Holds(MacroNode(m), q) <==> MacroMeaning(m, q)
  {
    FlagHolds(MacroFlag(m), q);
    if m == NEW {
      FlagHolds("\\Seen", q);
      assert Holds(Not(FlagNode("\\Seen")), q) <==> !HasFlag(q, "\\Seen");
    } else if !Positive(m) {
      assert Holds(Not(FlagNode(MacroFlag(m))), q) <==> !HasFlag(q, MacroFlag(m));
    }
  }

  lemma CondHolds(lib: Library, c: Cond, args: seq<Token>, q: Query)
    requires GoodArgs(lib, ArgTypes(c), args)
    ensures Holds(CondNode(lib, c, args), q) <==> q.cond(c, ArgValues(lib, ArgTypes(c), args)) != 0
  {
    var vs := ArgValues(lib, ArgTypes(c), args);
    var nodes := ArgNodes(vs);
    assert seq(|nodes|, i requires 0 <= i < |nodes| => Evaluate(nodes[i], q)) == vs;
  }

  /** The reference tree of a key evaluates non-zero exactly when the key holds. */
  lemma {:induction false} CompileCorrect(lib: Library, k: Key, q: Query)
    requires WellFormed(lib, k) && Expandable(k)
    ensures Holds(Compile(lib, k), q) <==> Meaning(lib, k, q)
    decreases k, 1
  {
    match k
    case AllKey(_) =>
    case NotKey(_, a) => CompileCorrect(lib, a, q);
    case OrKey(_, l, r) => CompileCorrect(lib, l, q); CompileCorrect(lib, r, q);
    case GroupKey(_, ks, _) => CompileListCorrect(lib, None, ks, q);
    case MacroKey(w) => MacroHolds(w.word.macro, q);
    case CondKey(w, args) => CondHolds(lib, w.word.cond, args, q);
    case SetKey(w) =>
      var r := lib.messageSet(lib.isuid, w.text);
      if r.SetOk? {
        var args := [Val(Set(r.members))];
        assert seq(|args|, i requires 0 <= i < |args| => Evaluate(args[i], q)) == [Set(r.members)];
      }
  }

  lemma {:induction false} CompileListCorrect(lib: Library, left: Option<Node>, ks: seq<Key>, q: Query)
    requires WellFormedList(lib, ks) && ExpandableList(ks)
    requires ks != [] || left.Some?
    ensures Holds(CompileList(lib, left, ks), q) <==>
            (left.None? || Holds(left.value, q)) && MeaningAll(lib, ks, q)
    decreases ks, 0
  {
    if ks != [] {
      CompileCorrect(lib, ks[0], q);
      CompileListCorrect(lib, Some(Join(left, Compile(lib, ks[0]))), ks[1..], q);
    }
  }

  /** SEARCH end to end: a well-formed statement is parsed up to the first token
      after it, and its tree holds of a message exactly when all its keys do. */
  lemma SearchCorrect(lib: Library, ks: seq<Key>, rest: seq<Token>, q: Query)
    requires ks != [] && WellFormedList(lib, ks) && ExpandableList(ks)
    requires rest == [] || Closes(rest[0])
    ensures ParseList(lib, None, ListTokens(ks) + rest).Ok?
    ensures ParseList(lib, None, ListTokens(ks) + rest).rest == rest
    ensures Holds(ParseList(lib, None, ListTokens(ks) + rest).node, q) <==> MeaningAll(lib, ks, q)
  {
    ListComplete(lib, None, ks, rest);
    CompileListCorrect(lib, None, ks, q);
  }
}
