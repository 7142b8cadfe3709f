/** The recursive-descent SEARCH compiler as a function on token lists, and
    what it computes: exactly the well-formed key lists are accepted, each is
    turned into its reference tree, and macros behave as inline substitution. */
module SearchParser {
  import opened Text
  import opened SearchSyntax

  /** `Fail` stands for a NULL tree; it carries the error message if one was
      set.  `Abort` is the call of `abort` in `parse_equiv_key`. */
  datatype Parse =
    | Ok(node: Node, rest: seq<Token>)
    | Fail(message: Option<string>)
    | Abort

  datatype ArgsParse = ArgsOk(nodes: seq<Node>, rest: seq<Token>) | ArgsFail(message: string)

  const UNEXPECTED_END := Fail(Some("Unexpected end of statement"))

  // ----- termination measure: macro rank, then remaining tokens -----

  function TokenRank(t: Token): nat {
    match t.word
    case MacroWord(m) => MacroRank(m)
    case _ => 0
  }

  /** The deepest macro still ahead. */
  function MaxRank(toks: seq<Token>): nat {
    if toks == [] then 0
    else
      var r := MaxRank(toks[1..]);
      if TokenRank(toks[0]) > r then TokenRank(toks[0]) else r
  }

  lemma {:induction false} RankOfSuffix(toks: seq<Token>, k: nat)
    requires k <= |toks|
    ensures MaxRank(toks[k..]) <= MaxRank(toks)
  {
    if k > 0 {
      RankOfSuffix(toks[1..], k - 1);
      assert toks[1..][k - 1..] == toks[k..];
    } else {
      assert toks[0..] == toks;
    }
  }

  lemma {:induction false} RankOfConcat(a: seq<Token>, b: seq<Token>)
    ensures MaxRank(a) <= MaxRank(a + b) && MaxRank(b) <= MaxRank(a + b)
  {
    if a == [] {
      assert a + b == b;
    } else {
      RankOfConcat(a[1..], b);
      assert (a + b)[1..] == a[1..] + b;
    }
  }

  lemma {:induction false} RankBound(toks: seq<Token>, bound: nat)
    requires forall i :: 0 <= i < |toks| ==> TokenRank(toks[i]) <= bound
    ensures MaxRank(toks) <= bound
  {
    if toks != [] { RankBound(toks[1..], bound); }
  }

  /** Macros are defined only in terms of macros of lower rank. */
  lemma ExpansionRank(m: Macro)
    ensures MaxRank(Expansion(m)) < MacroRank(m)
  {
    RankBound(Expansion(m), MacroRank(m) - 1);
  }

  // ----- the parser -----

  /** `parse_search_key_list`, entered with `left` already parsed. */
  function ParseList(lib: Library, left: Option<Node>, toks: seq<Token>): (p: Parse)
    ensures p.Ok? ==> |p.rest| <= |toks| && p.rest == toks[|toks| - |p.rest|..]
    ensures p.Ok? ==> p.rest == [] || Closes(p.rest[0])
    decreases MaxRank(toks), |toks|, 2
  {
    if toks == [] || Closes(toks[0]) then
      match left
      case None => Fail(None)
      case Some(node) => Ok(node, toks)
    else
      match ParseKey(lib, toks)
      case Ok(node, rest) =>
        RankOfSuffix(toks, |toks| - |rest|);
        ParseList(lib, Some(Join(left, node)), rest)
      case Fail(msg) => Fail(msg)
      case Abort => Abort
  }

  function Join(left: Option<Node>, right: Node): Node {
    match left
    case None => right
    case Some(l) => And(l, right)
  }

  /** `parse_search_key`, with the current token at the head of `toks`. */
  function ParseKey(lib: Library, toks: seq<Token>): (p: Parse)
    requires toks != []
    ensures p.Ok? ==> |p.rest| < |toks| && p.rest == toks[|toks| - |p.rest|..]
    decreases MaxRank(toks), |toks|, 1
  {
    match toks[0].word
    case OpenWord => ParseGroup(lib, toks)
    case AllWord => Ok(Val(Number(1)), toks[1..])
    case NotWord => ParseNot(lib, toks)
    case OrWord => ParseOr(lib, toks)
    case MacroWord(m) =>
      ExpansionRank(m);
      (match ParseList(lib, None, Expansion(m))
      case Ok(node, _) => Ok(node, toks[1..])
      case Fail(_) => Abort
      case Abort => Abort)
    case CondWord(c) => ParseCond(lib, c, toks)
    case OtherWord => ParseSet(lib, toks)
  }

  /** The parenthesis branch; a missing `)` counts as unbalanced. */
  function ParseGroup(lib: Library, toks: seq<Token>): (p: Parse)
    requires toks != []
    ensures p.Ok? ==> |p.rest| < |toks| && p.rest == toks[|toks| - |p.rest|..]
    decreases MaxRank(toks), |toks|, 0
  {
    RankOfSuffix(toks, 1);
    if toks[1..] == [] then UNEXPECTED_END
    else
      match ParseList(lib, None, toks[1..])
      case Ok(node, rest) =>
        if rest == [] || rest[0].text != ")" then Fail(Some("Unbalanced parenthesis"))
        else Ok(node, rest[1..])
      case Fail(msg) => Fail(msg)
      case Abort => Abort
  }

  function ParseNot(lib: Library, toks: seq<Token>): (p: Parse)
    requires toks != []
    ensures p.Ok? ==> |p.rest| < |toks| && p.rest == toks[|toks| - |p.rest|..]
    decreases MaxRank(toks), |toks|, 0
  {
    RankOfSuffix(toks, 1);
    if toks[1..] == [] then UNEXPECTED_END
    else
      match ParseKey(lib, toks[1..])
      case Ok(node, rest) => Ok(Not(node), rest)
      case Fail(msg) => Fail(msg)
      case Abort => Abort
  }

  function ParseOr(lib: Library, toks: seq<Token>): (p: Parse)
    requires toks != []
    ensures p.Ok? ==> |p.rest| < |toks| && p.rest == toks[|toks| - |p.rest|..]
    decreases MaxRank(toks), |toks|, 0
  {
    RankOfSuffix(toks, 1);
    if toks[1..] == [] then UNEXPECTED_END
    else
      match ParseKey(lib, toks[1..])
      case Ok(left, rest) =>
        if rest == [] then Fail(Some("Too few args"))
        else
          RankOfSuffix(toks[1..], |toks[1..]| - |rest|);
          (match ParseKey(lib, rest)
          case Ok(right, rest') => Ok(Or(left, right), rest')
          case Fail(msg) => Fail(msg)
          case Abort => Abort)
      case Fail(msg) => Fail(msg)
      case Abort => Abort
  }

  /** `parse_simple_key` on a condition. */
  function ParseCond(lib: Library, c: Cond, toks: seq<Token>): (p: Parse)
    requires toks != []
    ensures p.Ok? ==> |p.rest| < |toks| && p.rest == toks[|toks| - |p.rest|..]
  {
    match ParseArgs(lib, ArgTypes(c), [], toks[1..])
    case ArgsOk(nodes, rest) => Ok(Call(CondInstr(c), nodes), rest)
    case ArgsFail(msg) => Fail(Some(msg))
  }

  /** The argument loop of `parse_simple_key`; `done` are the arguments so far. */
  function ParseArgs(lib: Library, types: seq<ArgType>, done: seq<Node>, toks: seq<Token>): (p: ArgsParse)
    ensures p.ArgsOk? ==> |p.rest| <= |toks| && p.rest == toks[|toks| - |p.rest|..]
    decreases types
  {
    if types == [] then ArgsOk(done, toks)
    else if |done| >= MAX_NODE_ARGS then ArgsFail("INTERNAL ERROR: too many arguments")
    else if toks == [] then ArgsFail("Not enough arguments for criterion")
    else
      match ArgValue(lib, types[0], toks[0].text)
      case Some(v) => ParseArgs(lib, types[1..], done + [Val(v)], toks[1..])
      case None => ArgsFail(ArgError(types[0]))
  }

  /** `parse_simple_key` on anything else: a message set. */
  function ParseSet(lib: Library, toks: seq<Token>): (p: Parse)
    requires toks != []
    ensures p.Ok? ==> |p.rest| < |toks| && p.rest == toks[|toks| - |p.rest|..]
  {
    match lib.messageSet(lib.isuid, toks[0].text)
    case SetOk(members) => Ok(Call(MsgsetInstr, [Val(Set(members))]), toks[1..])
    case SetBadSyntax => Fail(Some("Unknown search criterion"))
    case SetUnavailable => Ok(False, toks[1..])
  }

  // ----- the reference tree of a key -----

  function FlagNode(flag: string): Node {
    Call(CondInstr(KEYWORD), [Val(Str(flag))])
  }

  function MacroNode(m: Macro): Node {
    if m == NEW then And(FlagNode("\\Recent"), Not(FlagNode("\\Seen")))
    else if Positive(m) then FlagNode(MacroFlag(m))
    else Not(FlagNode(MacroFlag(m)))
  }

  function ArgNodes(vs: seq<Value>): seq<Node> {
    seq(|vs|, i requires 0 <= i < |vs| => Val(vs[i]))
  }

  function Compile(lib: Library, k: Key): Node
    requires WellFormed(lib, k)
    decreases k
  {
    match k
    case AllKey(_) => Val(Number(1))
    case NotKey(_, a) => Not(Compile(lib, a))
    case OrKey(_, l, r) => Or(Compile(lib, l), Compile(lib, r))
    case GroupKey(_, ks, _) => CompileList(lib, None, ks)
    case MacroKey(w) => MacroNode(w.word.macro)
    case CondKey(w, args) => CondNode(lib, w.word.cond, args)
    case SetKey(w) => SetNode(lib, w.text)
  }

  function CondNode(lib: Library, c: Cond, args: seq<Token>): Node
    requires GoodArgs(lib, ArgTypes(c), args)
  {
    Call(CondInstr(c), ArgNodes(ArgValues(lib, ArgTypes(c), args)))
  }

  function SetNode(lib: Library, text: string): Node {
    match lib.messageSet(lib.isuid, text)
    case SetOk(members) => Call(MsgsetInstr, [Val(Set(members))])
    case _ => False
  }

  /** Left-nested conjunction. */
  function CompileList(lib: Library, left: Option<Node>, ks: seq<Key>): Node
    requires WellFormedList(lib, ks)
    requires ks != [] || left.Some?
    decreases ks
  {
    if ks == [] then left.value
    else CompileList(lib, Some(Join(left, Compile(lib, ks[0]))), ks[1..])
  }

  // ----- every well-formed list is accepted -----

  /** The keys a macro stands for. */
  function MacroKeys(m: Macro): (ks: seq<Key>)
    requires m != UNKEYWORD
    ensures |ks| == 1
  {
    if m == NEW then [GroupKey(OPEN, [MacroKey(RECENT_TOKEN), MacroKey(UNSEEN_TOKEN)], CLOSE)]
    else if m == OLD then [NotKey(NOT_TOKEN, MacroKey(RECENT_TOKEN))]
    else if Positive(m) then [CondKey(KEYWORD_TOKEN, [FlagToken(MacroFlag(m))])]
    else [NotKey(NOT_TOKEN, CondKey(KEYWORD_TOKEN, [FlagToken(MacroFlag(m))]))]
  }

  lemma OneKey(lib: Library, left: Option<Node>, k: Key)
    requires WellFormed(lib, k) && !Closes(Tokens(k)[0])
    ensures WellFormedList(lib, [k])
    ensures CompileList(lib, left, [k]) == Join(left, Compile(lib, k))
    ensures ListTokens([k]) == Tokens(k)
    ensures Expandable(k) ==> ExpandableList([k])
    ensures MacroFree(k) ==> MacroFreeList([k])
  {
    assert [k][1..] == [];
  }

  lemma TwoKeys(lib: Library, k: Key, l: Key)
    requires WellFormed(lib, k) && !Closes(Tokens(k)[0])
    requires WellFormed(lib, l) && !Closes(Tokens(l)[0])
    ensures WellFormedList(lib, [k, l])
    ensures CompileList(lib, None, [k, l]) == And(Compile(lib, k), Compile(lib, l))
    ensures ListTokens([k, l]) == Tokens(k) + Tokens(l)
    ensures Expandable(k) && Expandable(l) ==> ExpandableList([k, l])
    ensures MacroFree(k) && MacroFree(l) ==> MacroFreeList([k, l])
  {
    assert [k, l][1..] == [l];
    OneKey(lib, Some(Compile(lib, k)), l);
  }

  lemma GroupOf(lib: Library, ks: seq<Key>)
    requires ks != [] && WellFormedList(lib, ks)
    ensures WellFormed(lib, GroupKey(OPEN, ks, CLOSE))
    ensures Compile(lib, GroupKey(OPEN, ks, CLOSE)) == CompileList(lib, None, ks)
    ensures !Closes(Tokens(GroupKey(OPEN, ks, CLOSE))[0])
    ensures MacroFreeList(ks) ==> MacroFree(GroupKey(OPEN, ks, CLOSE))
    ensures ExpandableList(ks) ==> Expandable(GroupKey(OPEN, ks, CLOSE))
  {
    ConcatAssoc([OPEN], ListTokens(ks), [CLOSE]);
    ConsDrop(OPEN, ListTokens(ks) + [CLOSE]);
  }

  lemma FlagKey(lib: Library, flag: string)
    ensures WellFormed(lib, CondKey(KEYWORD_TOKEN, [FlagToken(flag)]))
    ensures Compile(lib, CondKey(KEYWORD_TOKEN, [FlagToken(flag)])) == FlagNode(flag)
    ensures Tokens(CondKey(KEYWORD_TOKEN, [FlagToken(flag)])) == [KEYWORD_TOKEN, FlagToken(flag)]
  {
    assert ArgNodes(ArgValues(lib, [StringArg], [FlagToken(flag)])) == [Val(Str(flag))];
  }

  lemma NewKeysGood(lib: Library)
    ensures WellFormedList(lib, MacroKeys(NEW)) && ExpandableList(MacroKeys(NEW))
    ensures ListTokens(MacroKeys(NEW)) == Expansion(NEW)
    ensures CompileList(lib, None, MacroKeys(NEW)) == MacroNode(NEW)
  {
    var a, b := MacroKey(RECENT_TOKEN), MacroKey(UNSEEN_TOKEN);
    TwoKeys(lib, a, b);
    GroupOf(lib, [a, b]);
    OneKey(lib, None, GroupKey(OPEN, [a, b], CLOSE));
  }

  lemma MacroKeysGood(lib: Library, m: Macro)
    requires m != UNKEYWORD
    ensures WellFormedList(lib, MacroKeys(m)) && ExpandableList(MacroKeys(m))
    ensures ListTokens(MacroKeys(m)) == Expansion(m)
    ensures CompileList(lib, None, MacroKeys(m)) == MacroNode(m)
  {
    if m == NEW {
      NewKeysGood(lib);
    } else {
      FlagKey(lib, MacroFlag(m));
      OneKey(lib, None, MacroKeys(m)[0]);
    }
  }

  lemma {:induction false} ArgsComplete(lib: Library, types: seq<ArgType>, done: seq<Node>,
                                        args: seq<Token>, rest: seq<Token>)
    requires GoodArgs(lib, types, args)
    requires |done| + |types| <= MAX_NODE_ARGS
    ensures ParseArgs(lib, types, done, args + rest)
         == ArgsOk(done + ArgNodes(ArgValues(lib, types, args)), rest)
    decreases types
  {
    if types == [] {
      assert args + rest == rest;
      assert done + ArgNodes(ArgValues(lib, types, args)) == done;
    } else {
      var v := ArgValue(lib, types[0], args[0].text).value;
      assert (args + rest)[1..] == args[1..] + rest;
      ArgsComplete(lib, types[1..], done + [Val(v)], args[1..], rest);
      assert done + [Val(v)] + ArgNodes(ArgValues(lib, types[1..], args[1..]))
          == done + ArgNodes(ArgValues(lib, types, args));
    }
  }

  /** A well-formed key is parsed whole, whatever follows it. */
  lemma {:induction false} KeyComplete(lib: Library, k: Key, rest: seq<Token>)
    requires WellFormed(lib, k) && Expandable(k)
    ensures ParseKey(lib, Tokens(k) + rest) == Ok(Compile(lib, k), rest)
    decreases MaxRank(Tokens(k)), k, 1
  {
    match k
    case AllKey(w) => ConsDrop(w, rest);
    case NotKey(_, _) => NotComplete(lib, k, rest);
    case OrKey(_, _, _) => OrComplete(lib, k, rest);
    case GroupKey(_, _, _) => GroupComplete(lib, k, rest);
    case MacroKey(w) => MacroComplete(lib, k, rest);
    case CondKey(_, _) => CondComplete(lib, k, rest);
    case SetKey(w) => ConsDrop(w, rest);
  }

  lemma {:induction false} NotComplete(lib: Library, k: Key, rest: seq<Token>)
    requires k.NotKey? && WellFormed(lib, k) && Expandable(k)
    ensures (Tokens(k) + rest)[0] == k.word
    ensures ParseNot(lib, Tokens(k) + rest) == Ok(Compile(lib, k), rest)
    decreases MaxRank(Tokens(k)), k, 0
  {
    ConcatAssoc([k.word], Tokens(k.arg), rest);
    ConsDrop(k.word, Tokens(k.arg) + rest);
    RankOfConcat([k.word], Tokens(k.arg));
    KeyComplete(lib, k.arg, rest);
  }

  lemma {:induction false} OrComplete(lib: Library, k: Key, rest: seq<Token>)
    requires k.OrKey? && WellFormed(lib, k) && Expandable(k)
    ensures (Tokens(k) + rest)[0] == k.word
    ensures ParseOr(lib, Tokens(k) + rest) == Ok(Compile(lib, k), rest)
    decreases MaxRank(Tokens(k)), k, 0
  {
    var l, r := Tokens(k.left), Tokens(k.right);
    ConcatAssoc([k.word] + l, r, rest);
    ConcatAssoc([k.word], l, r + rest);
    ConsDrop(k.word, l + (r + rest));
    RankOfConcat([k.word] + l, r);
    RankOfConcat([k.word], l);
    KeyComplete(lib, k.left, r + rest);
    KeyComplete(lib, k.right, rest);
  }

  lemma {:induction false} GroupComplete(lib: Library, k: Key, rest: seq<Token>)
    requires k.GroupKey? && WellFormed(lib, k) && Expandable(k)
    ensures (Tokens(k) + rest)[0] == k.open
    ensures ParseGroup(lib, Tokens(k) + rest) == Ok(Compile(lib, k), rest)
    decreases MaxRank(Tokens(k)), k, 0
  {
    var ts := ListTokens(k.keys);
    ConcatAssoc([k.open] + ts, [k.close], rest);
    ConcatAssoc([k.open], ts, [k.close] + rest);
    ConsDrop(k.open, ts + ([k.close] + rest));
    ConsDrop(k.close, rest);
    RankOfConcat([k.open], ts);
    RankOfConcat([k.open] + ts, [k.close]);
    ListComplete(lib, None, k.keys, [k.close] + rest);
  }

  lemma {:induction false} MacroComplete(lib: Library, k: Key, rest: seq<Token>)
    requires k.MacroKey? && WellFormed(lib, k) && Expandable(k)
    ensures ParseKey(lib, Tokens(k) + rest) == Ok(Compile(lib, k), rest)
    decreases MaxRank(Tokens(k)), k, 0
  {
    var m := k.word.word.macro;
    ConsDrop(k.word, rest);
    MacroKeysGood(lib, m);
    ExpansionRank(m);
    assert MaxRank(Tokens(k)) >= MacroRank(m);
    ListComplete(lib, None, MacroKeys(m), []);
    EmptyConcat(Expansion(m));
  }

  lemma CondComplete(lib: Library, k: Key, rest: seq<Token>)
    requires k.CondKey? && WellFormed(lib, k)
    ensures (Tokens(k) + rest)[0] == k.word
    ensures ParseCond(lib, k.word.word.cond, Tokens(k) + rest) == Ok(Compile(lib, k), rest)
  {
    var types := ArgTypes(k.word.word.cond);
    ConcatAssoc([k.word], k.args, rest);
    ConsDrop(k.word, k.args + rest);
    ArgsComplete(lib, types, [], k.args, rest);
    EmptyConcat(ArgNodes(ArgValues(lib, types, k.args)));
  }

  /** A list of keys is parsed up to the end of the statement or the next
      token starting with `)`. */
  lemma {:induction false} ListComplete(lib: Library, left: Option<Node>, ks: seq<Key>, rest: seq<Token>)
    requires WellFormedList(lib, ks) && ExpandableList(ks)
    requires ks != [] || left.Some?
    requires rest == [] || Closes(rest[0])
    ensures ParseList(lib, left, ListTokens(ks) + rest) == Ok(CompileList(lib, left, ks), rest)
    decreases MaxRank(ListTokens(ks)), ks, 0
  {
    if ks == [] {
      assert ListTokens(ks) + rest == rest;
    } else {
      var more := ListTokens(ks[1..]) + rest;
      ConcatAssoc(Tokens(ks[0]), ListTokens(ks[1..]), rest);
      RankOfConcat(Tokens(ks[0]), ListTokens(ks[1..]));
      KeyComplete(lib, ks[0], more);
      ListComplete(lib, Some(Join(left, Compile(lib, ks[0]))), ks[1..], rest);
    }
  }

  // ----- nothing else is accepted -----

  lemma {:induction false} ArgsSound(lib: Library, types: seq<ArgType>, done: seq<Node>, toks: seq<Token>)
    requires ParseArgs(lib, types, done, toks).ArgsOk?
    ensures |types| <= |toks|
    ensures GoodArgs(lib, types, toks[..|types|])
    ensures ParseArgs(lib, types, done, toks)
         == ArgsOk(done + ArgNodes(ArgValues(lib, types, toks[..|types|])), toks[|types|..])
    decreases types
  {
    if types == [] {
      assert done + ArgNodes(ArgValues(lib, types, toks[..0])) == done;
    } else {
      var v := ArgValue(lib, types[0], toks[0].text).value;
      ArgsSound(lib, types[1..], done + [Val(v)], toks[1..]);
      var args, more := toks[..|types|], toks[1..][..|types| - 1];
      assert args == [toks[0]] + more;
      assert toks[1..][|types| - 1..] == toks[|types|..];
      assert done + [Val(v)] + ArgNodes(ArgValues(lib, types[1..], more))
          == done + ArgNodes(ArgValues(lib, types, args));
    }
  }

  /** Whatever `parse_search_key` accepts is the text of a well-formed key, and
      the tree is that key's reference tree. */
  lemma {:induction false} KeySound(lib: Library, toks: seq<Token>) returns (k: Key)
    requires toks != [] && ParseKey(lib, toks).Ok?
    ensures WellFormed(lib, k) && Expandable(k)
    ensures toks == Tokens(k) + ParseKey(lib, toks).rest
    ensures ParseKey(lib, toks).node == Compile(lib, k)
    decreases MaxRank(toks), |toks|, 1
  {
    var w := toks[0];
    HeadTail(toks);
    match w.word
    case OpenWord => k := GroupSound(lib, toks);
    case AllWord => k := AllKey(w);
    case NotWord => k := NotSound(lib, toks);
    case OrWord => k := OrSound(lib, toks);
    case MacroWord(m) =>
      k := MacroKey(w);
      if m == UNKEYWORD {
        UnkeywordExpansionFails(lib);
      } else {
        MacroParses(lib, m);
      }
    case CondWord(c) => k := CondSound(lib, c, toks);
    case OtherWord => k := SetKey(w);
  }

  lemma {:induction false} GroupSound(lib: Library, toks: seq<Token>) returns (k: Key)
    requires toks != [] && toks[0].word == OpenWord && ParseGroup(lib, toks).Ok?
    ensures WellFormed(lib, k) && Expandable(k)
    ensures toks == Tokens(k) + ParseGroup(lib, toks).rest
    ensures ParseGroup(lib, toks).node == Compile(lib, k)
    decreases MaxRank(toks), |toks|, 0
  {
    RankOfSuffix(toks, 1);
    var ks := ListSound(lib, None, toks[1..]);
    var rest := ParseList(lib, None, toks[1..]).rest;
    k := GroupKey(toks[0], ks, rest[0]);
    HeadTail(toks);
    HeadTail(rest);
    ConcatAssoc([toks[0]], ListTokens(ks), rest);
    ConcatAssoc([toks[0]] + ListTokens(ks), [rest[0]], rest[1..]);
  }

  lemma {:induction false} NotSound(lib: Library, toks: seq<Token>) returns (k: Key)
    requires toks != [] && toks[0].word == NotWord && ParseNot(lib, toks).Ok?
    ensures WellFormed(lib, k) && Expandable(k)
    ensures toks == Tokens(k) + ParseNot(lib, toks).rest
    ensures ParseNot(lib, toks).node == Compile(lib, k)
    decreases MaxRank(toks), |toks|, 0
  {
    RankOfSuffix(toks, 1);
    var a := KeySound(lib, toks[1..]);
    k := NotKey(toks[0], a);
    HeadTail(toks);
    ConcatAssoc([toks[0]], Tokens(a), ParseKey(lib, toks[1..]).rest);
  }

  lemma {:induction false} OrSound(lib: Library, toks: seq<Token>) returns (k: Key)
    requires toks != [] && toks[0].word == OrWord && ParseOr(lib, toks).Ok?
    ensures WellFormed(lib, k) && Expandable(k)
    ensures toks == Tokens(k) + ParseOr(lib, toks).rest
    ensures ParseOr(lib, toks).node == Compile(lib, k)
    decreases MaxRank(toks), |toks|, 0
  {
    RankOfSuffix(toks, 1);
    var l := KeySound(lib, toks[1..]);
    var rest := ParseKey(lib, toks[1..]).rest;
    RankOfSuffix(toks[1..], |toks[1..]| - |rest|);
    var r := KeySound(lib, rest);
    k := OrKey(toks[0], l, r);
    HeadTail(toks);
    ConcatAssoc([toks[0]], Tokens(l), rest);
    ConcatAssoc([toks[0]] + Tokens(l), Tokens(r), ParseKey(lib, rest).rest);
  }

  lemma CondSound(lib: Library, c: Cond, toks: seq<Token>) returns (k: Key)
    requires toks != [] && toks[0].word == CondWord(c) && ParseCond(lib, c, toks).Ok?
    ensures WellFormed(lib, k) && Expandable(k)
    ensures toks == Tokens(k) + ParseCond(lib, c, toks).rest
    ensures ParseCond(lib, c, toks).node == Compile(lib, k)
  {
    var more := toks[1..];
    ArgsSound(lib, ArgTypes(c), [], more);
    var args := more[..|ArgTypes(c)|];
    k := CondKey(toks[0], args);
    HeadTail(toks);
    TakeDrop(more, |ArgTypes(c)|);
    ConcatAssoc([toks[0]], args, more[|ArgTypes(c)|..]);
    EmptyConcat(ArgNodes(ArgValues(lib, ArgTypes(c), args)));
  }

  lemma {:induction false} ListSound(lib: Library, left: Option<Node>, toks: seq<Token>) returns (ks: seq<Key>)
    requires ParseList(lib, left, toks).Ok?
    ensures WellFormedList(lib, ks) && ExpandableList(ks)
    ensures ks != [] || left.Some?
    ensures toks == ListTokens(ks) + ParseList(lib, left, toks).rest
    ensures ParseList(lib, left, toks).node == CompileList(lib, left, ks)
    decreases MaxRank(toks), |toks|, 2
  {
    if toks == [] || Closes(toks[0]) {
      ks := [];
    } else {
      var k := KeySound(lib, toks);
      var p := ParseKey(lib, toks);
      RankOfSuffix(toks, |toks| - |p.rest|);
      var more := ListSound(lib, Some(Join(left, p.node)), p.rest);
      ks := [k] + more;
      assert ks[1..] == more;
      ConcatAssoc(Tokens(k), ListTokens(more), ParseList(lib, left, toks).rest);
    }
  }

  lemma MacroParses(lib: Library, m: Macro)
    requires m != UNKEYWORD
    ensures ParseList(lib, None, Expansion(m)) == Ok(MacroNode(m), [])
  {
    MacroKeysGood(lib, m);
    ListComplete(lib, None, MacroKeys(m), []);
    EmptyConcat(Expansion(m));
  }

  lemma KeywordAlone(lib: Library)
    ensures ParseKey(lib, [KEYWORD_TOKEN]) == Fail(Some("Not enough arguments for criterion"))
  {
    assert [KEYWORD_TOKEN][1..] == [];
  }

  /** `UNKEYWORD` expands to a `KEYWORD` without its argument. */
  lemma UnkeywordExpansionFails(lib: Library)
    ensures ParseList(lib, None, Expansion(UNKEYWORD)) == Fail(Some("Not enough arguments for criterion"))
  {
    KeywordAlone(lib);
    assert Expansion(UNKEYWORD) == [NOT_TOKEN] + [KEYWORD_TOKEN];
    ConsDrop(NOT_TOKEN, [KEYWORD_TOKEN]);
    assert ParseNot(lib, [NOT_TOKEN] + [KEYWORD_TOKEN]) == ParseKey(lib, [KEYWORD_TOKEN]);
  }

  /** A statement is the text of these keys. */
  predicate Writes(lib: Library, ks: seq<Key>, toks: seq<Token>) {
    ks != [] && WellFormedList(lib, ks) && ExpandableList(ks) && toks == ListTokens(ks)
  }

  /** The language of the SEARCH compiler: a statement compiles to a tree if and only
      if it is the text of a non-empty well-formed key list without `UNKEYWORD`, and
      the tree is that of those keys. */
  lemma AcceptsExactlyKeyLists(lib: Library, toks: seq<Token>, node: Node)
    ensures ParseList(lib, None, toks) == Ok(node, []) <==>
            exists ks :: Writes(lib, ks, toks) && node == CompileList(lib, None, ks)
  {
    if ParseList(lib, None, toks) == Ok(node, []) {
      var ks := ListSound(lib, None, toks);
      EmptyConcat(ListTokens(ks));
      assert Writes(lib, ks, toks);
    }
    if ks :| Writes(lib, ks, toks) && node == CompileList(lib, None, ks) {
      ListComplete(lib, None, ks, []);
      EmptyConcat(ListTokens(ks));
    }
  }

  // ----- macros are inline substitution -----

  lemma MacroKeysShape(m: Macro)
    requires m != UNKEYWORD
    ensures ExpandableList(MacroKeys(m)) && ListTokens(MacroKeys(m)) == Expansion(m)
  {
    var lib := Library(false, (_, _) => SetBadSyntax, _ => None, _ => None, _ => None);
    MacroKeysGood(lib, m);
  }

  /** Replace every macro by its parenthesised expansion, all the way down. */
  function Inline(k: Key): Key
    requires Expandable(k)
    decreases MaxRank(Tokens(k)), k, 1
  {
    match k
    case NotKey(w, a) =>
      RankOfConcat([w], Tokens(a));
      NotKey(w, Inline(a))
    case OrKey(w, l, r) =>
      RankOfConcat([w] + Tokens(l), Tokens(r));
      RankOfConcat([w], Tokens(l));
      OrKey(w, Inline(l), Inline(r))
    case GroupKey(o, ks, c) =>
      RankOfConcat([o] + ListTokens(ks), [c]);
      RankOfConcat([o], ListTokens(ks));
      GroupKey(o, InlineList(ks), c)
    case MacroKey(w) =>
      if w.word.MacroWord? then
        MacroKeysShape(w.word.macro);
        ExpansionRank(w.word.macro);
        GroupKey(OPEN, InlineList(MacroKeys(w.word.macro)), CLOSE)
      else k
    case _ => k
  }

  function InlineList(ks: seq<Key>): (r: seq<Key>)
    requires ExpandableList(ks)
    ensures |r| == |ks|
    decreases MaxRank(ListTokens(ks)), ks, 0
  {
    if ks == [] then []
    else
      RankOfConcat(Tokens(ks[0]), ListTokens(ks[1..]));
      [Inline(ks[0])] + InlineList(ks[1..])
  }

  predicate MacroFree(k: Key)
    decreases k
  {
    match k
    case NotKey(_, a) => MacroFree(a)
    case OrKey(_, l, r) => MacroFree(l) && MacroFree(r)
    case GroupKey(_, ks, _) => MacroFreeList(ks)
    case MacroKey(_) => false
    case _ => true
  }

  predicate MacroFreeList(ks: seq<Key>)
    decreases ks
  {
    ks == [] || (MacroFree(ks[0]) && MacroFreeList(ks[1..]))
  }

  lemma {:induction false} InlineKeyGood(lib: Library, k: Key)
    requires WellFormed(lib, k) && Expandable(k)
    ensures WellFormed(lib, Inline(k)) && MacroFree(Inline(k))
    ensures Compile(lib, Inline(k)) == Compile(lib, k)
    ensures Closes(Tokens(Inline(k))[0]) ==> Closes(Tokens(k)[0])
    decreases MaxRank(Tokens(k)), k, 1
  {
    match k
    case NotKey(w, a) =>
      RankOfConcat([w], Tokens(a));
      InlineKeyGood(lib, a);
    case OrKey(w, l, r) =>
      RankOfConcat([w] + Tokens(l), Tokens(r));
      RankOfConcat([w], Tokens(l));
      InlineKeyGood(lib, l);
      InlineKeyGood(lib, r);
    case GroupKey(o, ks, c) =>
      RankOfConcat([o] + ListTokens(ks), [c]);
      RankOfConcat([o], ListTokens(ks));
      InlineListGood(lib, None, ks);
    case MacroKey(w) => InlineMacroGood(lib, w);
    case AllKey(_) =>
    case CondKey(_, _) =>
    case SetKey(_) =>
  }

  lemma {:induction false} InlineMacroGood(lib: Library, w: Token)
    requires w.word.MacroWord? && w.word.macro != UNKEYWORD
    ensures WellFormed(lib, Inline(MacroKey(w))) && MacroFree(Inline(MacroKey(w)))
    ensures Compile(lib, Inline(MacroKey(w))) == MacroNode(w.word.macro)
    ensures !Closes(Tokens(Inline(MacroKey(w)))[0])
    decreases MaxRank([w]), MacroKey(w), 0
  {
    var ks := MacroKeys(w.word.macro);
    MacroKeysGood(lib, w.word.macro);
    ExpansionRank(w.word.macro);
    InlineListGood(lib, None, ks);
    GroupOf(lib, InlineList(ks));
  }

  lemma {:induction false} InlineListGood(lib: Library, left: Option<Node>, ks: seq<Key>)
    requires WellFormedList(lib, ks) && ExpandableList(ks)
    ensures WellFormedList(lib, InlineList(ks)) && MacroFreeList(InlineList(ks))
    ensures ks != [] || left.Some? ==> CompileList(lib, left, InlineList(ks)) == CompileList(lib, left, ks)
    decreases MaxRank(ListTokens(ks)), ks, 0
  {
    if ks != [] {
      RankOfConcat(Tokens(ks[0]), ListTokens(ks[1..]));
      InlineKeyGood(lib, ks[0]);
      InlineListGood(lib, Some(Join(left, Compile(lib, ks[0]))), ks[1..]);
      ConsDrop(Inline(ks[0]), InlineList(ks[1..]));
    }
  }

  lemma {:induction false} MacroFreeExpandable(k: Key)
    requires MacroFree(k)
    ensures Expandable(k)
    decreases k, 1
  {
    match k
    case NotKey(_, a) => MacroFreeExpandable(a);
    case OrKey(_, l, r) => MacroFreeExpandable(l); MacroFreeExpandable(r);
    case GroupKey(_, ks, _) => MacroFreeListExpandable(ks);
    case _ =>
  }

  lemma {:induction false} MacroFreeListExpandable(ks: seq<Key>)
    requires MacroFreeList(ks)
    ensures ExpandableList(ks)
    decreases ks, 0
  {
    if ks != [] {
      MacroFreeExpandable(ks[0]);
      MacroFreeListExpandable(ks[1..]);
    }
  }

  /** Swapping token buffers is inline substitution: every accepted statement
      compiles to the tree of the statement in which each macro has been
      replaced by its parenthesised expansion. */
  lemma MacrosAreInlineSubstitution(lib: Library, toks: seq<Token>) returns (ks: seq<Key>)
    requires ParseList(lib, None, toks).Ok?
    ensures WellFormedList(lib, ks) && ExpandableList(ks) && MacroFreeList(InlineList(ks))
    ensures toks == ListTokens(ks) + ParseList(lib, None, toks).rest
    ensures ParseList(lib, None, ListTokens(InlineList(ks)) + ParseList(lib, None, toks).rest)
         == ParseList(lib, None, toks)
  {
    ks := ListSound(lib, None, toks);
    InlineListGood(lib, None, ks);
    MacroFreeListExpandable(InlineList(ks));
    ListComplete(lib, None, InlineList(ks), ParseList(lib, None, toks).rest);
  }
}
