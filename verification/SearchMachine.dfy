/** The SEARCH command as it runs: a parse buffer whose token cursor and token
    buffer are changed in place, and the loop over the mailbox. */
module SearchMachine {
  import opened Text
  import opened SearchSyntax
  import opened SearchParser
  import opened SearchEval

  /** What a parse function returns: a tree, NULL, or no return at all. */
  datatype Outcome = Tree(node: Node) | Null | Aborted

  datatype Reply =
    | Bad(text: string)
    | No(text: string)
    | Found(numbers: seq<nat>)
    | Died
    | NullToken

  /** A message as `do_search` sees it; `available` is the success of
      `mu_mailbox_get_message`. */
  datatype Message = Message(available: bool, uid: nat, query: Query)

  /** One turn of the list loop. */
  lemma ListStep(lib: Library, left: Option<Node>, toks: seq<Token>, p: Parse)
    requires toks != [] && !Closes(toks[0]) && p == ParseKey(lib, toks)
    ensures p.Ok? ==> ParseList(lib, left, toks) == ParseList(lib, Some(Join(left, p.node)), p.rest)
    ensures p.Ok? ==> MaxRank(p.rest) <= MaxRank(toks)
    ensures !p.Ok? ==> ParseList(lib, left, toks) == p
  {
    if p.Ok? {
      RankOfSuffix(toks, |toks| - |p.rest|);
    }
  }

  /** `struct parsebuf`. */
  class ParseBuf {
    const lib: Library
    var tok: seq<Token>
    var arg: nat
    var token: Option<Token>
    var errMesg: Option<string>

    ghost predicate Valid()
      reads this
    {
      && arg > 0
      && (token.None? <==> arg > |tok|)
      && (token.Some? ==> token.value == tok[arg - 1])
    }

    /** The current token and everything after it. */
    ghost function Remaining(): (r: seq<Token>)
      requires Valid()
      reads this
      ensures token.None? <==> r == []
      ensures token.Some? ==> r[0] == token.value
    {
      if token.None? then [] else tok[arg - 1..]
    }

    constructor (lib: Library, tok: seq<Token>, arg: nat)
      ensures this.lib == lib && this.tok == tok && this.arg == arg && errMesg == None
    {
      this.lib, this.tok, this.arg := lib, tok, arg;
      token, errMesg := None, None;
    }

    /** `parse_gettoken`, anywhere. */
    method GetToken(req: bool) returns (ok: bool)
      modifies this`arg, this`token, this`errMesg
      ensures ok <==> !req || old(arg) < |tok|
      ensures ok ==> Valid() && arg == old(arg) + 1 && errMesg == old(errMesg)
      ensures !ok ==> errMesg == Some("Unexpected end of statement")
    {
      if req && arg >= |tok| {
        errMesg := Some("Unexpected end of statement");
        return false;
      }
      token := if arg < |tok| then Some(tok[arg]) else None;
      arg := arg + 1;
      return true;
    }

    /** `parse_gettoken` with a current token: move past it. */
    method Advance(req: bool) returns (ok: bool)
      requires Valid() && token.Some?
      modifies this`arg, this`token, this`errMesg
      ensures ok <==> !req || old(Remaining())[1..] != []
      ensures ok ==> Valid() && Remaining() == old(Remaining())[1..] && errMesg == old(errMesg)
      ensures !ok ==> errMesg == Some("Unexpected end of statement")
    {
      assert Remaining()[1..] == tok[arg..];
      ok := GetToken(req);
    }

    /** The state a parse function leaves behind, in terms of the parse of the
        tokens it was given. */
    ghost predicate Agrees(r: Outcome, p: Parse, tok0: seq<Token>)
      reads this
    {
      match p
      case Ok(node, rest) =>
        r == Tree(node) && Valid() && tok == tok0 && Remaining() == rest && errMesg == None
      case Fail(msg) => r == Null && errMesg == msg
      case Abort => r == Aborted
    }

    /** `parse_search_key_list`. */
    method ParseSearchKeyList() returns (r: Outcome)
      requires Valid() && errMesg == None
      modifies this
      ensures Agrees(r, ParseList(lib, None, old(Remaining())), old(tok))
      decreases MaxRank(Remaining()), |Remaining()|, 2
    {
      ghost var start := Remaining();
      ghost var rem := start;
      ghost var goal := ParseList(lib, None, start);
      var leftarg: Option<Node> := None;
      while token.Some? && !Closes(token.value)
        invariant Valid() && tok == old(tok) && errMesg == None && rem == Remaining()
        invariant |rem| <= |start| && MaxRank(rem) <= MaxRank(start)
        invariant ParseList(lib, leftarg, rem) == goal
        decreases |rem|
      {
        ListStep(lib, leftarg, rem, ParseKey(lib, rem));
        var rightarg := ParseSearchKey();
        if !rightarg.Tree? {
          return rightarg;
        }
        rem := Remaining();
        leftarg := Some(Join(leftarg, rightarg.node));
      }
      r := if leftarg.Some? then Tree(leftarg.value) else Null;
    }

    /** `parse_search_key`. */
    method ParseSearchKey() returns (r: Outcome)
      requires Valid() && errMesg == None && token.Some?
      modifies this
      ensures Agrees(r, ParseKey(lib, old(Remaining())), old(tok))
      decreases MaxRank(Remaining()), |Remaining()|, 1
    {
      match token.value.word
      case OpenWord => r := ParseGroupKey();
      case AllWord =>
        var _ := Advance(false);
        r := Tree(Val(Number(1)));
      case NotWord => r := ParseNotKey();
      case OrWord => r := ParseOrKey();
      case MacroWord(m) => r := ParseEquivKey(m);
      case CondWord(c) => r := ParseCondition(c);
      case OtherWord => r := ParseMessageSet();
    }

    method ParseGroupKey() returns (r: Outcome)
      requires Valid() && errMesg == None && token.Some?
      modifies this
      ensures Agrees(r, ParseGroup(lib, old(Remaining())), old(tok))
      decreases MaxRank(Remaining()), |Remaining()|, 0
    {
      RankOfSuffix(Remaining(), 1);
      var ok := Advance(true);
      if !ok { return Null; }
      r := ParseSearchKeyList();
      if r.Tree? {
        if token.None? || token.value.text != ")" {
          errMesg := Some("Unbalanced parenthesis");
          return Null;
        }
        ok := Advance(false);
      }
    }

    method ParseNotKey() returns (r: Outcome)
      requires Valid() && errMesg == None && token.Some?
      modifies this
      ensures Agrees(r, ParseNot(lib, old(Remaining())), old(tok))
      decreases MaxRank(Remaining()), |Remaining()|, 0
    {
      RankOfSuffix(Remaining(), 1);
      var ok := Advance(true);
      if !ok { return Null; }
      r := ParseSearchKey();
      if r.Tree? {
        r := Tree(Not(r.node));
      }
    }

    method ParseOrKey() returns (r: Outcome)
      requires Valid() && errMesg == None && token.Some?
      modifies this
      ensures Agrees(r, ParseOr(lib, old(Remaining())), old(tok))
      decreases MaxRank(Remaining()), |Remaining()|, 0
    {
      RankOfSuffix(Remaining(), 1);
      var ok := Advance(true);
      if !ok { return Null; }
      ghost var first := Remaining();
      var left := ParseSearchKey();
      if !left.Tree? { return left; }
      if token.None? {
        errMesg := Some("Too few args");
        return Null;
      }
      RankOfSuffix(first, |first| - |Remaining()|);
      var right := ParseSearchKey();
      if !right.Tree? { return right; }
      r := Tree(Or(left.node, right.node));
    }

    /** `parse_equiv_key` on a macro: swap in the expansion, parse it, and swap
        the original buffer back. */
    method ParseEquivKey(m: Macro) returns (r: Outcome)
      requires Valid() && errMesg == None && token.Some? && token.value.word == MacroWord(m)
      modifies this
      ensures Agrees(r, ParseKey(lib, old(Remaining())), old(tok))
      decreases MaxRank(Remaining()), |Remaining()|, 0
    {
      ExpansionRank(m);
      var saveArg, saveTok := arg, tok;
      tok := Expansion(m);
      arg := 0;
      var _ := GetToken(false);
      r := ParseSearchKeyList();
      if !r.Tree? { return Aborted; }
      arg := saveArg;
      tok := saveTok;
      var _ := GetToken(false);
      assert old(tok)[old(arg) - 1..][1..] == tok[old(arg)..];
    }

    /** `parse_simple_key` on one of the conditions of `condlist`. */
    method ParseCondition(c: Cond) returns (r: Outcome)
      requires Valid() && errMesg == None && token.Some?
      modifies this
      ensures Agrees(r, ParseCond(lib, c, old(Remaining())), old(tok))
    {
      var _ := Advance(false);
      var args := ParseArguments(ArgTypes(c));
      r := if args.Some? then Tree(Call(CondInstr(c), args.value)) else Null;
    }

    ghost predicate AgreesOnArgs(r: Option<seq<Node>>, p: ArgsParse, tok0: seq<Token>)
      reads this
    {
      match p
      case ArgsOk(nodes, rest) =>
        r == Some(nodes) && Valid() && tok == tok0 && Remaining() == rest && errMesg == None
      case ArgsFail(msg) => r == None && errMesg == Some(msg)
    }

    /** The loop over the argument types. */
    method ParseArguments(types: seq<ArgType>) returns (r: Option<seq<Node>>)
      requires Valid() && errMesg == None
      modifies this
      ensures AgreesOnArgs(r, ParseArgs(lib, types, [], old(Remaining())), old(tok))
    {
      ghost var goal := ParseArgs(lib, types, [], Remaining());
      var args: seq<Node> := [];
      var t := types;
      while t != []
        invariant Valid() && tok == old(tok) && errMesg == None
        invariant ParseArgs(lib, t, args, Remaining()) == goal
        decreases |t|
      {
        if |args| >= MAX_NODE_ARGS {
          errMesg := Some("INTERNAL ERROR: too many arguments");
          return None;
        }
        if token.None? {
          errMesg := Some("Not enough arguments for criterion");
          return None;
        }
        var v := ArgValue(lib, t[0], token.value.text);
        if v.None? {
          errMesg := Some(ArgError(t[0]));
          return None;
        }
        args := args + [Val(v.value)];
        t := t[1..];
        var _ := Advance(false);
      }
      r := Some(args);
    }

    /** `parse_simple_key` on a message set. */
    method ParseMessageSet() returns (r: Outcome)
      requires Valid() && errMesg == None && token.Some?
      modifies this
      ensures Agrees(r, ParseSet(lib, old(Remaining())), old(tok))
    {
      match lib.messageSet(lib.isuid, token.value.text)
      case SetOk(members) =>
        var _ := Advance(false);
        r := Tree(Call(MsgsetInstr, [Val(Set(members))]));
      case SetBadSyntax =>
        errMesg := Some("Unknown search criterion");
        r := Null;
      case SetUnavailable =>
        var _ := Advance(false);
        r := Tree(False);
    }
  }

  /** The numbers SEARCH must report for messages 1, ..., `|msgs|`. */
  function Matches(tree: Node, msgs: seq<Message>, isuid: bool): (r: seq<nat>) {
    if msgs == [] then []
    else
      var last := msgs[|msgs| - 1];
      Matches(tree, msgs[..|msgs| - 1], isuid) +
      (if last.available && Holds(tree, last.query) then [if isuid then last.uid else |msgs|] else [])
  }

  /** `do_search`. */
  method DoSearch(tree: Node, msgs: seq<Message>, isuid: bool) returns (numbers: seq<nat>)
    requires WellTyped(tree)
    ensures numbers == Matches(tree, msgs, isuid)
  {
    numbers := [];
    var msgno := 1;
    assert msgs[..0] == [];
    while msgno <= |msgs|
      invariant 1 <= msgno <= |msgs| + 1
      invariant numbers == Matches(tree, msgs[..msgno - 1], isuid)
    {
      var m := msgs[msgno - 1];
      assert msgs[..msgno][..msgno - 1] == msgs[..msgno - 1];
      if m.available {
        var v := Evaluate(tree, m.query);
        TypedEvaluation(tree, m.query, m.query.pun);
        if v.number != 0 {
          numbers := numbers + [if isuid then m.uid else msgno];
        }
      }
      msgno := msgno + 1;
    }
    assert msgs[..|msgs|] == msgs;
  }

  /** A message number is reported exactly when it is a message the statement's
      keys all hold of. */
  lemma {:induction false} MatchesExactly(lib: Library, ks: seq<Key>, msgs: seq<Message>, n: nat)
    requires ks != [] && WellFormedList(lib, ks) && ExpandableList(ks)
    ensures n in Matches(CompileList(lib, None, ks), msgs, false) <==>
            1 <= n <= |msgs| && msgs[n - 1].available && MeaningAll(lib, ks, msgs[n - 1].query)
  {
    if msgs != [] {
      MatchesExactly(lib, ks, msgs[..|msgs| - 1], n);
      CompileListCorrect(lib, None, ks, msgs[|msgs| - 1].query);
    }
  }

  /** Message numbers up to `n` in ascending order, none twice. */
  predicate Ascending(r: seq<nat>, n: nat) {
    && (forall i :: 0 <= i < |r| ==> 1 <= r[i] <= n)
    && (forall i, j :: 0 <= i < j < |r| ==> r[i] < r[j])
  }

  /** Numbers are reported in ascending order. */
  lemma {:induction false} MatchesAscend(tree: Node, msgs: seq<Message>)
    ensures Ascending(Matches(tree, msgs, false), |msgs|)
  {
    if msgs != [] { MatchesAscend(tree, msgs[..|msgs| - 1]); }
  }

  /** UID SEARCH reports the UIDs of the messages SEARCH reports, in the same order. */
  lemma {:induction false} UidMatches(tree: Node, msgs: seq<Message>)
    ensures var r, u := Matches(tree, msgs, false), Matches(tree, msgs, true);
      && |u| == |r|
      && (forall i :: 0 <= i < |r| ==> 1 <= r[i] <= |msgs| && u[i] == msgs[r[i] - 1].uid)
  {
    if msgs != [] {
      var front := msgs[..|msgs| - 1];
      UidMatches(tree, front);
      var r, r0 := Matches(tree, msgs, false), Matches(tree, front, false);
      forall i | 0 <= i < |r0| ensures r[i] == r0[i] && msgs[r[i] - 1] == front[r0[i] - 1] {
      }
    }
  }

  /** Where a command has no criteria, or CHARSET no name, a null token is compared. */
  predicate LacksToken(args: seq<string>) {
    args == [] || (CaseEq(args[0], "CHARSET") && |args| == 1)
  }

  /** The criteria, after an optional charset specification. */
  function Criteria(args: seq<string>): seq<string>
    requires !LacksToken(args)
  {
    if CaseEq(args[0], "CHARSET") then args[2..] else args
  }

  predicate BadCharset(args: seq<string>, charsetKnown: string -> bool)
    requires !LacksToken(args)
  {
    CaseEq(args[0], "CHARSET") && !CaseEq(args[1], "US-ASCII") && !charsetKnown(args[1])
  }

  /** The answer to a SEARCH command in terms of the compiler function. */
  function ReplyTo(p: Parse, msgs: seq<Message>, isuid: bool): Reply {
    match p
    case Ok(tree, rest) =>
      if rest == [] then Found(Matches(tree, msgs, isuid)) else Bad("Junk at the end of statement")
    case Fail(msg) => Bad(if msg.Some? then msg.value else "Parse error")
    case Abort => Died
  }

  /** `imap4d_search0`, from the first argument on; `charsetKnown` is the answer
      of `available_charset`. */
  method Search0(lib: Library, args: seq<string>, charsetKnown: string -> bool, msgs: seq<Message>)
    returns (r: Reply)
    ensures r.NullToken? <==> LacksToken(args)
    ensures !LacksToken(args) && BadCharset(args, charsetKnown) ==> r == No("[BADCHARSET] Charset not supported")
    ensures !LacksToken(args) && !BadCharset(args, charsetKnown) ==>
              r == ReplyTo(ParseList(lib, None, Lexemes(Criteria(args))), msgs, lib.isuid)
  {
    if |args| == 0 { return NullToken; }
    var pb := new ParseBuf(lib, Lexemes(args), 0);
    var _ := pb.GetToken(false);
    var charset := CaseEq(args[0], "CHARSET");
    if charset {
      if |args| == 1 { return NullToken; }
      if !CaseEq(args[1], "US-ASCII") && !charsetKnown(args[1]) {
        return No("[BADCHARSET] Charset not supported");
      }
      var _ := pb.GetToken(false);
      var _ := pb.GetToken(false);
    }
    assert pb.Remaining() == Lexemes(Criteria(args));
    ghost var toks := pb.Remaining();
    var tree := pb.ParseSearchKeyList();
    match tree
    case Aborted => r := Died;
    case Null => r := Bad(if pb.errMesg.Some? then pb.errMesg.value else "Parse error");
    case Tree(node) =>
      if pb.token.Some? {
        return Bad("Junk at the end of statement");
      }
      ParsedTreesAreTyped(lib, toks);
      var numbers := DoSearch(node, msgs, lib.isuid);
      r := Found(numbers);
  }
}
