/** The vocabulary of the SEARCH command: condition and macro tables, the
    abstract search keys a client can write, the tree the server builds and
    the boolean meaning of section 6.4.4 of RFC 3501. */
module SearchSyntax {
  import opened Text

  /** `condlist`: the basic conditions. */
  datatype Cond =
    | BCC | BEFORE | BODY | CC | FROM | HEADER | KEYWORD | LARGER | ON
    | SENTBEFORE | SENTON | SENTSINCE | SINCE | SMALLER | SUBJECT | TEXT | TO | UID

  /** `equiv_list`: keys defined by macro substitution. */
  datatype Macro =
    | ANSWERED | DELETED | DRAFT | FLAGGED | NEW | OLD | RECENT | SEEN
    | UNANSWERED | UNDELETED | UNDRAFT | UNFLAGGED | UNKEYWORD | UNSEEN

  /** What the parser makes of a token in key position. */
  datatype Word =
    | OpenWord | AllWord | NotWord | OrWord
    | MacroWord(macro: Macro) | CondWord(cond: Cond) | OtherWord

  /** A token together with its role in key position. */
  datatype Token = Token(text: string, word: Word)

  datatype ArgType = StringArg | NumberArg | DateArg | UidArg

  const MAX_NODE_ARGS := 2

  function ArgTypes(c: Cond): seq<ArgType> {
    match c
    case HEADER => [StringArg, StringArg]
    case BEFORE | ON | SENTBEFORE | SENTON | SENTSINCE | SINCE => [DateArg]
    case LARGER | SMALLER => [NumberArg]
    case UID => [UidArg]
    case BCC | BODY | CC | FROM | KEYWORD | SUBJECT | TEXT | TO => [StringArg]
  }

  function FindMacro(u: string): Option<Macro> {
    if u == "ANSWERED" then Some(ANSWERED)
    else if u == "DELETED" then Some(DELETED)
    else if u == "DRAFT" then Some(DRAFT)
    else if u == "FLAGGED" then Some(FLAGGED)
    else if u == "NEW" then Some(NEW)
    else if u == "OLD" then Some(OLD)
    else if u == "RECENT" then Some(RECENT)
    else if u == "SEEN" then Some(SEEN)
    else if u == "UNANSWERED" then Some(UNANSWERED)
    else if u == "UNDELETED" then Some(UNDELETED)
    else if u == "UNDRAFT" then Some(UNDRAFT)
    else if u == "UNFLAGGED" then Some(UNFLAGGED)
    else if u == "UNKEYWORD" then Some(UNKEYWORD)
    else if u == "UNSEEN" then Some(UNSEEN)
    else None
  }

  function FindCond(u: string): Option<Cond> {
    if u == "BCC" then Some(BCC)
    else if u == "BEFORE" then Some(BEFORE)
    else if u == "BODY" then Some(BODY)
    else if u == "CC" then Some(CC)
    else if u == "FROM" then Some(FROM)
    else if u == "HEADER" then Some(HEADER)
    else if u == "KEYWORD" then Some(KEYWORD)
    else if u == "LARGER" then Some(LARGER)
    else if u == "ON" then Some(ON)
    else if u == "SENTBEFORE" then Some(SENTBEFORE)
    else if u == "SENTON" then Some(SENTON)
    else if u == "SENTSINCE" then Some(SENTSINCE)
    else if u == "SINCE" then Some(SINCE)
    else if u == "SMALLER" then Some(SMALLER)
    else if u == "SUBJECT" then Some(SUBJECT)
    else if u == "TEXT" then Some(TEXT)
    else if u == "TO" then Some(TO)
    else if u == "UID" then Some(UID)
    else None
  }

  /** The order of the tests in `parse_search_key`, `parse_equiv_key` and
      `parse_simple_key`. */
  function Classify(t: string): Word {
    var u := Upper(t);
    if t == "(" then OpenWord
    else if u == "ALL" then AllWord
    else if u == "NOT" then NotWord
    else if u == "OR" then OrWord
    else match FindMacro(u)
      case Some(m) => MacroWord(m)
      case None =>
        match FindCond(u)
        case Some(c) => CondWord(c)
        case None => OtherWord
  }

  function Lexeme(t: string): Token {
    Token(t, Classify(t))
  }

  function Lexemes(toks: seq<string>): (ts: seq<Token>)
    ensures |ts| == |toks|
  {
    seq(|toks|, i requires 0 <= i < |toks| => Lexeme(toks[i]))
  }

  /** The loop test of `parse_search_key_list`: only the first character counts. */
  predicate Closes(t: Token) {
    |t.text| > 0 && t.text[0] == ')'
  }

  // ----- macro expansion -----

  /** The right-hand column of `equiv_list`. */
  function EquivText(m: Macro): string {
    match m
    case ANSWERED => "KEYWORD \\Answered"
    case DELETED => "KEYWORD \\Deleted"
    case DRAFT => "KEYWORD \\Draft"
    case FLAGGED => "KEYWORD \\Flagged"
    case NEW => "(RECENT UNSEEN)"
    case OLD => "NOT RECENT"
    case RECENT => "KEYWORD \\Recent"
    case SEEN => "KEYWORD \\Seen"
    case UNANSWERED => "NOT KEYWORD \\Answered"
    case UNDELETED => "NOT KEYWORD \\Deleted"
    case UNDRAFT => "NOT KEYWORD \\Draft"
    case UNFLAGGED => "NOT KEYWORD \\Flagged"
    case UNKEYWORD => "NOT KEYWORD"
    case UNSEEN => "NOT KEYWORD \\Seen"
  }

  const OPEN := Token("(", OpenWord)
  const CLOSE := Token(")", OtherWord)
  const NOT_TOKEN := Token("NOT", NotWord)
  const KEYWORD_TOKEN := Token("KEYWORD", CondWord(KEYWORD))
  const RECENT_TOKEN := Token("RECENT", MacroWord(RECENT))
  const UNSEEN_TOKEN := Token("UNSEEN", MacroWord(UNSEEN))

  function FlagToken(flag: string): Token {
    Token(flag, OtherWord)
  }

  /** The flag a macro of rank one speaks of. */
  function MacroFlag(m: Macro): string {
    match m
    case ANSWERED | UNANSWERED => "\\Answered"
    case DELETED | UNDELETED => "\\Deleted"
    case DRAFT | UNDRAFT => "\\Draft"
    case FLAGGED | UNFLAGGED => "\\Flagged"
    case RECENT | NEW | OLD => "\\Recent"
    case SEEN | UNSEEN => "\\Seen"
    case UNKEYWORD => ""
  }

  predicate Positive(m: Macro) {
    m in {ANSWERED, DELETED, DRAFT, FLAGGED, RECENT, SEEN}
  }

  /** The token buffer `parse_equiv_key` swaps in. */
  function Expansion(m: Macro): seq<Token> {
    if m == NEW then [OPEN, RECENT_TOKEN, UNSEEN_TOKEN, CLOSE]
    else if m == OLD then [NOT_TOKEN, RECENT_TOKEN]
    else if m == UNKEYWORD then [NOT_TOKEN, KEYWORD_TOKEN]
    else if Positive(m) then [KEYWORD_TOKEN, FlagToken(MacroFlag(m))]
    else [NOT_TOKEN, KEYWORD_TOKEN, FlagToken(MacroFlag(m))]
  }

  /** Nesting depth of a macro: `NEW` and `OLD` are defined by other macros. */
  function MacroRank(m: Macro): nat {
    if m == NEW || m == OLD then 2 else 1
  }

  // ----- values, trees, and the code outside this component -----

  datatype Value =
    | Undefined
    | Number(number: int)
    | Str(text: string)
    | Date(date: int)
    | Set(members: set<nat>)

  datatype Instr = MsgsetInstr | CondInstr(cond: Cond)

  /** `struct search_node`. */
  datatype Node =
    | Call(fun: Instr, args: seq<Node>)
    | And(left: Node, right: Node)
    | Or(left: Node, right: Node)
    | Not(arg: Node)
    | Val(value: Value)
    | False

  datatype SetResult = SetOk(members: set<nat>) | SetBadSyntax | SetUnavailable

  /** Library parsers `parse_simple_key` relies on: message sets (by number or
      UID), UID sets, dates, and `strtoul` with the "no trailing text" test. */
  datatype Library = Library(
    isuid: bool,
    messageSet: (bool, string) -> SetResult,
    uidSet: string -> Option<set<nat>>,
    number: string -> Option<int>,
    date: string -> Option<int>)

  /** Everything evaluation needs to know about the current message: its number,
      the condition functions, and what reading `v.number` out of a value of
      another type would give. */
  datatype Query = Query(
    msgno: nat,
    cond: (Cond, seq<Value>) -> int,
    pun: Value -> int)

  function ArgValue(lib: Library, t: ArgType, token: string): Option<Value> {
    match t
    case StringArg => Some(Str(token))
    case NumberArg =>
      (match lib.number(token) case Some(n) => Some(Number(n)) case None => None)
    case DateArg =>
      (match lib.date(token) case Some(d) => Some(Date(d)) case None => None)
    case UidArg =>
      (match lib.uidSet(token) case Some(s) => Some(Set(s)) case None => None)
  }

  function ArgError(t: ArgType): string {
    match t
    case StringArg => ""
    case NumberArg => "Invalid number"
    case DateArg => "Bad date format"
    case UidArg => "Bogus number set"
  }

  // ----- search keys as a client means them -----

  /** Keys keep the spelling of their keyword, so that every mix of upper and
      lower case is covered. */
  datatype Key =
    | AllKey(word: Token)
    | NotKey(word: Token, arg: Key)
    | OrKey(word: Token, left: Key, right: Key)
    | GroupKey(open: Token, keys: seq<Key>, close: Token)
    | MacroKey(word: Token)
    | CondKey(word: Token, args: seq<Token>)
    | SetKey(word: Token)

  function Tokens(k: Key): (ts: seq<Token>)
    ensures |ts| > 0
    decreases k
  {
    match k
    case AllKey(w) => [w]
    case NotKey(w, a) => [w] + Tokens(a)
    case OrKey(w, l, r) => [w] + Tokens(l) + Tokens(r)
    case GroupKey(o, ks, c) => [o] + ListTokens(ks) + [c]
    case MacroKey(w) => [w]
    case CondKey(w, args) => [w] + args
    case SetKey(w) => [w]
  }

  function ListTokens(ks: seq<Key>): seq<Token>
    decreases ks
  {
    if ks == [] then [] else Tokens(ks[0]) + ListTokens(ks[1..])
  }

  predicate WellFormed(lib: Library, k: Key)
    decreases k
  {
    match k
    case AllKey(w) => w.word == AllWord
    case NotKey(w, a) => w.word == NotWord && WellFormed(lib, a)
    case OrKey(w, l, r) => w.word == OrWord && WellFormed(lib, l) && WellFormed(lib, r)
    case GroupKey(o, ks, c) =>
      o.word == OpenWord && c.text == ")" && ks != [] && WellFormedList(lib, ks)
    case MacroKey(w) => w.word.MacroWord?
    case CondKey(w, args) =>
      w.word.CondWord? && GoodArgs(lib, ArgTypes(w.word.cond), args)
    case SetKey(w) =>
      w.word == OtherWord && lib.messageSet(lib.isuid, w.text) != SetBadSyntax
  }

  /** In a list, a key may not begin with a token that would end the list. */
  predicate WellFormedList(lib: Library, ks: seq<Key>)
    decreases ks
  {
    ks == [] ||
    (WellFormed(lib, ks[0]) && !Closes(Tokens(ks[0])[0]) && WellFormedList(lib, ks[1..]))
  }

  predicate GoodArgs(lib: Library, types: seq<ArgType>, args: seq<Token>) {
    && |args| == |types|
    && forall i :: 0 <= i < |args| ==> ArgValue(lib, types[i], args[i].text).Some?
  }

  /** True if `UNKEYWORD` is nowhere used as a key. */
  predicate Expandable(k: Key)
    decreases k
  {
    match k
    case NotKey(_, a) => Expandable(a)
    case OrKey(_, l, r) => Expandable(l) && Expandable(r)
    case GroupKey(_, ks, _) => ExpandableList(ks)
    case MacroKey(w) => w.word != MacroWord(UNKEYWORD)
    case _ => true
  }

  predicate ExpandableList(ks: seq<Key>)
    decreases ks
  {
    ks == [] || (Expandable(ks[0]) && ExpandableList(ks[1..]))
  }

  // ----- meaning -----

  predicate HasFlag(q: Query, flag: string) {
    q.cond(KEYWORD, [Str(flag)]) != 0
  }

  /** Section 6.4.4 of RFC 3501, read directly; `UNKEYWORD` has no argument to
      speak of here. */
  predicate MacroMeaning(m: Macro, q: Query) {
    match m
    case ANSWERED => HasFlag(q, "\\Answered")
    case DELETED => HasFlag(q, "\\Deleted")
    case DRAFT => HasFlag(q, "\\Draft")
    case FLAGGED => HasFlag(q, "\\Flagged")
    case NEW => HasFlag(q, "\\Recent") && !HasFlag(q, "\\Seen")
    case OLD => !HasFlag(q, "\\Recent")
    case RECENT => HasFlag(q, "\\Recent")
    case SEEN => HasFlag(q, "\\Seen")
    case UNANSWERED => !HasFlag(q, "\\Answered")
    case UNDELETED => !HasFlag(q, "\\Deleted")
    case UNDRAFT => !HasFlag(q, "\\Draft")
    case UNFLAGGED => !HasFlag(q, "\\Flagged")
    case UNKEYWORD => false
    case UNSEEN => !HasFlag(q, "\\Seen")
  }

  function ArgValues(lib: Library, types: seq<ArgType>, args: seq<Token>): (vs: seq<Value>)
    requires GoodArgs(lib, types, args)
    ensures |vs| == |args|
  {
    seq(|args|, i requires 0 <= i < |args| => ArgValue(lib, types[i], args[i].text).value)
  }

  predicate Meaning(lib: Library, k: Key, q: Query)
    requires WellFormed(lib, k)
    decreases k
  {
    match k
    case AllKey(_) => true
    case NotKey(_, a) => !Meaning(lib, a, q)
    case OrKey(_, l, r) => Meaning(lib, l, q) || Meaning(lib, r, q)
    case GroupKey(_, ks, _) => MeaningAll(lib, ks, q)
    case MacroKey(w) => MacroMeaning(w.word.macro, q)
    case CondKey(w, args) =>
      var c := w.word.cond;
      q.cond(c, ArgValues(lib, ArgTypes(c), args)) != 0
    case SetKey(w) =>
      var r := lib.messageSet(lib.isuid, w.text);
      r.SetOk? && q.msgno in r.members
  }

  /** Several keys in a row mean their intersection. */
  predicate MeaningAll(lib: Library, ks: seq<Key>, q: Query)
    requires WellFormedList(lib, ks)
    decreases ks
  {
    ks == [] || (Meaning(lib, ks[0], q) && MeaningAll(lib, ks[1..], q))
  }
}
