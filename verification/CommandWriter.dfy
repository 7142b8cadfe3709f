/** A client writing a command (sections 4 and 9 of RFC 3501), and the proof that
    the server reads back what was written. */
module CommandWriter {
  import opened Text
  import opened Numbers
  import opened Lexer
  import opened Quoting
  import opened Reader

  datatype Item =
    | Atom(text: string)
    | Open
    | Close
    | Quoted(text: string)
    | Literal(text: string, sync: bool)

  /** An item and the blanks in front of it. */
  datatype Piece = Piece(blanks: string, item: Item)

  const CRLF: string := [CR, LF]

  // ----- what a client may write -----

  predicate AllBlank(s: string) {
    forall i :: 0 <= i < |s| ==> IsBlank(s[i])
  }

  /** Text that can stand on a line. */
  predicate OnLine(s: string) {
    NUL !in s && LF !in s
  }

  predicate GoodAtom(t: string) {
    && t != [] && t[0] != QUOTE && OnLine(t)
    && (forall i :: 0 <= i < |t| ==> !IsBlank(t[i]) && !IsDelim(t[i]))
  }

  /** A literal whose count can be announced. */
  predicate GoodLiteral(t: string) {
    |t| <= ULONG_MAX
  }

  /** What arrives of a literal is what was sent: it is not empty, has no NUL in it, and
      does not begin and end with a quote. */
  predicate Arrives(t: string) {
    t != [] && NUL !in t && !LooksQuoted(t)
  }

  predicate GoodItem(item: Item) {
    match item
    case Atom(t) => GoodAtom(t)
    case Open => true
    case Close => true
    case Quoted(t) => OnLine(t) && !EndsInBackslash(t)
    case Literal(t, _) => GoodLiteral(t)
  }

  predicate IsParen(item: Item) {
    item.Open? || item.Close?
  }

  /** An atom ends at a blank, at a parenthesis or at the end of the line. */
  predicate Writable(ps: seq<Piece>) {
    ps != [] ==>
      && AllBlank(ps[0].blanks) && GoodItem(ps[0].item) && Writable(ps[1..])
      && (ps[0].item.Atom? && |ps| > 1 ==> ps[1].blanks != [] || IsParen(ps[1].item))
  }

  // ----- writing -----

  /** The octet count that announces a literal. */
  function Header(n: nat, sync: bool): string {
    ['{'] + Dec(n) + (if sync then [] else ['+']) + ['}']
  }

  /** What stands on the line for an item. */
  function Head(item: Item): string {
    match item
    case Atom(t) => t
    case Open => ['(']
    case Close => [')']
    case Quoted(t) => QuotedText(t)
    case Literal(t, sync) => Header(|t|, sync)
  }

  function Write(ps: seq<Piece>): string {
    if ps == [] then CRLF
    else
      ps[0].blanks + Head(ps[0].item)
      + (if ps[0].item.Literal? then CRLF + ps[0].item.text else []) + Write(ps[1..])
  }

  /** The argument the server makes of an item. */
  function ValueOf(item: Item): string {
    match item
    case Atom(t) => t
    case Open => ['(']
    case Close => [')']
    case Quoted(t) => t
    case Literal(t, _) => FoldCrlf(t)
  }

  function Values(ps: seq<Piece>): (r: seq<string>)
    ensures |r| == |ps|
  {
    if ps == [] then [] else [ValueOf(ps[0].item)] + Values(ps[1..])
  }

  // ----- one token -----

  /** The argument the tokenizer makes of an item: a literal's is its header. */
  function HeadValue(item: Item): string {
    if item.Literal? then Head(item) else ValueOf(item)
  }

  /** May `rest` follow the item on the line? */
  predicate MayFollow(item: Item, rest: string) {
    && OnLine(rest) && Trimmed(rest)
    && (item.Atom? && rest != [] ==> IsBlank(rest[0]) || IsDelim(rest[0]))
    && (item.Literal? ==> rest == [])
  }

  lemma HeaderIsAtom(n: nat, sync: bool)
    ensures GoodAtom(Header(n, sync))
  {
    var h := Header(n, sync);
    forall i | 0 <= i < |h| ensures h[i] == '{' || h[i] == '}' || h[i] == '+' || IsDigit(h[i]) {
    }
  }

  lemma AtomReads(t: string, rest: string, beyond: string)
    requires GoodAtom(t) && OnLine(rest) && Trimmed(rest)
    requires rest != [] ==> IsBlank(rest[0]) || IsDelim(rest[0])
    ensures Trimmed(t + rest) && LexFrom(t + rest, beyond) == Tok(t, rest, Grown(rest))
  {
    var s := t + rest;
    AtomRunIs(s, |t|);
    assert s[..|t|] == t && s[|t|..] == rest;
  }

  lemma ParenReads(c: char, rest: string, beyond: string)
    requires (c == '(' || c == ')') && OnLine(rest) && Trimmed(rest)
    ensures Trimmed([c] + rest) && LexFrom([c] + rest, beyond) == Tok([c], rest, Grown(rest))
  {
    var s := [c] + rest;
    assert s[..1] == [c] && s[1..] == rest;
    CStrClean([c]);
  }

  /** The NULs inserted behind an item when `rest` follows it: none behind a quoted
      string, which has a quote to spare. */
  function Inserted(item: Item, rest: string): nat {
    if item.Quoted? then 0 else Grown(rest)
  }

  lemma QuotedHead(t: string)
    requires OnLine(t)
    ensures QuotedText(t) != [] && QuotedText(t)[0] == QUOTE && OnLine(QuotedText(t))
  {
    EscapeChars(t);
    hide Escape;
    var e, q := Escape(t), QuotedText(t);
    forall c | c in q ensures c == QUOTE || c in e {
    }
  }

  lemma HeadReads(item: Item, rest: string, beyond: string)
    requires GoodItem(item) && MayFollow(item, rest)
    ensures Head(item) != [] && !IsBlank(Head(item)[0])
    ensures Trimmed(Head(item) + rest) && OnLine(Head(item))
    ensures LexFrom(Head(item) + rest, beyond) == Tok(HeadValue(item), rest, Inserted(item, rest))
  {
    hide LexFrom, Escape, QuotedText, Header, Grown;
    match item
    case Atom(t) => AtomReads(t, rest, beyond);
    case Open => ParenReads('(', rest, beyond);
    case Close => ParenReads(')', rest, beyond);
    case Quoted(t) =>
      QuotedReadsBack(t, rest, beyond);
      QuotedHead(t);
    case Literal(t, sync) =>
      HeaderIsAtom(|t|, sync);
      AtomReads(Header(|t|, sync), rest, beyond);
  }

  lemma BlanksSkipped(blanks: string, t: string, beyond: string)
    requires AllBlank(blanks) && t != [] && !IsBlank(t[0]) && Trimmed(t)
    ensures Trimmed(blanks + t) && LexTok(blanks + t, beyond) == LexFrom(t, beyond)
  {
    var s := blanks + t;
    BlankRunIs(s, |blanks|);
    assert s[|blanks|..] == t;
  }

  // ----- one line -----

  /** The line a command begins with, up to its first literal. */
  function LinePart(ps: seq<Piece>): string {
    if ps == [] then []
    else ps[0].blanks + (Head(ps[0].item) + (if ps[0].item.Literal? then [] else LinePart(ps[1..])))
  }

  function LineValues(ps: seq<Piece>): seq<string> {
    if ps == [] then []
    else [HeadValue(ps[0].item)] + (if ps[0].item.Literal? then [] else LineValues(ps[1..]))
  }

  /** Does a NUL have to be inserted behind the first piece? */
  function Push(ps: seq<Piece>): nat
    requires ps != []
  {
    if |ps| > 1 && !ps[0].item.Quoted? && !ps[0].item.Literal? then 1 else 0
  }

  /** The NULs inserted on the first line. */
  function LineGrown(ps: seq<Piece>): nat {
    if ps == [] then 0
    else Push(ps) + (if ps[0].item.Literal? then 0 else LineGrown(ps[1..]))
  }

  /** What follows the first line. */
  function AfterFirst(ps: seq<Piece>): string {
    if ps == [] then []
    else if ps[0].item.Literal? then ps[0].item.text + Write(ps[1..])
    else AfterFirst(ps[1..])
  }

  lemma {:induction false} WriteLine(ps: seq<Piece>)
    ensures Write(ps) == LinePart(ps) + CRLF + AfterFirst(ps)
  {
    if ps == [] {
    } else if ps[0].item.Literal? {
      var b, h, t, w := ps[0].blanks, Head(ps[0].item), ps[0].item.text, Write(ps[1..]);
      assert b + h + (CRLF + t) + w == b + (h + []) + CRLF + (t + w);
    } else {
      WriteLine(ps[1..]);
      var b, h, l, a := ps[0].blanks, Head(ps[0].item), LinePart(ps[1..]), AfterFirst(ps[1..]);
      assert b + h + [] + (l + CRLF + a) == b + (h + l) + CRLF + a;
    }
  }

  /** A line is taken for these arguments, whatever lies behind it in the buffer. */
  ghost predicate Lexes(s: string, vs: seq<string>, n: nat) {
    Trimmed(s) && forall beyond :: Lex(s, beyond) == Args(vs, n)
  }

  /** One token in front of others. */
  lemma LexCons(blanks: string, h: string, v: string, n: nat, rest: string, beyond: string)
    requires AllBlank(blanks) && h != [] && !IsBlank(h[0]) && Trimmed(rest) && Trimmed(h + rest)
    requires LexFrom(h + rest, beyond) == Tok(v, rest, n)
    ensures Trimmed(blanks + (h + rest))
    ensures Lex(blanks + (h + rest), beyond) == Consed(v, n, Lex(rest, Shrink(beyond, n)))
  {
    hide LexTok, LexFrom, Shrink, Consed;
    BlanksSkipped(blanks, h + rest, beyond);
  }

  lemma OnLineConcat(blanks: string, h: string, rest: string)
    requires AllBlank(blanks) && OnLine(h) && OnLine(rest)
    ensures OnLine(blanks + (h + rest))
  {
  }

  lemma {:induction false} LexLine(ps: seq<Piece>)
    requires Writable(ps)
    ensures OnLine(LinePart(ps)) && Lexes(LinePart(ps), LineValues(ps), LineGrown(ps))
  {
    hide Lexes, Lex, LexFrom, OnLine, AllBlank, GoodItem, Head, ValueOf;
    EmptyLine();
    if ps != [] {
      var p := ps[0];
      var rest := if p.item.Literal? then [] else LinePart(ps[1..]);
      var vs := if p.item.Literal? then [] else LineValues(ps[1..]);
      var n := if p.item.Literal? then 0 else LineGrown(ps[1..]);
      if !p.item.Literal? {
        LexLine(ps[1..]);
        if |ps| > 1 { LineStarts(ps[1..]); }
      }
      LexesTrimmed(rest, vs, n);
      LexPiece(p, rest, vs, n);
    }
  }

  lemma LexesTrimmed(s: string, vs: seq<string>, n: nat)
    requires Lexes(s, vs, n)
    ensures Trimmed(s)
  {
  }

  lemma LexPiece(p: Piece, rest: string, vs: seq<string>, n: nat)
    requires AllBlank(p.blanks) && GoodItem(p.item) && MayFollow(p.item, rest) && Lexes(rest, vs, n)
    ensures OnLine(p.blanks + (Head(p.item) + rest))
    ensures Lexes(p.blanks + (Head(p.item) + rest), [HeadValue(p.item)] + vs, Inserted(p.item, rest) + n)
  {
    hide Lex, Shrink, Inserted, Head, HeadValue, LexFrom, AllBlank, GoodItem, OnLine;
    HeadReads(p.item, rest, []);
    OnLineConcat(p.blanks, Head(p.item), rest);
    LexCons(p.blanks, Head(p.item), HeadValue(p.item), Inserted(p.item, rest), rest, []);
    forall beyond
      ensures Lex(p.blanks + (Head(p.item) + rest), beyond) == Args([HeadValue(p.item)] + vs, Inserted(p.item, rest) + n)
    {
      HeadReads(p.item, rest, beyond);
      LexCons(p.blanks, Head(p.item), HeadValue(p.item), Inserted(p.item, rest), rest, beyond);
    }
  }

  lemma EmptyLine()
    ensures OnLine([]) && Lexes([], [], 0)
  {
  }

  lemma LineStarts(ps: seq<Piece>)
    requires Writable(ps) && ps != []
    ensures LinePart(ps) != []
    ensures ps[0].blanks != [] ==> IsBlank(LinePart(ps)[0])
    ensures ps[0].blanks == [] && IsParen(ps[0].item) ==> IsDelim(LinePart(ps)[0])
  {
    HeadReads(ps[0].item, [], []);
  }

  lemma TrimTrimmed(s: string)
    requires Trimmed(s)
    ensures TrimLine(s + [CR]) == s
  {
    assert (s + [CR])[..|s|] == s;
  }

  lemma LineShape(l: string, a: string)
    requires LF !in l
    ensures var s := l + CRLF + a;
      && LineEnd(s) == Some(|l| + 1) && s[..|l| + 1] == l + [CR] && s[|l| + 1 + 1..] == a
  {
    var s := l + CRLF + a;
    LineEndIs(s, |l| + 1);
    assert s[..|l| + 1] == l + [CR];
    assert s[|l| + 2..] == a;
  }

  lemma LineTaken(l: string, a: string, args: seq<string>, level: nat, memory: seq<string>)
    requires Trimmed(l) && LF !in l
    ensures var r := Lex(l, Nuls(2) + First(memory));
      && (r.Args? ==> ReadFrom(l + CRLF + a, args, level, memory)
                      == AfterLine(a, args + r.values, level + |l| + r.grown, Later(memory)))
      && (r.LineSpin? ==> ReadFrom(l + CRLF + a, args, level, memory).Spinning?)
      && (r.LineOverrun? ==> ReadFrom(l + CRLF + a, args, level, memory).Straying?)
  {
    hide TrimLine, AfterLine, Lex, Nuls, First;
    LineShape(l, a);
    TrimTrimmed(l);
  }

  /** The server's first step: it takes the line and tokenizes it. */
  lemma FirstLine(ps: seq<Piece>, tail: string, args: seq<string>, level: nat, memory: seq<string>)
    requires Writable(ps)
    ensures ReadFrom(Write(ps) + tail, args, level, memory)
            == AfterLine(AfterFirst(ps) + tail, args + LineValues(ps),
                         level + |LinePart(ps)| + LineGrown(ps), Later(memory))
  {
    hide Write, LinePart, AfterFirst, LineValues, LineGrown, ReadFrom, AfterLine, Lex, Writable;
    var l, a := LinePart(ps), AfterFirst(ps);
    WriteLine(ps);
    LexLine(ps);
    ConcatAssoc(l + CRLF, a, tail);
    LineTaken(l, a + tail, args, level, memory);
  }

  // ----- literals -----

  lemma HeaderAnnounces(n: nat, sync: bool)
    requires n <= ULONG_MAX
    ensures LiteralRequest(Header(n, sync)) == Some(n)
  {
    var h := Header(n, sync);
    var rest: string := (if sync then [] else ['+']) + ['}'];
    assert h[1..] == Dec(n) + rest;
    UlongRoundTrip(n, rest);
  }

  lemma LiteralStored(t: string)
    requires Arrives(t)
    ensures StoreLiteral(t) == Stored(FoldCrlf(t), |FoldCrlf(t)| + 1)
  {
    FoldChars(t);
    CStrClean(FoldCrlf(t));
  }

  /** Of any other literal something else is stored, if anything. */
  lemma LiteralSpoilt(t: string)
    requires t != [] && !Arrives(t)
    ensures StoreLiteral(t).Stored? ==> StoreLiteral(t).text != FoldCrlf(t)
  {
    hide FoldCrlf, Unescape, WellEscaped, CStr;
    if LooksQuoted(t) {
      if |t| > 1 && WellEscaped(t[1..]) {
        FoldHead(t);
        FoldUnescaped(t[1..]);
      }
    } else {
      FoldKeepsNul(t);
    }
  }

  lemma FoldHead(t: string)
    requires t != [] && t[0] != CR
    ensures |FoldCrlf(t)| == 1 + |FoldCrlf(t[1..])|
  {
  }

  lemma FoldCons(c: char, s: string)
    ensures |FoldCrlf([c] + s)| <= 1 + |FoldCrlf(s)|
    ensures c == CR && s != [] && s[0] == LF ==> FoldCrlf([c] + s) == FoldCrlf(s)
  {
    ConsDrop(c, s);
  }

  /** Unescaping makes no text longer, folded or not. */
  lemma {:induction false} FoldUnescaped(s: string)
    requires WellEscaped(s)
    ensures |FoldCrlf(Unescape(s))| <= |FoldCrlf(s)|
    decreases |s|
  {
    if s == [] {
    } else if s[0] != BACKSLASH {
      FoldUnescaped(s[1..]);
      FoldCons(s[0], Unescape(s[1..]));
    } else if |s| > 1 {
      FoldUnescaped(s[2..]);
      FoldCons(s[1], Unescape(s[2..]));
      assert s[1..][1..] == s[2..];
    }
  }

  lemma {:induction false} FoldKeepsNul(t: string)
    requires NUL in t
    ensures NUL in FoldCrlf(t)
  {
    if t[0] != NUL {
      assert NUL in t[1..] by { HeadTail(t); }
      FoldKeepsNul(t[1..]);
    }
  }

  lemma {:induction false} FoldChars(t: string)
    ensures forall c :: c in FoldCrlf(t) ==> c in t
  {
    if t != [] { FoldChars(t[1..]); }
  }

  /** Every literal arrives. */
  predicate LiteralsArrive(ps: seq<Piece>) {
    forall i :: 0 <= i < |ps| && ps[i].item.Literal? ==> Arrives(ps[i].item.text)
  }

  predicate NoLiterals(ps: seq<Piece>) {
    forall i :: 0 <= i < |ps| ==> !ps[i].item.Literal?
  }

  /** The first literal of a command. */
  function FirstLiteral(ps: seq<Piece>): (k: nat)
    ensures k <= |ps| && NoLiterals(ps[..k])
    ensures k < |ps| ==> ps[k].item.Literal?
  {
    if ps == [] || ps[0].item.Literal? then 0
    else
      assert ps[..1 + FirstLiteral(ps[1..])] == [ps[0]] + ps[1..][..FirstLiteral(ps[1..])];
      1 + FirstLiteral(ps[1..])
  }

  lemma {:induction false} WithoutLiterals(ps: seq<Piece>)
    requires NoLiterals(ps)
    ensures LineValues(ps) == Values(ps) && AfterFirst(ps) == []
  {
    if ps != [] { WithoutLiterals(ps[1..]); }
  }

  lemma {:induction false} UpToLiteral(pre: seq<Piece>, p: Piece, post: seq<Piece>)
    requires NoLiterals(pre) && p.item.Literal? && Writable(pre + ([p] + post))
    ensures LineValues(pre + ([p] + post)) == Values(pre) + [Head(p.item)]
    ensures AfterFirst(pre + ([p] + post)) == p.item.text + Write(post)
    ensures Values(pre + ([p] + post)) == Values(pre) + ([ValueOf(p.item)] + Values(post))
    ensures GoodItem(p.item) && Writable(post)
  {
    hide Write, Head, ValueOf, GoodItem;
    if pre == [] {
      EmptyConcat([p] + post);
      ConsDrop(p, post);
    } else {
      var ps := pre + ([p] + post);
      assert ps[0] == pre[0] && ps[1..] == pre[1..] + ([p] + post);
      UpToLiteral(pre[1..], p, post);
      ConcatAssoc([ValueOf(pre[0].item)], Values(pre[1..]), [ValueOf(p.item)] + Values(post));
    }
  }

  /** The buffer's level behind the first piece, before its literal is read. */
  function LevelBehind(ps: seq<Piece>, level: nat): nat
    requires ps != []
  {
    level + |ps[0].blanks| + |Head(ps[0].item)| + Push(ps)
  }

  /** The buffer can be made large enough for each literal when its turn comes. */
  predicate Fits(ps: seq<Piece>, level: nat)
    decreases |ps|
  {
    ps != [] ==>
      if ps[0].item.Literal? then
        && LevelBehind(ps, level) + |ps[0].item.text| + 1 <= LARGEST
        && Fits(ps[1..], LevelBehind(ps, level) + |FoldCrlf(ps[0].item.text)| + 1)
      else Fits(ps[1..], LevelBehind(ps, level))
  }

  lemma {:induction false} FitsWithoutLiterals(ps: seq<Piece>, level: nat)
    requires NoLiterals(ps)
    ensures Fits(ps, level)
    decreases |ps|
  {
    if ps != [] { FitsWithoutLiterals(ps[1..], LevelBehind(ps, level)); }
  }

  lemma {:induction false} FitsUpToLiteral(pre: seq<Piece>, p: Piece, post: seq<Piece>, level: nat)
    requires NoLiterals(pre) && p.item.Literal?
    ensures var ps := pre + ([p] + post);
      var l := level + |LinePart(ps)| + LineGrown(ps);
      Fits(ps, level) <==> l + |p.item.text| + 1 <= LARGEST && Fits(post, l + |FoldCrlf(p.item.text)| + 1)
    decreases |pre|
  {
    hide Head, FoldCrlf;
    var ps := pre + ([p] + post);
    if pre == [] {
      EmptyConcat([p] + post);
      ConsDrop(p, post);
      EmptyConcat(Head(p.item));
    } else {
      assert ps[0] == pre[0] && ps[1..] == pre[1..] + ([p] + post);
      FitsUpToLiteral(pre[1..], p, post, LevelBehind(ps, level));
      assert LevelBehind(ps, level) + |LinePart(ps[1..])| + LineGrown(ps[1..]) == level + |LinePart(ps)| + LineGrown(ps);
    }
  }

  /** The last argument would be taken for the announcement of a literal. */
  predicate Announces(args: seq<string>) {
    args != [] && LiteralRequest(args[|args| - 1]).Some?
  }

  lemma LastLine(tail: string, args: seq<string>, level: nat, memory: seq<string>)
    ensures AfterLine(tail, args, level, memory) == Done(args, tail) <==> !Announces(args)
  {
  }

  /** Every command a client can write is read back as its arguments, with the input
      left right behind it and whatever the buffer held before, if and only if its
      last argument does not look like the announcement of a literal, there is room for
      its literals, and each of them arrives. */
  lemma {:induction false} CommandReadsBack(ps: seq<Piece>, tail: string, args: seq<string>, level: nat,
                                            memory: seq<string>)
    requires Writable(ps)
    ensures ReadFrom(Write(ps) + tail, args, level, memory) == Done(args + Values(ps), tail)
            <==> !Announces(args + Values(ps)) && Fits(ps, level) && LiteralsArrive(ps)
    decreases |ps|
  {
    hide *;
    var k := FirstLiteral(ps);
    if k == |ps| {
      assert ps[..k] == ps;
      WithoutLiteral(ps, tail, args, level, memory);
    } else {
      var pre, p, post := ps[..k], ps[k], ps[k + 1..];
      assert ps == pre + ([p] + post);
      var l, done := level + |LinePart(ps)| + LineGrown(ps), args + Values(pre) + [ValueOf(p.item)];
      ArriveParts(pre, p, post);
      if Arrives(p.item.text) {
        ThroughLiteral(pre, p, post, tail, args, level, memory);
        if l + |p.item.text| + 1 <= LARGEST {
          CommandReadsBack(post, tail, done, l + |FoldCrlf(p.item.text)| + 1, Later(memory));
        }
      } else {
        SpoiltLiteral(pre, p, post, tail, args, level, memory);
      }
    }
  }

  lemma ArriveParts(pre: seq<Piece>, p: Piece, post: seq<Piece>)
    requires NoLiterals(pre) && p.item.Literal?
    ensures LiteralsArrive(pre + ([p] + post)) <==> Arrives(p.item.text) && LiteralsArrive(post)
  {
    var ps, k := pre + ([p] + post), |pre|;
    assert ps[k] == p && forall i :: 0 <= i < |post| ==> ps[k + 1 + i] == post[i];
    assert forall i :: 0 <= i < k ==> ps[i] == pre[i];
    if Arrives(p.item.text) && LiteralsArrive(post) {
      forall i | 0 <= i < |ps| && ps[i].item.Literal? ensures Arrives(ps[i].item.text) {
        if i > k { assert ps[i] == post[i - k - 1]; }
      }
    }
  }

  // ----- what is read stays, but for the last argument -----

  lemma {:induction false} LineKeeps(input: string, args: seq<string>, level: nat, memory: seq<string>)
    requires args != []
    ensures var r := AfterLine(input, args, level, memory);
      r.Done? ==> |r.args| >= |args| && r.args[..|args| - 1] == args[..|args| - 1]
    ensures var r := AfterLine(input, args, level, memory); r.Done? && r.rest == input ==> r.args == args
    decreases |input|
  {
    hide LiteralRequest, StoreLiteral, ReadFrom;
    var r := AfterLine(input, args, level, memory);
    var want := LiteralRequest(args[|args| - 1]);
    if r.Done? && want.Some? {
      var n := want.value;
      var len := if n <= |input| then n else |input|;
      var stored := StoreLiteral(input[..len]);
      FromKeeps(input[len..], args[..|args| - 1] + [stored.text], level + stored.used, memory);
    }
  }

  lemma {:induction false} FromKeeps(input: string, args: seq<string>, level: nat, memory: seq<string>)
    requires args != []
    ensures var r := ReadFrom(input, args, level, memory);
      r.Done? ==> |r.args| >= |args| && r.args[..|args| - 1] == args[..|args| - 1]
    decreases |input|
  {
    hide Lex, TrimLine, Trail, AfterLine;
    var r := ReadFrom(input, args, level, memory);
    if r.Done? {
      var e := LineEnd(input).value;
      var line := TrimLine(input[..e]);
      var l := Lex(line, Trail(input[..e], memory));
      var all := args + l.values;
      LineKeeps(input[e + 1..], all, level + |line| + l.grown, Later(memory));
      assert r.args[..|args| - 1] == r.args[..|all| - 1][..|args| - 1];
      assert all[..|all| - 1][..|args| - 1] == args[..|args| - 1];
    }
  }

  // ----- literals that do not arrive -----

  /** The server takes the octets announced, and makes something else of them or does not
      return at all. */
  lemma SpoiltTaken(item: Item, more: string, args: seq<string>, level: nat, memory: seq<string>)
    returns (text: string, used: nat)
    requires item.Literal? && GoodItem(item) && !Arrives(item.text)
    ensures var r := AfterLine(item.text + more, args + [Head(item)], level, memory);
      r.Done? ==> text != ValueOf(item) && r == ReadFrom(more, args + [text], level + used, memory)
  {
    hide ReadFrom, LiteralRequest, StoreLiteral, Header, FoldCrlf;
    var t, all := item.text, args + [Head(item)];
    HeaderAnnounces(|t|, item.sync);
    assert all[..|all| - 1] == args && all[|all| - 1] == Head(item);
    assert (t + more)[..|t|] == t && (t + more)[|t|..] == more;
    if t == [] {
      text, used := [], 0;
    } else {
      LiteralSpoilt(t);
      var s := StoreLiteral(t);
      text, used := if s.Stored? then s.text else [], if s.Stored? then s.used else 0;
    }
  }

  lemma SpoiltRest(post: seq<Piece>, tail: string, args: seq<string>, text: string, value: string, level: nat,
                   memory: seq<string>)
    requires Writable(post) && text != value
    ensures ReadFrom(Write(post) + tail, args + [text], level, memory) != Done(args + ([value] + Values(post)), tail)
  {
    var all, k := args + [text], |args|;
    var r, want := ReadFrom(Write(post) + tail, all, level, memory), args + ([value] + Values(post));
    hide Write, Writable, ReadFrom, AfterLine, LinePart, LineGrown, ValueOf;
    FirstLine(post, tail, all, level, memory);
    LineKeeps(AfterFirst(post) + tail, all + LineValues(post), level + |LinePart(post)| + LineGrown(post), Later(memory));
    assert want[k] == value;
    if r.Done? {
      if post == [] {
        EmptyConcat(all);
        EmptyConcat(tail);
        assert all[k] == text;
      } else {
        var vs := all + LineValues(post);
        assert r.args[..|vs| - 1][k] == vs[..|vs| - 1][k] == text;
      }
    }
  }

  lemma SpoiltLiteral(pre: seq<Piece>, p: Piece, post: seq<Piece>, tail: string, args: seq<string>, level: nat,
                      memory: seq<string>)
    requires NoLiterals(pre) && p.item.Literal? && Writable(pre + ([p] + post)) && !Arrives(p.item.text)
    ensures var ps := pre + ([p] + post);
      ReadFrom(Write(ps) + tail, args, level, memory) != Done(args + Values(ps), tail)
  {
    hide *;
    var ps, value := pre + ([p] + post), ValueOf(p.item);
    FirstLine(ps, tail, args, level, memory);
    UpToLiteral(pre, p, post);
    ConcatAssoc(args, Values(pre), [Head(p.item)]);
    ConcatAssoc(p.item.text, Write(post), tail);
    var l := level + |LinePart(ps)| + LineGrown(ps);
    var text, used := SpoiltTaken(p.item, Write(post) + tail, args + Values(pre), l, Later(memory));
    if text != value {
      SpoiltRest(post, tail, args + Values(pre), text, value, l + used, Later(memory));
    }
    ConcatAssoc(args, Values(pre), [value] + Values(post));
  }

  /** An empty literal, which section 4.3 of RFC 3501 allows, ends the session. */
  lemma EmptyLiteralEnds(pre: seq<Piece>, p: Piece, post: seq<Piece>, tail: string, args: seq<string>, level: nat,
                         memory: seq<string>)
    requires NoLiterals(pre) && p.item.Literal? && p.item.text == [] && Writable(pre + ([p] + post))
    requires Fits(pre + ([p] + post), level)
    ensures ReadFrom(Write(pre + ([p] + post)) + tail, args, level, memory).Eof?
  {
    var ps := pre + ([p] + post);
    hide Write, Writable, ReadFrom, LinePart, LineGrown, Values, LiteralRequest, Header, Fits;
    FirstLine(ps, tail, args, level, memory);
    UpToLiteral(pre, p, post);
    FitsUpToLiteral(pre, p, post, level);
    ConcatAssoc(args, Values(pre), [Head(p.item)]);
    HeaderAnnounces(0, p.item.sync);
  }

  lemma NoneArrive(ps: seq<Piece>)
    requires NoLiterals(ps)
    ensures LiteralsArrive(ps)
  {
  }

  lemma WithoutLiteral(ps: seq<Piece>, tail: string, args: seq<string>, level: nat, memory: seq<string>)
    requires Writable(ps) && NoLiterals(ps)
    ensures Fits(ps, level) && LiteralsArrive(ps)
    ensures ReadFrom(Write(ps) + tail, args, level, memory) == Done(args + Values(ps), tail)
            <==> !Announces(args + Values(ps))
  {
    hide *;
    NoneArrive(ps);
    FirstLine(ps, tail, args, level, memory);
    WithoutLiterals(ps);
    FitsWithoutLiterals(ps, level);
    EmptyConcat(tail);
    LastLine(tail, args + Values(ps), level + |LinePart(ps)| + LineGrown(ps), Later(memory));
  }

  /** Reading up to the first literal and through it. */
  lemma ThroughLiteral(pre: seq<Piece>, p: Piece, post: seq<Piece>, tail: string, args: seq<string>, level: nat,
                       memory: seq<string>)
    requires NoLiterals(pre) && p.item.Literal? && Writable(pre + ([p] + post)) && Arrives(p.item.text)
    ensures var ps, value := pre + ([p] + post), ValueOf(p.item);
      var l := level + |LinePart(ps)| + LineGrown(ps);
      var r := ReadFrom(Write(ps) + tail, args, level, memory);
      var done, level' := args + Values(pre) + [value], l + |FoldCrlf(p.item.text)| + 1;
      && Writable(post) && args + Values(ps) == done + Values(post)
      && (Fits(ps, level) <==> l + |p.item.text| + 1 <= LARGEST && Fits(post, level'))
      && (l + |p.item.text| + 1 <= LARGEST ==> r == ReadFrom(Write(post) + tail, done, level', Later(memory)))
      && (l + |p.item.text| + 1 > LARGEST ==> !r.Done?)
  {
    hide *;
    var ps, value := pre + ([p] + post), ValueOf(p.item);
    FirstLine(ps, tail, args, level, memory);
    UpToLiteral(pre, p, post);
    FitsUpToLiteral(pre, p, post, level);
    ConcatAssoc(args, Values(pre), [Head(p.item)]);
    ConcatAssoc(p.item.text, Write(post), tail);
    LiteralTaken(p.item, Write(post) + tail, args + Values(pre), level + |LinePart(ps)| + LineGrown(ps), Later(memory));
    ConcatAssoc(args, Values(pre), [value] + Values(post));
    ConcatAssoc(args + Values(pre), [value], Values(post));
  }

  /** The server's next step: it takes the octets announced, if it has the room. */
  lemma LiteralTaken(item: Item, more: string, args: seq<string>, level: nat, memory: seq<string>)
    requires item.Literal? && GoodItem(item) && Arrives(item.text)
    ensures var r := AfterLine(item.text + more, args + [Head(item)], level, memory);
      && (level + |item.text| + 1 <= LARGEST ==>
        r == ReadFrom(more, args + [ValueOf(item)], level + |FoldCrlf(item.text)| + 1, memory))
      && (level + |item.text| + 1 > LARGEST ==> r.Refused? || r.Overflowing?)
  {
    hide ReadFrom, LiteralRequest, StoreLiteral, Header, FoldCrlf;
    var t, all := item.text, args + [Head(item)];
    HeaderAnnounces(|t|, item.sync);
    LiteralStored(t);
    assert all[..|all| - 1] == args && all[|all| - 1] == Head(item);
    assert (t + more)[..|t|] == t && (t + more)[|t|..] == more;
  }

  /** The same for a whole command. */
  lemma ReadInvertsWrite(ps: seq<Piece>, tail: string, memory: seq<string>)
    requires Writable(ps)
    ensures ReadCommand(Write(ps) + tail, memory) == Done(Values(ps), tail) 
            <==> !Announces(Values(ps)) && Fits(ps, 0) && LiteralsArrive(ps)
  {
    EmptyConcat(Values(ps));
    CommandReadsBack(ps, tail, [], 0, memory);
  }

  // ----- pipelines -----

  function WriteAll(commands: seq<seq<Piece>>): string {
    if commands == [] then [] else Write(commands[0]) + WriteAll(commands[1..])
  }

  /** What the server's main loop gets from as many calls of `imap4d_readline` as
      there are memories. */
  function ReadMany(input: string, memories: seq<seq<string>>): Option<(seq<seq<string>>, string)>
    decreases |memories|
  {
    if memories == [] then Some(([], input))
    else
      var r := ReadCommand(input, memories[0]);
      if !r.Done? then None
      else
        match ReadMany(r.rest, memories[1..])
        case Some((more, end)) => Some(([r.args] + more, end))
        case None => None
  }

  function AllValues(commands: seq<seq<Piece>>): seq<seq<string>> {
    if commands == [] then [] else [Values(commands[0])] + AllValues(commands[1..])
  }

  /** Commands sent without waiting are read one by one, none bleeding into the next,
      whatever each finds in the buffer. */
  lemma {:induction false} PipelineReadsBack(commands: seq<seq<Piece>>, tail: string, memories: seq<seq<string>>)
    requires |memories| == |commands|
    requires forall i :: 0 <= i < |commands| ==>
      Writable(commands[i]) && !Announces(Values(commands[i])) && Fits(commands[i], 0) && LiteralsArrive(commands[i])
    ensures ReadMany(WriteAll(commands) + tail, memories) == Some((AllValues(commands), tail))
    decreases |commands|
  {
    hide Write, Values, Writable, ReadCommand, Announces, Fits, LiteralsArrive;
    if commands == [] {
      EmptyConcat(tail);
    } else {
      var w, more := Write(commands[0]), WriteAll(commands[1..]);
      ConcatAssoc(w, more, tail);
      ReadInvertsWrite(commands[0], more + tail, memories[0]);
      PipelineReadsBack(commands[1..], tail, memories[1..]);
    }
  }

  /** The family that fails is not empty: an atom that looks like an announcement. */
  lemma AnnouncementIsNotReadBack(n: nat, tail: string, memory: seq<string>)
    requires n <= ULONG_MAX
    ensures var ps := [Piece([], Atom(Header(n, true)))];
      Writable(ps) && ReadCommand(Write(ps) + tail, memory) != Done(Values(ps), tail)
  {
    hide Writable, Values, Header, ReadCommand, Write, Fits, LiteralRequest, GoodAtom;
    var ps := [Piece([], Atom(Header(n, true)))];
    HeaderIsAtom(n, true);
    HeaderAnnounces(n, true);
    AtomAlone([], Header(n, true));
    ReadInvertsWrite(ps, tail, memory);
  }

  lemma AtomAlone(blanks: string, t: string)
    requires GoodAtom(t) && AllBlank(blanks)
    ensures Writable([Piece(blanks, Atom(t))]) && Values([Piece(blanks, Atom(t))]) == [t]
  {
    assert [Piece(blanks, Atom(t))][1..] == [];
    EmptyConcat([t]);
  }

  // ----- counts that wrap -----

  lemma OneIsOne()
    ensures DigitRun("1}") == 1 && DecValue("1") == 1
  {
    assert "1}"[1..] == "}";
    assert "1"[..0] == [];
  }

  lemma MinusOneParses()
    ensures ParseUlong("-1}") == Strtoul(ULONG_MAX, 2)
  {
    hide DigitRun, DecValue;
    OneIsOne();
    var s := "-1}";
    assert s[1..] == "1}" && "1}"[..1] == "1";
  }

  lemma MinusOne()
    ensures LiteralRequest("{-1}") == Some(ULONG_MAX)
  {
    hide ParseUlong;
    var arg := "{-1}";
    assert arg[1..] == "-1}" && arg[3] == '}';
    MinusOneParses();
  }

  const WRAPS := [Piece([], Atom("a")), Piece(" ", Atom("{-1}"))]

  lemma WrapsIsWritable()
    ensures Writable(WRAPS) && NoLiterals(WRAPS)
    ensures |Values(WRAPS)| == 2 && Values(WRAPS)[1] == "{-1}"
  {
    assert GoodAtom("a") && GoodAtom("{-1}");
    var last := Piece(" ", Atom("{-1}"));
    AtomAlone(" ", "{-1}");
    assert WRAPS[1..] == [last];
    ConsDrop("a", ["{-1}"]);
  }

  /** A count for which room is made modulo 2^64: of the octets that follow, none has
      been provided for, and one is enough to be written outside the buffer. */
  lemma CountWraps(next: char, more: string, memory: seq<string>)
    ensures ReadCommand(Write(WRAPS) + ([next] + more), memory).Overflowing?
  {
    hide Write, Writable, Values, LineValues, LinePart, LineGrown, LiteralRequest, ReadFrom;
    var tail, args := [next] + more, Values(WRAPS);
    WrapsIsWritable();
    FirstLine(WRAPS, tail, [], 0, memory);
    WithoutLiterals(WRAPS);
    EmptyConcat(args);
    EmptyConcat(tail);
    MinusOne();
  }
}
