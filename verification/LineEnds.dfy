/** Quoted strings at the end of a line.  The tokenizer looks for the closing quote
    beyond the line, so that what it finds can depend on what the buffer held before. */
module LineEnds {
  import opened Text
  import opened Lexer
  import opened Quoting
  import opened Reader
  import opened CommandWriter

  /** The NULs inserted by the time a piece behind `ps` is read. */
  function Insertions(ps: seq<Piece>): nat {
    if ps == [] then 0 else (if ps[0].item.Quoted? then 0 else 1) + Insertions(ps[1..])
  }

  /** A line of pieces with one more quoted string at its end. */
  predicate LineBefore(ps: seq<Piece>, last: Piece) {
    && Writable(ps) && NoLiterals(ps)
    && last.item.Quoted? && OnLine(last.item.text) && AllBlank(last.blanks)
    && (ps != [] && ps[|ps| - 1].item.Atom? ==> last.blanks != [])
  }

  lemma LastPart(last: Piece)
    requires LineBefore([], last)
    ensures LinePart([last]) == last.blanks + QuotedText(last.item.text)
    ensures Trimmed(LinePart([last])) && OnLine(LinePart([last])) && LinePart([last]) != []
    ensures last.blanks != [] ==> IsBlank(LinePart([last])[0])
  {
    EmptyConcat(QuotedText(last.item.text));
    QuotedShape(last.item.text, []);
    EscapeChars(last.item.text);
  }

  lemma LineBeforeTail(ps: seq<Piece>, last: Piece)
    requires LineBefore(ps, last) && ps != []
    ensures LineBefore(ps[1..], last) && AllBlank(ps[0].blanks) && GoodItem(ps[0].item)
    ensures (ps + [last])[0] == ps[0] && (ps + [last])[1..] == ps[1..] + [last]
  {
    assert |ps| > 1 ==> ps[1..][|ps| - 2] == ps[|ps| - 1];
  }

  lemma {:induction false} LineBeforeShape(ps: seq<Piece>, last: Piece)
    requires LineBefore(ps, last)
    ensures var l := LinePart(ps + [last]);
      && Trimmed(l) && OnLine(l) && l != []
      && (ps == [] && last.blanks != [] ==> IsBlank(l[0]))
      && (ps != [] && ps[0].blanks != [] ==> IsBlank(l[0]))
      && (ps != [] && ps[0].blanks == [] && IsParen(ps[0].item) ==> IsDelim(l[0]))
    decreases |ps|
  {
    hide LinePart, Writable, Head, GoodItem, OnLine, AllBlank, NoLiterals;
    if ps == [] {
      EmptyConcat([last]);
      LastPart(last);
    } else {
      LineBeforeTail(ps, last);
      LineBeforeShape(ps[1..], last);
      NotLiteral(ps, last);
      FollowsOnLine(ps, last, LinePart(ps[1..] + [last]));
      PieceInFront(ps[0], LinePart(ps[1..] + [last]));
    }
  }

  lemma RestOnLine(item: Item, rest: string)
    requires MayFollow(item, rest)
    ensures OnLine(rest)
  {
  }

  lemma PieceInFront(p: Piece, rest: string)
    requires AllBlank(p.blanks) && GoodItem(p.item) && MayFollow(p.item, rest)
    ensures var l := p.blanks + (Head(p.item) + rest);
      && Trimmed(l) && OnLine(l) && l != []
      && (p.blanks != [] ==> IsBlank(l[0]))
      && (p.blanks == [] && IsParen(p.item) ==> IsDelim(l[0]))
  {
    hide LexFrom, LexTok, QuotedText, Header, GoodItem, OnLine, MayFollow, Trimmed;
    RestOnLine(p.item, rest);
    HeadReads(p.item, rest, []);
    BlanksSkipped(p.blanks, Head(p.item) + rest, []);
    OnLineConcat(p.blanks, Head(p.item), rest);
  }

  lemma FollowsOnLine(ps: seq<Piece>, last: Piece, rest: string)
    requires LineBefore(ps, last) && ps != [] && Trimmed(rest) && OnLine(rest) && rest != []
    requires |ps| == 1 && last.blanks != [] ==> IsBlank(rest[0])
    requires |ps| > 1 && ps[1].blanks != [] ==> IsBlank(rest[0])
    requires |ps| > 1 && ps[1].blanks == [] && IsParen(ps[1].item) ==> IsDelim(rest[0])
    ensures MayFollow(ps[0].item, rest)
  {
  }

  /** Each piece moves what follows it up by one, and the memory behind shrinks. */
  lemma {:induction false} LexUpToLast(ps: seq<Piece>, last: Piece, beyond: string)
    requires LineBefore(ps, last)
    ensures Trimmed(LinePart(ps + [last])) && Trimmed(LinePart([last]))
    ensures Lex(LinePart(ps + [last]), beyond)
            == Prepended(Values(ps), Insertions(ps), Lex(LinePart([last]), Shrink(beyond, Insertions(ps))))
    decreases |ps|
  {
    hide Lex, LinePart, Writable, Head, ValueOf, GoodItem, OnLine, LexFrom, AllBlank, NoLiterals;
    LineBeforeShape(ps, last);
    if ps == [] {
      EmptyConcat([last]);
      PrependNothing(Lex(LinePart([last]), beyond));
    } else {
      LineBeforeTail(ps, last);
      LineBeforeShape(ps[1..], last);
      var p, rest := ps[0], LinePart(ps[1..] + [last]);
      NotLiteral(ps, last);
      FollowsOnLine(ps, last, rest);
      HeadReads(p.item, rest, beyond);
      var n := Inserted(p.item, rest);
      LexCons(p.blanks, Head(p.item), ValueOf(p.item), n, rest, beyond);
      LexUpToLast(ps[1..], last, Shrink(beyond, n));
      ShrinkTwice(beyond, n, Insertions(ps[1..]));
      PrependMore(ValueOf(p.item), n, Values(ps[1..]), Insertions(ps[1..]),
                  Lex(LinePart([last]), Shrink(beyond, Insertions(ps))));
    }
  }

  lemma NotLiteral(ps: seq<Piece>, last: Piece)
    requires LineBefore(ps, last) && ps != []
    ensures !ps[0].item.Literal? && HeadValue(ps[0].item) == ValueOf(ps[0].item)
    ensures LinePart(ps + [last]) == ps[0].blanks + (Head(ps[0].item) + LinePart(ps[1..] + [last]))
  {
    assert (ps + [last])[0] == ps[0] && (ps + [last])[1..] == ps[1..] + [last];
  }

  lemma ShrinkTwice(beyond: string, n: nat, m: nat)
    ensures Shrink(Shrink(beyond, n), m) == Shrink(beyond, n + m)
  {
    if n + m <= |beyond| { SliceSlice(beyond, n, |beyond|, m, |beyond| - n); }
  }

  lemma OneToken(s: string, v: string, beyond: string)
    requires s != [] && Trimmed(s)
    ensures Lex(s, beyond).Args? && Lex(s, beyond).values == [v] <==> LexTok(s, beyond) == Tok(v, [], 0)
    ensures LexTok(s, beyond).Overrun? ==> Lex(s, beyond).LineOverrun?
  {
    hide LexTok, Shrink;
    var r := LexTok(s, beyond);
    if r.Tok? {
      var more := Lex(r.rest, Shrink(beyond, r.grown));
      if more.Args? { ConsDrop(r.value, more.values); }
    }
  }

  /** The last quoted string alone. */
  lemma LastAlone(last: Piece, beyond: string)
    requires LineBefore([], last)
    ensures Trimmed(LinePart([last]))
    ensures var r := Lex(LinePart([last]), beyond);
      && (r.Args? && r.values == [last.item.text]
          <==> !EndsInBackslash(last.item.text) || EndsAtNul([], beyond))
      && (EndsInBackslash(last.item.text) && beyond == [] ==> r.LineOverrun?)
  {
    var t, q := last.item.text, QuotedText(last.item.text);
    hide LinePart, Lex, LexFrom, LexTok, QuotedText, OnLine;
    LastPart(last);
    EmptyConcat(q);
    CleanOnLine(t);
    QuotedReadsBack(t, [], beyond);
    QuotedShape(t, []);
    BlanksSkipped(last.blanks, q, beyond);
    OneToken(last.blanks + q, t, beyond);
    if EndsInBackslash(t) && beyond == [] { LeavesTheBuffer(t); }
  }

  lemma CleanOnLine(t: string)
    requires OnLine(t)
    ensures NUL !in t
  {
  }

  lemma LeavesTheBuffer(t: string)
    requires NUL !in t && EndsInBackslash(t)
    ensures Trimmed(QuotedText(t)) && LexFrom(QuotedText(t), []).Overrun?
  {
    hide Escape, QuotedText;
    var q := QuotedText(t);
    EmptyConcat(q);
    EmptyConcat(q + []);
    QuotedShape(t, []);
    QuotedMemory(t, [], []);
    FindCloseScan(q, 1, Miss, t, []);
  }

  /** A quoted string at the end of a line is read back exactly if it does not end in a
      backslash or the byte that has come to lie behind it is a NUL.  Every atom and
      every parenthesis in front of it uses up one of the bytes behind the line. */
  lemma LastQuotedReadsBack(ps: seq<Piece>, last: Piece, beyond: string)
    requires LineBefore(ps, last)
    ensures Trimmed(LinePart(ps + [last]))
    ensures var r := Lex(LinePart(ps + [last]), beyond);
      var t, k := last.item.text, Insertions(ps);
      && (r.Args? && r.values == Values(ps) + [t]
          <==> !EndsInBackslash(t) || (k < |beyond| && beyond[k] == NUL))
      && (EndsInBackslash(t) && |beyond| <= k ==> r.LineOverrun?)
  {
    hide Lex, LinePart, Values, Insertions, AllBlank, OnLine, Writable, NoLiterals;
    LineBeforeLast(ps, last);
    LexUpToLast(ps, last, beyond);
    var b := Shrink(beyond, Insertions(ps));
    LastAlone(last, b);
    var r := Lex(LinePart([last]), b);
    if r.Args? { SamePrefix(Values(ps), r.values, [last.item.text]); }
  }

  lemma LineBeforeLast(ps: seq<Piece>, last: Piece)
    requires LineBefore(ps, last)
    ensures LineBefore([], last)
  {
  }

  lemma SamePrefix<T>(a: seq<T>, b: seq<T>, c: seq<T>)
    ensures a + b == a + c <==> b == c
  {
    if a + b == a + c {
      assert (a + b)[|a|..] == b;
      assert (a + c)[|a|..] == c;
    }
  }

  /** On the wire: behind the line lie two NULs, for its CR and LF, and then what the
      buffer held before. */
  lemma LastQuotedOnTheWire(ps: seq<Piece>, last: Piece, tail: string, memory: seq<string>)
    requires LineBefore(ps, last) && EndsInBackslash(last.item.text) && !Announces(Values(ps) + [last.item.text])
    ensures var r := ReadCommand(LinePart(ps + [last]) + CRLF + tail, memory);
      var k := Insertions(ps);
      && (k < 2 ==> r == Done(Values(ps) + [last.item.text], tail))
      && (2 <= k < 2 + |First(memory)| && First(memory)[k - 2] == NUL ==> r == Done(Values(ps) + [last.item.text], tail))
      && (2 <= k < 2 + |First(memory)| && First(memory)[k - 2] != NUL ==> r != Done(Values(ps) + [last.item.text], tail))
      && (2 + |First(memory)| <= k ==> r.Straying?)
  {
    hide Lex, LinePart, Values, Insertions, Writable, NoLiterals, Announces, ReadFrom, AfterLine;
    var l, beyond := LinePart(ps + [last]), Nuls(2) + First(memory);
    LineBeforeShape(ps, last);
    LastQuotedReadsBack(ps, last, beyond);
    LineTaken(l, tail, [], 0, memory);
    var r := Lex(l, beyond);
    if r.Args? {
      EmptyConcat(r.values);
      LastLine(tail, r.values, 0 + |l| + r.grown, Later(memory));
      OtherArgs(tail, r.values, 0 + |l| + r.grown, Later(memory));
    }
  }

  /** What is left in the input tells whether a literal was read. */
  lemma OtherArgs(tail: string, args: seq<string>, level: nat, memory: seq<string>)
    ensures var r := AfterLine(tail, args, level, memory); r.Done? && r.rest == tail ==> r.args == args
  {
  }

  const LOGIN: seq<Piece> := [Piece([], Atom("A1")), Piece(" ", Atom("LOGIN")), Piece(" ", Atom("user"))]
  const PASSWORD := Piece(" ", Quoted("pw\\"))

  lemma LoginIsLine()
    ensures LineBefore(LOGIN, PASSWORD) && Insertions(LOGIN) == 3 && EndsInBackslash(PASSWORD.item.text)
  {
    var b, c := LOGIN[1], LOGIN[2];
    assert LOGIN[1..] == [b, c] && [b, c][1..] == [c] && [c][1..] == [];
    assert Insertions([c]) == 1 && Insertions([b, c]) == 2;
    assert GoodAtom("A1") && GoodAtom("LOGIN") && GoodAtom("user");
    assert Writable([c]) && Writable([b, c]);
  }

  /** A password that ends in a backslash, on a fresh connection. */
  lemma PasswordStrays(tail: string)
    ensures ReadCommand(LinePart(LOGIN + [PASSWORD]) + CRLF + tail, []).Straying?
  {
    hide LineBefore, Insertions, LinePart, ReadCommand, Values;
    LoginIsLine();
    var args := Values(LOGIN) + [PASSWORD.item.text];
    assert args[|args| - 1] == PASSWORD.item.text;
    LastQuotedOnTheWire(LOGIN, PASSWORD, tail, []);
  }
}
