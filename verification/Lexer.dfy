/** Splitting a command line into arguments, as functions on the text: quoting,
    the closing-quote search of `gettok`, atoms and parentheses. */
module Lexer {
  import opened Text

  // ----- C strings -----

  /** The string a `char *` shows: everything up to the first NUL. */
  function CStr(s: string): (r: string)
    ensures |r| <= |s| && r == s[..|r|] && NUL !in r
    ensures |r| < |s| ==> s[|r|] == NUL
  {
    if s == [] || s[0] == NUL then [] else [s[0]] + CStr(s[1..])
  }

  lemma {:induction false} CStrClean(s: string)
    requires NUL !in s
    ensures CStr(s) == s
  {
    if s != [] {
      HeadTail(s);
      CStrClean(s[1..]);
    }
  }

  // ----- backslash escapes -----

  /** What `unquote` can process: every backslash it stops at is followed by a
      backslash or a double quote.  A trailing backslash sits in front of the
      closing quote. */
  predicate WellEscaped(s: string) {
    if s == [] then true
    else if s[0] != BACKSLASH then WellEscaped(s[1..])
    else if |s| == 1 then true
    else (s[1] == BACKSLASH || s[1] == QUOTE) && WellEscaped(s[2..])
  }

  function Unescape(s: string): (r: string)
    requires WellEscaped(s)
    ensures |r| <= |s|
  {
    if s == [] then []
    else if s[0] != BACKSLASH then [s[0]] + Unescape(s[1..])
    else if |s| == 1 then []
    else [s[1]] + Unescape(s[2..])
  }

  predicate Special(c: char) {
    c == BACKSLASH || c == QUOTE
  }

  /** How a client writes a quoted string (section 9 of RFC 3501). */
  function Escape(t: string): string {
    if t == [] then []
    else (if Special(t[0]) then [BACKSLASH, t[0]] else [t[0]]) + Escape(t[1..])
  }

  /** `unquote` undoes escaping, for every string. */
  lemma {:induction false} UnescapeEscape(t: string)
    ensures WellEscaped(Escape(t)) && Unescape(Escape(t)) == t
  {
    if t != [] {
      UnescapeEscape(t[1..]);
      HeadTail(t);
      var e := Escape(t[1..]);
      if Special(t[0]) {
        assert ([BACKSLASH, t[0]] + e)[2..] == e;
      } else {
        ConsDrop(t[0], e);
      }
    }
  }

  // ----- CRLF -----

  /** `imap4d_tokbuf_decrlf`: drop each CR that is followed by LF. */
  function FoldCrlf(s: string): (r: string)
    ensures |r| <= |s|
  {
    if s == [] then []
    else if s[0] == CR && |s| > 1 && s[1] == LF then FoldCrlf(s[1..])
    else [s[0]] + FoldCrlf(s[1..])
  }

  // ----- one token -----

  /** `ISDELIM`: `strchr` also finds the terminating NUL. */
  predicate IsDelim(c: char) {
    c == '(' || c == ')' || c == NUL
  }

  /** Text whose last character is not blank, as `imap4d_tokbuf_getline` leaves it. */
  predicate Trimmed(s: string) {
    s != [] ==> !IsBlank(s[|s| - 1])
  }

  function BlankRun(s: string): (n: nat)
    ensures n <= |s|
    ensures forall i :: 0 <= i < n ==> IsBlank(s[i])
    ensures n < |s| ==> !IsBlank(s[n])
    ensures Trimmed(s) && s != [] ==> n < |s|
  {
    if s == [] || !IsBlank(s[0]) then 0
    else
      assert s[1..] != [] ==> s[1..][|s| - 2] == s[|s| - 1];
      1 + BlankRun(s[1..])
  }

  /** Length of the leading run of characters that belong to an atom. */
  function AtomRun(s: string): (n: nat)
    ensures n <= |s|
    ensures forall i :: 0 <= i < n ==> !IsBlank(s[i]) && !IsDelim(s[i])
    ensures n < |s| ==> IsBlank(s[n]) || IsDelim(s[n])
  {
    if s == [] || IsBlank(s[0]) || IsDelim(s[0]) then 0 else 1 + AtomRun(s[1..])
  }

  lemma {:induction false} BlankRunIs(s: string, n: nat)
    requires n <= |s| && (forall i :: 0 <= i < n ==> IsBlank(s[i]))
    requires n < |s| ==> !IsBlank(s[n])
    ensures BlankRun(s) == n
  {
    if n > 0 { BlankRunIs(s[1..], n - 1); }
  }

  lemma {:induction false} AtomRunIs(s: string, n: nat)
    requires n <= |s| && (forall i :: 0 <= i < n ==> !IsBlank(s[i]) && !IsDelim(s[i]))
    requires n < |s| ==> IsBlank(s[n]) || IsDelim(s[n])
    ensures AtomRun(s) == n
  {
    if n > 0 { AtomRunIs(s[1..], n - 1); }
  }

  /** The outcome of a search in memory: a hit, a NUL in the way, or neither before
      the memory ends. */
  datatype Search = Hit(at: nat) | Miss | Past

  /** `strchr (s + i, '"')`, which stops at a NUL. */
  function NextQuote(s: string, i: nat): (r: Search)
    requires i <= |s|
    ensures r.Hit? ==> i <= r.at < |s| && s[r.at] == QUOTE
    ensures r.Hit? ==> forall k :: i <= k < r.at ==> s[k] != QUOTE && s[k] != NUL
    decreases |s| - i
  {
    if i == |s| then Past
    else if s[i] == NUL then Miss
    else if s[i] == QUOTE then Hit(i)
    else NextQuote(s, i + 1)
  }

  predicate Clean(s: string, lo: nat, hi: nat)
    requires lo <= hi <= |s|
  {
    forall i :: lo <= i < hi ==> s[i] != NUL
  }

  /** The search for the closing quote in `gettok`: a quote counts unless the
      character before it is a backslash.  `last` is what `p` keeps when a NUL
      comes right after a quote that did not count. */
  function FindClose(s: string, start: nat, last: Search): (r: Search)
    requires 1 <= start <= |s| && Clean(s, 1, start)
    requires last.Hit? ==> 1 <= last.at < start && s[last.at] == QUOTE
    ensures r.Hit? ==> 1 <= r.at < |s| && s[r.at] == QUOTE && Clean(s, 1, r.at)
    decreases |s| - start
  {
    if start == |s| then Past
    else if s[start] == NUL then last
    else
      var p := NextQuote(s, start);
      if p.Hit? && p.at != start && s[p.at - 1] == BACKSLASH then FindClose(s, p.at + 1, p) else p
  }

  /** The result of `gettok`: an argument, the text after it and the number of NULs
      that were inserted in front of that text; or an endless loop in `unquote`; or
      a search that leaves the buffer. */
  datatype Lexed = Tok(value: string, rest: string, grown: nat) | Spin | Overrun

  /** One NUL is put in front of `rest`, unless that is empty. */
  function Grown(rest: string): nat {
    if rest == [] then 0 else 1
  }

  /** `gettok` on the text `s` from its offset up to `level`, with `beyond` behind it
      in the buffer. */
  function LexTok(s: string, beyond: string): (r: Lexed)
    requires s != [] && Trimmed(s)
    ensures r.Tok? ==> NUL !in r.value && Trimmed(r.rest) && r.grown <= Grown(r.rest)
    ensures r.Tok? ==> |r.rest| < |s| && r.rest == s[|s| - |r.rest|..]
  {
    LexFrom(s[BlankRun(s)..], beyond)
  }

  function LexFrom(t: string, beyond: string): (r: Lexed)
    requires t != [] && Trimmed(t) && !IsBlank(t[0])
    ensures r.Tok? ==> NUL !in r.value && Trimmed(r.rest) && r.grown <= Grown(r.rest)
    ensures r.Tok? ==> |r.rest| < |t| && r.rest == t[|t| - |r.rest|..]
  {
    var close := if t[0] == QUOTE then FindClose(t + beyond, 1, Miss) else Miss;
    if close.Past? then Overrun
    else if close.Hit? then LexQuoted(t, beyond, close.at)
    else if IsDelim(t[0]) then Tok(CStr(t[..1]), t[1..], Grown(t[1..]))
    else Tok(t[..AtomRun(t)], t[AtomRun(t)..], Grown(t[AtomRun(t)..]))
  }

  /** What follows position `p` of the text. */
  function Behind(t: string, p: nat): (r: string)
    ensures Trimmed(t) ==> Trimmed(r)
    ensures |r| <= |t| && r == t[|t| - |r|..] && (t != [] ==> |r| < |t|)
  {
    if p < |t| then t[p + 1..] else []
  }

  /** The closing quote at `p` may lie behind the text. */
  function LexQuoted(t: string, beyond: string, p: nat): (r: Lexed)
    requires t != [] && 1 <= p < |t + beyond| && Clean(t + beyond, 1, p)
    ensures !r.Overrun? && (r.Tok? ==> NUL !in r.value && r.rest == Behind(t, p) && r.grown == 0)
  {
    var text := (t + beyond)[1..p];
    if WellEscaped(text) then
      UnescapeClean(text);
      Tok(Unescape(text), Behind(t, p), 0)
    else Spin
  }

  lemma {:induction false} UnescapeClean(s: string)
    requires WellEscaped(s) && NUL !in s
    ensures NUL !in Unescape(s)
  {
    if s == [] {
    } else if s[0] != BACKSLASH {
      UnescapeClean(s[1..]);
    } else if |s| > 1 {
      UnescapeClean(s[2..]);
    }
  }

  /** What is left behind the text when it has moved up by `n`. */
  function Shrink(beyond: string, n: nat): (r: string) {
    if n <= |beyond| then beyond[n..] else []
  }

  /** All arguments of a line and the number of NULs inserted between them, or how
      `gettok` fails. */
  datatype LexedLine = Args(values: seq<string>, grown: nat) | LineSpin | LineOverrun

  /** `imap4d_tokbuf_tokenize`. */
  function Lex(s: string, beyond: string): (r: LexedLine)
    requires Trimmed(s)
    ensures r.Args? && s != [] ==> r.values != []
    decreases |s|
  {
    if s == [] then Args([], 0)
    else
      match LexTok(s, beyond)
      case Spin => LineSpin
      case Overrun => LineOverrun
      case Tok(v, rest, n) => Consed(v, n, Lex(rest, Shrink(beyond, n)))
  }

  function Consed(v: string, n: nat, r: LexedLine): LexedLine {
    if r.Args? then Args([v] + r.values, n + r.grown) else r
  }

  /** A line whose first arguments are known already. */
  function Prepended(vs: seq<string>, n: nat, r: LexedLine): LexedLine {
    if r.Args? then Args(vs + r.values, n + r.grown) else r
  }

  lemma PrependNothing(r: LexedLine)
    ensures Prepended([], 0, r) == r
  {
    if r.Args? { EmptyConcat(r.values); }
  }

  lemma PrependMore(v: string, n: nat, vs: seq<string>, m: nat, r: LexedLine)
    ensures Consed(v, n, Prepended(vs, m, r)) == Prepended([v] + vs, n + m, r)
  {
    if r.Args? { ConcatAssoc([v], vs, r.values); }
  }

  lemma PrependSnoc(vs: seq<string>, m: nat, v: string, n: nat, r: LexedLine)
    ensures Prepended(vs, m, Consed(v, n, r)) == Prepended(vs + [v], m + n, r)
  {
    if r.Args? { ConcatAssoc(vs, [v], r.values); }
  }

  // ----- what depends on the bytes behind the line -----

  lemma {:induction false} NextQuoteMore(s: string, i: nat, more: string)
    requires i <= |s| && !NextQuote(s, i).Past?
    ensures NextQuote(s + more, i) == NextQuote(s, i)
    decreases |s| - i
  {
    if s[i] != NUL && s[i] != QUOTE { NextQuoteMore(s, i + 1, more); }
  }

  lemma {:induction false} FindCloseMore(s: string, start: nat, last: Search, more: string)
    requires 1 <= start <= |s| && Clean(s, 1, start)
    requires last.Hit? ==> 1 <= last.at < start && s[last.at] == QUOTE
    requires !FindClose(s, start, last).Past?
    ensures Clean(s + more, 1, start) && FindClose(s + more, start, last) == FindClose(s, start, last)
    decreases |s| - start
  {
    hide NextQuote;
    if s[start] != NUL {
      var p := NextQuote(s, start);
      NextQuoteMore(s, start, more);
      if p.Hit? && p.at != start && s[p.at - 1] == BACKSLASH { FindCloseMore(s, p.at + 1, p, more); }
    }
  }

  /** A token that was found without leaving the buffer does not depend on what lies
      further behind. */
  lemma LexTokMore(s: string, beyond: string, more: string)
    requires s != [] && Trimmed(s) && !LexTok(s, beyond).Overrun?
    ensures LexTok(s, beyond + more) == LexTok(s, beyond)
  {
    var t := s[BlankRun(s)..];
    ConcatAssoc(t, beyond, more);
    if t[0] == QUOTE {
      FindCloseMore(t + beyond, 1, Miss, more);
      var p := FindClose(t + beyond, 1, Miss);
      if p.Hit? { assert (t + beyond + more)[1..p.at] == (t + beyond)[1..p.at]; }
    }
  }

  lemma ShrinkMore(beyond: string, n: nat, more: string)
    ensures Shrink(beyond + more, n) == Shrink(beyond, n) + Shrink(more, if n <= |beyond| then 0 else n - |beyond|)
  {
  }

  lemma {:induction false} LexMore(s: string, beyond: string, more: string)
    requires Trimmed(s) && !Lex(s, beyond).LineOverrun?
    ensures Lex(s, beyond + more) == Lex(s, beyond)
    decreases |s|
  {
    hide LexTok, Shrink;
    if s != [] {
      LexTokMore(s, beyond, more);
      var r := LexTok(s, beyond);
      if r.Tok? {
        ShrinkMore(beyond, r.grown, more);
        LexMore(r.rest, Shrink(beyond, r.grown), Shrink(more, if r.grown <= |beyond| then 0 else r.grown - |beyond|));
      }
    }
  }

  function Nuls(n: nat): (r: string)
    ensures |r| == n && forall i :: 0 <= i < n ==> r[i] == NUL
  {
    seq(n, i => NUL)
  }

  lemma {:induction false} NextQuoteStops(s: string, i: nat, k: nat)
    requires i <= k < |s| && s[k] == NUL
    ensures !NextQuote(s, i).Past?
    ensures NextQuote(s, i).Hit? ==> NextQuote(s, i).at < k
    decreases k - i
  {
    if s[i] != NUL && s[i] != QUOTE { NextQuoteStops(s, i + 1, k); }
  }

  lemma {:induction false} FindCloseStops(s: string, start: nat, last: Search, k: nat)
    requires 1 <= start <= k < |s| && s[k] == NUL && Clean(s, 1, start)
    requires last.Hit? ==> 1 <= last.at < start && s[last.at] == QUOTE
    requires !last.Past?
    ensures !FindClose(s, start, last).Past?
    decreases k - start
  {
    NextQuoteStops(s, start, k);
    var p := NextQuote(s, start);
    if s[start] != NUL && p.Hit? && p.at != start && s[p.at - 1] == BACKSLASH { FindCloseStops(s, p.at + 1, p, k); }
  }

  lemma LexTokStops(s: string, beyond: string)
    requires s != [] && Trimmed(s) && beyond != [] && beyond[|beyond| - 1] == NUL
    ensures !LexTok(s, beyond).Overrun?
  {
    var t := s[BlankRun(s)..];
    var u := t + beyond;
    assert u[|u| - 1] == beyond[|beyond| - 1];
    if t[0] == QUOTE { FindCloseStops(u, 1, Miss, |u| - 1); }
  }

  /** Behind enough memory that ends in a NUL no search gets lost. */
  lemma {:induction false} LexStops(s: string, beyond: string)
    requires Trimmed(s) && |beyond| > |s| && beyond[|beyond| - 1] == NUL
    ensures !Lex(s, beyond).LineOverrun?
    decreases |s|
  {
    hide LexTok;
    if s != [] {
      LexTokStops(s, beyond);
      var r := LexTok(s, beyond);
      if r.Tok? { LexStops(r.rest, Shrink(beyond, r.grown)); }
    }
  }

  /** What a line is taken for depends on the bytes behind what is known of the
      buffer if and only if a search leaves that part. */
  lemma LineIsDetermined(s: string, known: string)
    requires Trimmed(s)
    ensures !Lex(s, known).LineOverrun? <==> forall more :: Lex(s, known + more) == Lex(s, known)
  {
    if Lex(s, known).LineOverrun? {
      var more := Nuls(|s| + 1);
      assert (known + more)[|known + more| - 1] == more[|s|];
      LexStops(s, known + more);
    } else {
      forall more ensures Lex(s, known + more) == Lex(s, known) { LexMore(s, known, more); }
    }
  }
}
