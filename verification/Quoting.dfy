/** Quoted strings: what a client that escapes double quotes and backslashes
    writes, and when the server's tokenizer reads it back. */
module Quoting {
  import opened Text
  import opened Lexer

  predicate EndsInBackslash(t: string) {
    t != [] && t[|t| - 1] == BACKSLASH
  }

  function QuotedText(t: string): string {
    [QUOTE] + Escape(t) + [QUOTE]
  }

  lemma Regroup(a: string, b: string, c: string, d: string, e: string)
    ensures a + b + c + d + e == a + b + (c + d + e)
  {
    ConcatAssoc(a + b, c, d);
    ConcatAssoc(a + b, c + d, e);
  }

  lemma {:induction false} EscapeConcat(a: string, b: string)
    ensures Escape(a + b) == Escape(a) + Escape(b)
  {
    if a == [] {
      EmptyConcat(b);
      EmptyConcat(Escape(b));
    } else {
      assert (a + b)[0] == a[0] && (a + b)[1..] == a[1..] + b;
      EscapeConcat(a[1..], b);
      ConcatAssoc(if Special(a[0]) then [BACKSLASH, a[0]] else [a[0]], Escape(a[1..]), Escape(b));
    }
  }

  lemma {:induction false} EscapeChars(t: string)
    ensures forall c :: c in Escape(t) ==> c in t || c == BACKSLASH
  {
    if t != [] {
      EscapeChars(t[1..]);
      assert forall c :: c in t[1..] ==> c in t;
    }
  }

  lemma {:induction false} EscapeLast(t: string)
    requires t != []
    ensures Escape(t) != [] && Escape(t)[|Escape(t)| - 1] == t[|t| - 1]
  {
    if |t| > 1 {
      EscapeLast(t[1..]);
      assert t[1..][|t| - 2] == t[|t| - 1];
    }
  }

  lemma {:induction false} NextQuoteIs(s: string, i: nat, k: nat)
    requires i <= k < |s| && s[k] == QUOTE
    requires forall j :: i <= j < k ==> s[j] != QUOTE && s[j] != NUL
    ensures NextQuote(s, i) == Hit(k)
    decreases k - i
  {
    if i < k { NextQuoteIs(s, i + 1, k); }
  }

  /** The position where the tokenizer takes a quoted string to end, if all that
      lies between it and `start` is the escaped text `u`. */
  function ClosedAt(s: string, p: nat, u: string): Search
    requires 1 <= p < |s| && s[p] == QUOTE && Clean(s, 1, p)
  {
    if EndsInBackslash(u) then FindClose(s, p + 1, Hit(p)) else Hit(p)
  }

  /** Scanning over escaped text: the tokenizer passes every escaped quote, and
      passes the closing one as well if a backslash stands before it. */
  lemma {:induction false} FindCloseScan(s: string, start: nat, last: Search, u: string, rest: string)
    requires 1 <= start <= |s| && Clean(s, 1, start) && NUL !in u && s[start..] == Escape(u) + [QUOTE] + rest
    requires last.Hit? ==> 1 <= last.at < start && s[last.at] == QUOTE
    ensures start + |Escape(u)| < |s| && s[start + |Escape(u)|] == QUOTE && Clean(s, 1, start + |Escape(u)|)
    ensures FindClose(s, start, last) == ClosedAt(s, start + |Escape(u)|, u)
    decreases |u|
  {
    ScanShape(s, start, u, rest);
    hide Escape, FindClose;
    if k: nat :| k < |u| && u[k] == QUOTE && QUOTE !in u[..k] {
      FindCloseSkip(s, start, last, u, rest, k);
    } else {
      NoFirst(u, QUOTE);
      ScanPlain(s, start, last, u, rest);
    }
  }

  lemma ScanPlain(s: string, start: nat, last: Search, u: string, rest: string)
    requires 1 <= start <= |s| && Clean(s, 1, start) && NUL !in u && s[start..] == Escape(u) + [QUOTE] + rest
    requires last.Hit? ==> 1 <= last.at < start && s[last.at] == QUOTE
    requires QUOTE !in u && start + |Escape(u)| < |s|
    requires s[start + |Escape(u)|] == QUOTE && Clean(s, 1, start + |Escape(u)|)
    ensures FindClose(s, start, last) == ClosedAt(s, start + |Escape(u)|, u)
  {
    hide Escape, NextQuote;
    ScanShape(s, start, u, rest);
    EscapeChars(u);
    NextQuoteIs(s, start, start + |Escape(u)|);
    if u == [] { EscapeEmpty(); } else { EscapeLast(u); }
  }

  lemma EscapeEmpty()
    ensures Escape([]) == []
  {
  }

  lemma ScanShape(s: string, start: nat, u: string, rest: string)
    requires 1 <= start <= |s| && Clean(s, 1, start) && NUL !in u && s[start..] == Escape(u) + [QUOTE] + rest
    ensures var p := start + |Escape(u)|;
      && p < |s| && s[p] == QUOTE && Clean(s, 1, p) && s[p + 1..] == rest
      && (forall j :: start <= j < p ==> s[j] == Escape(u)[j - start])
  {
    var e, t := Escape(u), s[start..];
    EscapeChars(u);
    assert t[|e|] == QUOTE && t[|e| + 1..] == rest;
    forall j | start <= j < start + |e| ensures s[j] == e[j - start] && s[j] != NUL {
      assert s[j] == t[j - start] && e[j - start] in e;
    }
  }

  lemma {:induction false} NoFirst(u: string, c: char)
    requires !exists k: nat :: k < |u| && u[k] == c && c !in u[..k]
    ensures c !in u
  {
    if c in u {
      var i: nat :| i < |u| && u[i] == c;
      FirstExists(u, c, i);
    }
  }

  lemma {:induction false} FirstExists(u: string, c: char, i: nat)
    requires i < |u| && u[i] == c
    ensures exists k: nat :: k < |u| && u[k] == c && c !in u[..k]
    decreases i
  {
    if c in u[..i] {
      var j: nat :| j < i && u[j] == c;
      FirstExists(u, c, j);
    }
  }

  lemma EscapeAtQuote(u: string, k: nat)
    requires k < |u| && u[k] == QUOTE
    ensures Escape(u) == Escape(u[..k]) + [BACKSLASH, QUOTE] + Escape(u[k + 1..])
  {
    var a, v := u[..k], u[k + 1..];
    assert u == a + ([QUOTE] + v);
    EscapeConcat(a, [QUOTE] + v);
    ConsDrop(QUOTE, v);
    ConcatAssoc(Escape(a), [BACKSLASH, QUOTE], Escape(v));
  }

  /** What lies at `start` when `ea` and an escaped quote come first. */
  lemma SkipShape(s: string, start: nat, ea: string, more: string)
    requires start <= |s| && s[start..] == ea + [BACKSLASH, QUOTE] + more
    ensures start + |ea| + 1 < |s|
    ensures forall j :: start <= j < start + |ea| ==> s[j] == ea[j - start]
    ensures s[start + |ea|] == BACKSLASH && s[start + |ea| + 1] == QUOTE
    ensures s[start + |ea| + 2..] == more
  {
    var t := s[start..];
    assert forall j :: start <= j < |s| ==> s[j] == t[j - start];
    assert t[|ea| + 2..] == more;
  }

  lemma FindCloseSkip(s: string, start: nat, last: Search, u: string, rest: string, k: nat)
    requires 1 <= start <= |s| && Clean(s, 1, start) && NUL !in u && s[start..] == Escape(u) + [QUOTE] + rest
    requires last.Hit? ==> 1 <= last.at < start && s[last.at] == QUOTE
    requires k < |u| && u[k] == QUOTE && QUOTE !in u[..k]
    requires start + |Escape(u)| < |s| && s[start + |Escape(u)|] == QUOTE && Clean(s, 1, start + |Escape(u)|)
    ensures FindClose(s, start, last) == ClosedAt(s, start + |Escape(u)|, u)
    decreases |u|, 0
  {
    hide Escape, NextQuote, FindClose;
    var ea, ev := Escape(u[..k]), Escape(u[k + 1..]);
    var q := start + |ea| + 1;
    EscapeAtQuote(u, k);
    Regroup(ea, [BACKSLASH, QUOTE], ev, [QUOTE], rest);
    SkipShape(s, start, ea, ev + [QUOTE] + rest);
    EscapeChars(u[..k]);
    NextQuoteIs(s, start, q);
    FindCloseStep(s, start, last, q);
    FindCloseScan(s, q + 1, Hit(q), u[k + 1..], rest);
    assert EndsInBackslash(u[k + 1..]) <==> EndsInBackslash(u);
    assert q + 1 + |ev| == start + |Escape(u)|;
  }

  lemma FindCloseStep(s: string, start: nat, last: Search, q: nat)
    requires 1 <= start < q < |s| && Clean(s, 1, q) && s[q - 1] == BACKSLASH && NextQuote(s, start) == Hit(q)
    requires last.Hit? ==> 1 <= last.at < start && s[last.at] == QUOTE
    ensures FindClose(s, start, last) == FindClose(s, q + 1, Hit(q))
  {
  }

  lemma {:induction false} FindCloseBeyond(s: string, start: nat, last: Search)
    requires 1 <= start < |s| && Clean(s, 1, start) && s[start] != NUL
    requires last.Hit? ==> 1 <= last.at < start && s[last.at] == QUOTE
    ensures FindClose(s, start, last).Hit? ==> FindClose(s, start, last).at >= start
    decreases |s| - start
  {
    var n := NextQuote(s, start);
    if n.Hit? && n.at != start && s[n.at - 1] == BACKSLASH {
      if n.at + 1 < |s| && s[n.at + 1] != NUL { FindCloseBeyond(s, n.at + 1, n); }
    }
  }

  lemma QuotedShape(t: string, rest: string)
    requires NUL !in t && Trimmed(rest)
    ensures var s := QuotedText(t) + rest;
      && Trimmed(s) && |s| == 2 + |Escape(t)| + |rest| && s[0] == QUOTE
      && s[2 + |Escape(t)|..] == rest
  {
    hide Escape;
    var e := Escape(t);
    var s := [QUOTE] + e + [QUOTE] + rest;
    assert s[2 + |e|..] == rest;
    assert rest != [] ==> s[|s| - 1] == rest[|rest| - 1];
  }

  /** The buffer from the opening quote on. */
  lemma QuotedMemory(t: string, rest: string, beyond: string)
    requires NUL !in t
    ensures var u := QuotedText(t) + rest + beyond;
      && u[1..] == Escape(t) + [QUOTE] + (rest + beyond) && |u| == 2 + |Escape(t)| + |rest| + |beyond|
      && u[1..1 + |Escape(t)|] == Escape(t) && Clean(u, 1, 1)
  {
    hide Escape;
    var e := Escape(t);
    var u := [QUOTE] + e + [QUOTE] + rest + beyond;
    assert u[1..] == e + [QUOTE] + (rest + beyond);
    assert u[1..1 + |e|] == e;
  }

  /** The first byte behind a quoted string is a NUL: nothing follows it on the line,
      and the line itself has a NUL behind it. */
  predicate EndsAtNul(rest: string, beyond: string) {
    rest == [] && beyond != [] && beyond[0] == NUL
  }

  lemma ClosesAtEnd(t: string, rest: string, beyond: string)
    requires NUL !in t && NUL !in rest && Trimmed(rest)
    requires !EndsInBackslash(t) || EndsAtNul(rest, beyond)
    ensures Trimmed(QuotedText(t) + rest)
    ensures LexFrom(QuotedText(t) + rest, beyond) == Tok(t, rest, 0)
  {
    hide Escape, Unescape, WellEscaped, QuotedText;
    QuotedShape(t, rest);
    QuotedMemory(t, rest, beyond);
    FindCloseScan(QuotedText(t) + rest + beyond, 1, Miss, t, rest + beyond);
    ScanShape(QuotedText(t) + rest + beyond, 1, t, rest + beyond);
    UnescapeEscape(t);
  }

  lemma RunsPastEnd(t: string, rest: string, beyond: string)
    requires NUL !in t && NUL !in rest && Trimmed(rest)
    requires EndsInBackslash(t) && !EndsAtNul(rest, beyond)
    ensures Trimmed(QuotedText(t) + rest)
    ensures LexFrom(QuotedText(t) + rest, beyond) != Tok(t, rest, 0)
  {
    hide Escape, Unescape, WellEscaped, QuotedText, AtomRun;
    var s, u, p := QuotedText(t) + rest, QuotedText(t) + rest + beyond, 1 + |Escape(t)|;
    QuotedShape(t, rest);
    QuotedMemory(t, rest, beyond);
    FindCloseScan(u, 1, Miss, t, rest + beyond);
    ScanShape(u, 1, t, rest + beyond);
    EscapeLonger(t);
    if p + 1 < |u| {
      assert u[p + 1] == (rest + beyond)[0];
      FindCloseBeyond(u, p + 1, Hit(p));
      var close := FindClose(u, p + 1, Hit(p));
      if close.Hit? { LongerText(t, u, p, close.at); }
    }
  }

  /** A string that was closed too late has more in it. */
  lemma LongerText(t: string, u: string, p: nat, q: nat)
    requires p == 1 + |Escape(t)| < q < |u| && u[1..p] == Escape(t) && u[p] == QUOTE
    ensures WellEscaped(u[1..q]) ==> |Unescape(u[1..q])| > |t|
  {
    hide Escape, Unescape, WellEscaped;
    SliceSplit(u, 1, p, q);
    UnescapePrefix(t, u[p..q]);
    if WellEscaped(u[p..q]) { UnescapeNonEmpty(u[p..q]); }
  }

  lemma UnescapeNonEmpty(y: string)
    requires y != [] && y[0] == QUOTE && WellEscaped(y)
    ensures Unescape(y) != []
  {
  }

  /** Unescaping what begins with an escaped string. */
  lemma {:induction false} UnescapePrefix(t: string, y: string)
    ensures WellEscaped(Escape(t) + y) <==> WellEscaped(y)
    ensures WellEscaped(y) ==> Unescape(Escape(t) + y) == t + Unescape(y)
    decreases |t|
  {
    if t == [] {
      EmptyConcat(y);
      if WellEscaped(y) { EmptyConcat(Unescape(y)); }
    } else {
      UnescapePrefix(t[1..], y);
      var e := Escape(t[1..]) + y;
      var w := if Special(t[0]) then [BACKSLASH, t[0]] else [t[0]];
      ConcatAssoc(w, Escape(t[1..]), y);
      assert (w + e)[|w|..] == e;
      HeadTail(t);
      if WellEscaped(y) { ConcatAssoc([t[0]], t[1..], Unescape(y)); }
    }
  }

  /** A quoted string is read back as the text it stands for exactly when it does not
      end in a backslash, or a NUL stands behind it. */
  lemma QuotedReadsBack(t: string, rest: string, beyond: string)
    requires NUL !in t && NUL !in rest && Trimmed(rest)
    ensures Trimmed(QuotedText(t) + rest)
    ensures LexFrom(QuotedText(t) + rest, beyond) == Tok(t, rest, 0)
            <==> !EndsInBackslash(t) || EndsAtNul(rest, beyond)
  {
    if !EndsInBackslash(t) || EndsAtNul(rest, beyond) {
      ClosesAtEnd(t, rest, beyond);
    } else {
      RunsPastEnd(t, rest, beyond);
    }
  }

  /** A string that is not closed on its line takes in what an earlier command left in
      the buffer, up to the quote that stands there. */
  lemma StaleTextIsTaken(t: string, stale: string, more: string)
    requires t != [] && !IsBlank(t[|t| - 1])
    requires forall c :: c in t || c in stale ==> c != NUL && c != QUOTE && c != BACKSLASH
    ensures Trimmed([QUOTE] + t)
    ensures LexFrom([QUOTE] + t, stale + [QUOTE] + more) == Tok(t + stale, [], 0)
  {
    var s, beyond := [QUOTE] + t, stale + [QUOTE] + more;
    var u, p := s + beyond, 1 + |t| + |stale|;
    assert u[1..p] == t + stale;
    assert u[p] == QUOTE;
    forall j | 1 <= j < p ensures u[j] != NUL && u[j] != QUOTE && u[j] != BACKSLASH {
      assert u[j] == (t + stale)[j - 1] && u[j] in t + stale;
    }
    NextQuoteIs(u, 1, p);
    UnescapePlain(t + stale);
  }

  lemma {:induction false} UnescapePlain(s: string)
    requires BACKSLASH !in s
    ensures WellEscaped(s) && Unescape(s) == s
  {
    if s != [] {
      UnescapePlain(s[1..]);
      HeadTail(s);
    }
  }

  lemma {:induction false} EscapeLonger(t: string)
    ensures |Escape(t)| >= |t|
  {
    if t != [] { EscapeLonger(t[1..]); }
  }
}
