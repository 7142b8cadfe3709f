/** Strings the server sends: `NIL`, quoted strings and literals, and a client that
    reads them back. */
module Responses {
  import opened Text
  import opened Numbers
  import opened FetchIo

  predicate NeedsLiteral(c: char) {
    c == QUOTE || c == CR || c == LF || c == BACKSLASH
  }

  /** `strpbrk (s, "\"\r\n\\")`. */
  predicate HasSpecial(s: string) {
    exists i :: 0 <= i < |s| && NeedsLiteral(s[i])
  }

  /** Line breaks are sent as blanks. */
  function OneLine(s: string): (r: string)
    ensures |r| == |s|
    ensures forall i :: 0 <= i < |s| ==> r[i] == (if s[i] == CR || s[i] == LF then ' ' else s[i])
  {
    seq(|s|, i requires 0 <= i < |s| => if s[i] == CR || s[i] == LF then ' ' else s[i])
  }

  function Find(s: string, c: char): (r: Option<nat>)
    ensures r.None? ==> c !in s
    ensures r.Some? ==> r.value < |s| && s[r.value] == c
  {
    if s == [] then None
    else if s[0] == c then Some(0)
    else match Find(s[1..], c) case None => None case Some(k) => Some(k + 1)
  }

  function Breaks(s: string): nat {
    if s == [] then 0 else (if s[0] == CR || s[0] == LF then 1 else 0) + Breaks(s[1..])
  }

  lemma {:induction false} BreakRemoved(s: string, k: nat)
    requires k < |s| && (s[k] == CR || s[k] == LF)
    ensures Breaks(s[k := ' ']) < Breaks(s)
  {
    var t := s[k := ' '];
    if k == 0 {
      assert t[1..] == s[1..];
    } else {
      assert t[1..] == s[1..][k - 1 := ' '];
      BreakRemoved(s[1..], k - 1);
    }
  }

  /** The loop that blanks out line breaks, one `strchr` at a time. */
  method BlankBreaks(s: string) returns (b: string)
    ensures b == OneLine(s)
  {
    b := s;
    while true
      invariant |b| == |s|
      invariant forall i :: 0 <= i < |s| ==> b[i] == s[i] || ((s[i] == CR || s[i] == LF) && b[i] == ' ')
      decreases Breaks(b)
    {
      var at := Find(b, LF);
      if at.None? { at := Find(b, CR); }
      if at.None? { break; }
      BreakRemoved(b, at.value);
      b := b[at.value := ' '];
    }
  }

  function QuotedForm(s: string): string {
    [QUOTE] + s + [QUOTE]
  }

  /** `io_send_literal`, with the line end the connection adds. */
  function LiteralForm(s: string): string {
    ['{'] + Dec(|s|) + ['}'] + CRLF + s
  }

  const NIL: string := "NIL"

  /** What both senders do with a non-empty string. */
  function StringForm(s: string): string {
    if HasSpecial(s) then LiteralForm(OneLine(s)) else QuotedForm(s)
  }

  /** `io_send_qstring`. */
  method SendQString(buffer: Option<string>) returns (out: string)
    ensures out == (if buffer.None? || buffer.value == [] then NIL else StringForm(buffer.value))
  {
    if buffer.None? || buffer.value == [] { return NIL; }
    if exists i :: 0 <= i < |buffer.value| && NeedsLiteral(buffer.value[i]) {
      var b := BlankBreaks(buffer.value);
      return LiteralForm(b);
    }
    out := QuotedForm(buffer.value);
  }

  /** `io_send_astring`. */
  method SendAString(buffer: Option<string>) returns (out: string)
    ensures out == (if buffer.None? then NIL else if buffer.value == [] then QuotedForm([]) else StringForm(buffer.value))
  {
    if buffer.None? { return NIL; }
    if buffer.value == [] { return [QUOTE, QUOTE]; }
    if exists i :: 0 <= i < |buffer.value| && NeedsLiteral(buffer.value[i]) {
      var b := BlankBreaks(buffer.value);
      return LiteralForm(b);
    }
    out := QuotedForm(buffer.value);
  }

  // ----- a client -----

  /** Reading up to the closing quote, with escapes as section 9 of RFC 3501 defines them. */
  function ReadQuoted(s: string): Option<(string, string)> {
    if s == [] then None
    else if s[0] == QUOTE then Some(([], s[1..]))
    else if s[0] == BACKSLASH then
      if |s| == 1 then None
      else match ReadQuoted(s[2..]) case None => None case Some((v, rest)) => Some(([s[1]] + v, rest))
    else match ReadQuoted(s[1..]) case None => None case Some((v, rest)) => Some(([s[0]] + v, rest))
  }

  /** An `nstring`: `NIL`, a quoted string or a literal. */
  function ReadNString(s: string): Option<(Option<string>, string)> {
    if |s| >= 3 && s[..3] == NIL then Some((None, s[3..]))
    else if s != [] && s[0] == QUOTE then
      match ReadQuoted(s[1..]) case None => None case Some((v, rest)) => Some((Some(v), rest))
    else if s != [] && s[0] == '{' then
      var (n, rest) := ReadNumber(s[1..]);
      if |rest| >= 3 + n && rest[..3] == ['}', CR, LF] then Some((Some(rest[3..3 + n]), rest[3 + n..])) else None
    else None
  }

  lemma {:induction false} QuotedReads(s: string, rest: string)
    requires !HasSpecial(s)
    ensures ReadQuoted(s + ([QUOTE] + rest)) == Some((s, rest))
  {
    if s == [] {
      EmptyConcat([QUOTE] + rest);
      ConsDrop(QUOTE, rest);
    } else {
      assert NeedsLiteral(s[0]) ==> HasSpecial(s);
      assert !HasSpecial(s[1..]);
      QuotedReads(s[1..], rest);
      HeadTail(s);
      assert s + ([QUOTE] + rest) == [s[0]] + (s[1..] + ([QUOTE] + rest));
      ConsDrop(s[0], s[1..] + ([QUOTE] + rest));
    }
  }

  lemma QuotedFormReads(s: string, rest: string)
    requires !HasSpecial(s)
    ensures ReadNString(QuotedForm(s) + rest) == Some((Some(s), rest))
  {
    hide HasSpecial, ReadQuoted;
    assert QuotedForm(s) + rest == [QUOTE] + (s + ([QUOTE] + rest));
    ConsDrop(QUOTE, s + ([QUOTE] + rest));
    QuotedReads(s, rest);
  }

  lemma LiteralFormReads(s: string, rest: string)
    ensures ReadNString(LiteralForm(s) + rest) == Some((Some(s), rest))
  {
    hide Dec, ReadNumber;
    var more := ['}', CR, LF] + (s + rest);
    LiteralText(Dec(|s|), s, rest);
    NumberReads(|s|, more);
    LiteralData(s, rest);
  }

  lemma LiteralText(d: string, s: string, rest: string)
    ensures var t := ['{'] + d + ['}'] + CRLF + s + rest;
      t != [] && t[0] == '{' && t[1..] == d + (['}', CR, LF] + (s + rest))
  {
    var t, more := ['{'] + d + ['}'] + CRLF + s + rest, ['}', CR, LF] + (s + rest);
    assert ['}'] + CRLF == ['}', CR, LF];
    assert t == ['{'] + (d + more);
    ConsDrop('{', d + more);
  }

  lemma NilReads(rest: string)
    ensures ReadNString(NIL + rest) == Some((None, rest))
  {
    assert (NIL + rest)[..3] == NIL && (NIL + rest)[3..] == rest;
  }

  lemma StringFormReads(s: string, rest: string)
    ensures ReadNString(StringForm(s) + rest) == Some((Some(OneLine(s)), rest))
  {
    hide HasSpecial, ReadNString, LiteralForm, QuotedForm;
    if HasSpecial(s) {
      LiteralFormReads(OneLine(s), rest);
    } else {
      QuotedFormReads(s, rest);
      NoBreaks(s);
    }
  }

  lemma NoBreaks(s: string)
    requires !HasSpecial(s)
    ensures OneLine(s) == s
  {
    forall i | 0 <= i < |s| ensures OneLine(s)[i] == s[i] {
      assert !NeedsLiteral(s[i]);
    }
  }

  lemma SameIffOneLine(s: string)
    ensures OneLine(s) == s <==> CR !in s && LF !in s
  {
    if OneLine(s) == s {
      forall i | 0 <= i < |s| ensures s[i] != CR && s[i] != LF {
        assert OneLine(s)[i] == s[i];
      }
    }
  }

  lemma {:induction false} CrlfKeeps(s: string)
    requires LF !in s
    ensures Crlf(s) == s
  {
    if s != [] {
      CrlfKeeps(s[1..]);
      HeadTail(s);
    }
  }

  /** The octet count is still right after the connection has turned LF into CRLF:
      of a literal only the line end behind the count is changed. */
  lemma LiteralCountIsExact(s: string)
    ensures Crlf(['{'] + Dec(|s|) + ['}'] + [LF] + OneLine(s)) == LiteralForm(OneLine(s))
  {
    hide Dec, Encode, OneLine;
    var head, t := ['{'] + Dec(|s|) + ['}'], OneLine(s);
    CountHasNoLf(Dec(|s|));
    OneLineHasNoLf(s);
    EncodeConcat(head + [LF], t, false, false);
    EncodeConcat(head, [LF], false, false);
    CrlfKeeps(head);
    CrlfKeeps(t);
    EncodeOne(LF, false, false);
  }

  lemma CountHasNoLf(d: string)
    requires AllDigits(d)
    ensures LF !in ['{'] + d + ['}']
  {
  }

  lemma OneLineHasNoLf(s: string)
    ensures LF !in OneLine(s)
  {
  }

  /** A string sent by `io_send_qstring` arrives unchanged if and only if it has no
      line breaks and is not empty, whatever follows it. */
  lemma QStringArrives(buffer: Option<string>, rest: string)
    ensures var out := if buffer.None? || buffer.value == [] then NIL else StringForm(buffer.value);
      && ReadNString(out + rest).Some? && ReadNString(out + rest).value.1 == rest
      && (ReadNString(out + rest).value.0 == buffer
          <==> buffer.None? || (buffer.value != [] && CR !in buffer.value && LF !in buffer.value))
  {
    hide HasSpecial, ReadNString, StringForm;
    if buffer.None? || buffer.value == [] {
      NilReads(rest);
    } else {
      StringFormReads(buffer.value, rest);
      SameIffOneLine(buffer.value);
    }
  }

  /** The same for `io_send_astring`, which keeps the empty string as well. */
  lemma AStringArrives(buffer: Option<string>, rest: string)
    ensures var out := if buffer.None? then NIL else if buffer.value == [] then QuotedForm([]) else StringForm(buffer.value);
      && ReadNString(out + rest).Some? && ReadNString(out + rest).value.1 == rest
      && (ReadNString(out + rest).value.0 == buffer <==> buffer.None? || (CR !in buffer.value && LF !in buffer.value))
  {
    hide ReadNString, StringForm, QuotedForm;
    if buffer.None? {
      NilReads(rest);
    } else if buffer.value == [] {
      assert !HasSpecial([]);
      QuotedFormReads([], rest);
    } else {
      StringFormReads(buffer.value, rest);
      SameIffOneLine(buffer.value);
    }
  }
}
