/** The token buffer of `io.c`: one growing character buffer in which arguments
    are delimited, unquoted and spliced in place, and a list of their offsets. */
module Tokbuf {
  import opened Text
  import opened Numbers
  import opened Lexer
  import opened TokbufEdits
  import opened Reader

  // ----- what the offsets mean -----

  /** The string at offset `a` is `v`, terminating NUL included below `lim`. */
  ghost predicate ArgAt(buf: string, a: nat, lim: nat, v: string) {
    && a + |v| < lim <= |buf|
    && (forall i :: 0 <= i < |v| ==> buf[a + i] == v[i])
    && buf[a + |v|] == NUL
    && NUL !in v
  }

  ghost predicate HoldsArgs(buf: string, argp: seq<nat>, lim: nat, args: seq<string>) {
    && |argp| == |args| && lim <= |buf|
    && (forall k :: 0 <= k < |args| ==> ArgAt(buf, argp[k], lim, args[k]))
  }

  /** Edits beyond `lim` do not disturb arguments stored below it. */
  lemma ArgsKept(buf: string, buf': string, argp: seq<nat>, lim: nat, lim': nat, args: seq<string>)
    requires HoldsArgs(buf, argp, lim, args)
    requires lim <= lim' <= |buf'| && forall i :: 0 <= i < lim ==> buf'[i] == buf[i]
    ensures HoldsArgs(buf', argp, lim', args)
  {
  }

  lemma ArgsAppend(buf: string, argp: seq<nat>, lim: nat, args: seq<string>, a: nat, v: string)
    requires HoldsArgs(buf, argp, lim, args) && ArgAt(buf, a, lim, v)
    ensures HoldsArgs(buf, argp + [a], lim, args + [v])
  {
  }

  /** Tokenizing in progress: `args` are done, `todo` is the text still ahead at
      `off`, and all arguments but the last end before `level`. */
  ghost predicate Lexing(buf: string, level: nat, argp: seq<nat>, off: nat, args: seq<string>, todo: string) {
    && level <= |buf| <= LARGEST
    && HoldsArgs(buf, argp, off, args)
    && todo == (if off <= level then buf[off..level] else [])
    && (forall k :: 0 <= k < |args| - 1 ==> argp[k] + |args[k]| < level)
  }

  /** One more argument: `a` and `v` were stored, the scan goes on at `next`. */
  lemma LexingNext(buf: string, level: nat, argp: seq<nat>, off: nat, args: seq<string>, todo: string,
                   buf': string, level': nat, a: nat, v: string, next: nat, rest: string)
    requires Lexing(buf, level, argp, off, args, todo) && off <= level <= level' <= |buf'| <= LARGEST
    requires off <= next && (forall i :: 0 <= i < off ==> buf'[i] == buf[i])
    requires ArgAt(buf', a, next, v)
    requires rest == (if next <= level' then buf'[next..level'] else [])
    ensures Lexing(buf', level', argp + [a], next, args + [v], rest)
  {
    ArgsKept(buf, buf', argp, off, next, args);
    ArgsAppend(buf', argp, next, args, a, v);
  }

  /** The text of a quoted string, seen from its opening quote and in the buffer. */
  lemma QuotedSlices(b: string, o: nat, p: nat, level: nat, t: string, beyond: string)
    requires o < p < |b| && o < level <= |b| && t == b[o..level] && beyond == b[level..]
    requires Clean(t + beyond, 1, p - o)
    ensures b[p] == (t + beyond)[p - o] && Clean(b, o + 1, p)
    ensures (t + beyond)[1..p - o] == b[o + 1..p]
    ensures Behind(t, p - o) == if p + 1 <= level then b[p + 1..level] else []
  {
    var u := t + beyond;
    assert forall i :: o <= i < |b| ==> b[i] == u[i - o];
    assert u[1..p - o] == b[o + 1..p];
    if p < level { SliceSlice(b, o, level, p - o + 1, level - o); }
  }

  lemma QuotedToken(t: string, beyond: string, p: nat)
    requires t != [] && 1 <= p < |t + beyond| && Clean(t + beyond, 1, p)
    ensures var r, text := LexQuoted(t, beyond, p), (t + beyond)[1..p];
      && (r.Tok? <==> WellEscaped(text))
      && (r.Tok? ==> r.value == Unescape(text))
  {
  }

  lemma KeptBehind(b: string, b0: string, lo: nat, level: nat)
    requires |b| == |b0| && level <= |b| && forall i :: lo <= i < |b| ==> b[i] == b0[i]
    ensures lo <= level ==> b[lo..level] == b0[lo..level] && b[level..] == Shrink(b0[level..], 0)
  {
  }

  lemma LineGot(all: string, got: string, rest: string)
    requires all == got + rest && got != [] && got[|got| - 1] == LF
    requires forall i :: 0 <= i < |got| - 1 ==> got[i] != LF
    ensures LineEnd(all) == Some(|got| - 1)
    ensures all[..|got|] == got && all[|got|..] == rest
  {
    LineEndIs(all, |got| - 1);
  }

  /** How reading a command stands: it goes on, it is finished, the connection is
      at its end, there is no more memory, or one of the ways it goes wrong. */
  datatype Status = Going | Finished | AtEof | NoMemory | Spun | Dangled | Strayed | Overflowed

  ghost predicate TokStatus(st: Status, r: Lexed) {
    && (st.Going? <==> r.Tok?) && (st.Spun? <==> r.Spin?) && (st.Strayed? <==> r.Overrun?)
  }

  ghost predicate LineStatus(st: Status, r: LexedLine) {
    && (st.Going? <==> r.Args?) && (st.Spun? <==> r.LineSpin?) && (st.Strayed? <==> r.LineOverrun?)
  }

  /** `ReadFrom` one line at a time. */
  lemma LineCases(input: string, args: seq<string>, level: nat, more: string, future: seq<string>)
    ensures var r := ReadFrom(input, args, level, [more] + future);
      if LineEnd(input).None? then r.Eof?
      else
        var e := LineEnd(input).value;
        var line := Lex(TrimLine(input[..e]), Nuls(Dropped(input[..e])) + more);
        && (line.LineSpin? ==> r.Spinning?)
        && (line.LineOverrun? ==> r.Straying?)
        && (line.Args? ==>
          r == AfterLine(input[e + 1..], args + line.values, level + |TrimLine(input[..e])| + line.grown, future))
  {
    hide Lex, TrimLine, LineEnd, Dropped, Nuls, AfterLine;
    ConsDrop(more, future);
  }

  lemma ArgCases(input: string, args: seq<string>, level: nat, memory: seq<string>)
    ensures var r := AfterLine(input, args, level, memory);
      if args == [] then r == Done(args, input)
      else
        var want := LiteralRequest(args[|args| - 1]);
        && (want.None? ==> r == Done(args, input))
        && (want.Some? ==>
          var room := level + want.value + 1;
          && want.value <= ULONG_MAX
          && (LARGEST < room <= ULONG_MAX ==> r.Refused?)
          && (!(LARGEST < room <= ULONG_MAX) && (want.value == 0 || input == []) ==> r.Eof?)
          && (room > ULONG_MAX && want.value > 0 && input != [] ==> r.Overflowing?))
  {
  }

  lemma LiteralCases(input: string, args: seq<string>, n: nat, level: nat, memory: seq<string>)
    requires n > 0 && input != [] && args != [] && LiteralRequest(args[|args| - 1]) == Some(n)
    requires level + n + 1 <= LARGEST
    ensures var len := if n <= |input| then n else |input|;
      var text := StoreLiteral(input[..len]);
      var r := AfterLine(input, args, level, memory);
      && (text.StoredSpin? ==> r.Spinning?)
      && (text.StoredNowhere? ==> r.Dangling?)
      && (text.Stored? ==>
        r == ReadFrom(input[len..], args[..|args| - 1] + [text.text], level + text.used, memory))
  {
  }

  /** Between two lines: every argument is complete, and the buffer ends in a NUL. */
  ghost predicate Ready(buf: string, level: nat, argp: seq<nat>, args: seq<string>) {
    && level <= |buf| <= LARGEST && (level > 0 ==> buf[level - 1] == NUL)
    && HoldsArgs(buf, argp, level, args)
  }

  /** Data followed by a NUL is an argument. */
  lemma {:induction false} ArgFromData(buf: string, a: nat, data: string, lim: nat)
    requires a + |data| < lim <= |buf| && buf[a + |data|] == NUL
    requires forall i :: 0 <= i < |data| ==> buf[a + i] == data[i]
    ensures ArgAt(buf, a, lim, CStr(data))
    decreases |data|
  {
    if data != [] && data[0] != NUL {
      var v := CStr(data[1..]);
      assert forall i :: 0 <= i < |data| - 1 ==> buf[a + 1 + i] == data[1..][i] by {
        forall i | 0 <= i < |data| - 1 ensures buf[a + 1 + i] == data[1..][i] {
          assert data[1..][i] == data[i + 1];
        }
      }
      ArgFromData(buf, a + 1, data[1..], lim);
      forall i | 0 <= i < |v| + 1 ensures buf[a + i] == ([data[0]] + v)[i] {
        if i > 0 { assert buf[a + 1 + (i - 1)] == v[i - 1]; }
      }
    }
  }

  lemma {:induction false} UnescapeKeepsQuote(s: string)
    requires s != [] && s[|s| - 1] == QUOTE && WellEscaped(s)
    ensures Unescape(s) != []
  {
  }

  lemma {:induction false} FoldKeepsText(s: string)
    ensures FoldCrlf(s) == [] <==> s == []
  {
    if s != [] { FoldKeepsText(s[1..]); }
  }

  /** A buffer after a copy into it. */
  function Written(buf: string, at: nat, data: string): (b: string)
    requires at + |data| <= |buf|
    ensures |b| == |buf| && b[at..at + |data|] == data
    ensures forall i :: 0 <= i < at ==> b[i] == buf[i]
  {
    buf[..at] + data + buf[at + |data|..]
  }

  lemma WrittenAfter(buf: string, lo: nat, at: nat, data: string)
    requires lo <= at && at + |data| <= |buf|
    ensures Written(buf, at, data)[lo..at + |data|] == buf[lo..at] + data
  {
    var b := Written(buf, at, data);
    SameSlice(b, buf, lo, at);
    SliceSplit(b, lo, at, at + |data|);
  }

  /** A literal's text, or what stands before its closing quote. */
  function Kept(whole: bool, text: string): string {
    if whole || text == [] then text else text[..|text| - 1]
  }

  lemma QuotedCases(bytes: string)
    requires bytes != [] && LooksQuoted(bytes)
    ensures bytes[|bytes| - 1] == QUOTE
    ensures !WellEscaped(bytes[1..]) <==> StoreLiteral(bytes).StoredSpin?
    ensures WellEscaped(bytes[1..]) && |bytes| > 1 ==>
      StoreLiteral(bytes) == Stored(CStr(Kept(false, FoldCrlf(Unescape(bytes[1..])))),
                                    |FoldCrlf(Unescape(bytes[1..]))| + 1)
    ensures |bytes| == 1 ==> StoreLiteral(bytes).StoredNowhere?
  {
  }

  lemma HoldsArgsKept(buf: string, buf': string, argp: seq<nat>, lim: nat, args: seq<string>)
    requires HoldsArgs(buf, argp, lim, args) && |buf'| == |buf|
    requires forall i :: 0 <= i < lim ==> buf'[i] == buf[i]
    ensures HoldsArgs(buf', argp, lim, args)
  {
  }

  /** The end of storing a literal: `text` lies at `off`, and a NUL is put behind
      it, or over its closing quote. */
  lemma StoreEnds(b0: string, level: nat, argp: seq<nat>, args: seq<string>, b: string, off: nat, text: string)
    requires HoldsArgs(b0, argp, level, args) && level + |text| < |b| <= LARGEST && off + |text| <= |b|
    requires off == level || (off == level + 1 && text != [])
    requires b[off..off + |text|] == text && forall i :: 0 <= i < level ==> b[i] == b0[i]
    ensures Ready(b[level + |text| := NUL], level + |text| + 1, argp + [off],
                  args + [CStr(Kept(off == level, text))])
  {
    var kept := Kept(off == level, text);
    var b2, end := b[level + |text| := NUL], level + |text|;
    forall i | 0 <= i < |kept| ensures b2[off + i] == kept[i] {
      assert b[off..off + |text|][i] == b[off + i];
    }
    ArgFromData(b2, off, kept, end + 1);
    ArgsKept(b0, b2, argp, level, end + 1, args);
    ArgsAppend(b2, argp, end + 1, args, off, CStr(kept));
  }

  lemma ReadyStarts(buf: string)
    requires |buf| <= LARGEST
    ensures Ready(buf, 0, [], [])
  {
  }

  lemma ReadyBuffer(buf: string, level: nat, argp: seq<nat>, args: seq<string>)
    requires Ready(buf, level, argp, args)
    ensures level <= |buf| <= LARGEST && (level > 0 ==> buf[level - 1] == NUL)
  {
  }

  /** A new line at the end of a buffer of complete arguments can be tokenized. */
  lemma ReadyLexing(b0: string, off: nat, argp: seq<nat>, args: seq<string>, buf: string, level: nat)
    requires Ready(b0, off, argp, args) && off <= level <= |buf| <= LARGEST
    requires forall i :: 0 <= i < off ==> buf[i] == b0[i]
    ensures Lexing(buf, level, argp, off, args, buf[off..level])
  {
    ArgsKept(b0, buf, argp, off, off, args);
    forall k | 0 <= k < |args| - 1 ensures argp[k] + |args[k]| < level {
      assert ArgAt(buf, argp[k], off, args[k]);
    }
  }

  lemma TextLexing(str: string)
    requires |str| < LARGEST
    ensures Lexing(str + [NUL], |str|, [], 0, [], str)
  {
    assert (str + [NUL])[0..|str|] == str;
  }

  lemma LexedAll(buf: string, level: nat, argp: seq<nat>, lim: nat, args: seq<string>)
    requires Lexing(buf, level, argp, lim, args, [])
    ensures HoldsArgs(buf, argp, |buf|, args) && |argp| == |args|
  {
    ArgsKept(buf, buf, argp, lim, |buf|, args);
  }

  lemma LexedLast(buf: string, level: nat, argp: seq<nat>, lim: nat, args: seq<string>)
    requires Lexing(buf, level, argp, lim, args, []) && args != []
    ensures |argp| == |args| && argp[|argp| - 1] <= |buf|
    ensures CStr(buf[argp[|argp| - 1]..]) == args[|args| - 1]
  {
    var k := |args| - 1;
    assert ArgAt(buf, argp[k], lim, args[k]);
    StringAt(buf, argp[k], lim, args[k]);
  }

  lemma {:induction false} StringAt(buf: string, a: nat, lim: nat, v: string)
    requires ArgAt(buf, a, lim, v)
    ensures CStr(buf[a..]) == v
    decreases |v|
  {
    if v != [] {
      assert buf[a..][0] == v[0] && buf[a..][1..] == buf[a + 1..];
      forall i | 0 <= i < |v| - 1 ensures buf[a + 1 + i] == v[1..][i] {
        assert v[1..][i] == v[i + 1] && buf[a + (i + 1)] == v[i + 1];
      }
      StringAt(buf, a + 1, lim, v[1..]);
      HeadTail(v);
    }
  }

  /** All arguments but the last survive the storing of a literal. */
  lemma LexedButLast(buf: string, level: nat, argp: seq<nat>, lim: nat, args: seq<string>)
    requires Lexing(buf, level, argp, lim, args, []) && args != []
    ensures level <= |buf| <= LARGEST && |argp| == |args|
    ensures HoldsArgs(buf, argp[..|argp| - 1], level, args[..|args| - 1])
  {
    var p, v := argp[..|argp| - 1], args[..|args| - 1];
    forall k | 0 <= k < |v| ensures ArgAt(buf, p[k], level, v[k]) {
      assert ArgAt(buf, argp[k], lim, args[k]);
    }
  }

  /** What lies behind the first `n` bytes from `level` on, before and after making
      room for them. */
  lemma BehindExpanded(b0: string, b: string, level: nat, n: nat)
    requires level <= |b0| <= |b| && level + n <= |b| && (|b| == level + n || b == b0)
    requires forall i :: 0 <= i < |b0| ==> b[i] == b0[i]
    ensures b[level + n..] == Shrink(b0, level + n)
    ensures Shrink(b0[level..], n) == Shrink(b0, level + n)
  {
    if level + n <= |b0| { SliceSlice(b0, level, |b0|, n, |b0| - level); }
  }

  lemma RestSplit(b: string, lo: nat, mid: nat)
    requires lo <= mid <= |b|
    ensures b[lo..] == b[lo..mid] + b[mid..]
  {
  }

  lemma NulsBehind(b0: string, b: string, level: nat, top: nat)
    requires level <= top <= |b| == |b0|
    requires forall i :: level <= i < top ==> b[i] == NUL
    requires forall i :: top <= i < |b| ==> b[i] == b0[i]
    ensures b[level..] == Nuls(top - level) + b0[top..]
  {
  }

  /** Memory as `realloc` hands it out. */
  method Garbage(n: nat) returns (g: string)
    ensures |g| == n
  {
    g := [];
    while |g| < n
      invariant |g| <= n
    {
      var c: char := *;
      g := g + [c];
    }
  }

  /** `realloc`: it may fail, and always does for more than the largest size. */
  method Realloc(b: string, size: nat) returns (r: Option<string>)
    ensures r.Some? ==> |r.value| == size <= LARGEST
    ensures r.Some? ==> forall i :: 0 <= i < |b| && i < size ==> r.value[i] == b[i]
  {
    var fails: bool := *;
    if fails || size > LARGEST { return None; }
    if size <= |b| { return Some(b[..size]); }
    var garbage := Garbage(size - |b|);
    r := Some(b + garbage);
  }

  /** `struct imap4d_tokbuf`, together with the connection it reads from.  Once
      `realloc` has refused memory the session is over. */
  class TokBuf {
    var buffer: string
    var level: nat
    var argp: seq<nat>
    var input: string
    var refused: bool

    constructor (input: string)
      ensures buffer == [] && level == 0 && argp == [] && this.input == input && !refused
    {
      buffer, level, argp, refused := [], 0, [], false;
      this.input := input;
    }

    /** `imap4d_tokbuf_expand`: room for `size` more characters.  The sum of level and
        size is a `size_t`: where it wraps, the buffer becomes smaller. */
    method Expand(size: nat)
      requires level <= |buffer| <= LARGEST && size <= ULONG_MAX && !refused
      modifies this`buffer, this`refused
      ensures LARGEST < level + size <= ULONG_MAX ==> refused
      ensures !refused ==> |buffer| <= LARGEST
      ensures !refused && level + size <= ULONG_MAX ==> |buffer| >= level + size && |buffer| >= old(|buffer|)
      ensures !refused && level + size <= ULONG_MAX ==> |buffer| == level + size || buffer == old(buffer)
      ensures !refused && level + size <= ULONG_MAX ==>
        forall i :: 0 <= i < old(|buffer|) ==> buffer[i] == old(buffer)[i]
      ensures !refused && level + size > ULONG_MAX ==> |buffer| < level
    {
      if |buffer| - level < size {
        var wanted := (level + size) % (ULONG_MAX + 1);
        var b := Realloc(buffer, wanted);
        if b.Some? { buffer := b.value; } else { refused := true; }
      }
    }

    /** `insert_nul`: what follows moves up, into the byte behind it. */
    method InsertNul(off: nat) returns (next: nat)
      requires off <= level <= |buffer| <= LARGEST && !refused
      modifies this`buffer, this`level, this`refused
      ensures next == off + 1
      ensures !refused ==> level <= |buffer| <= LARGEST && off < |buffer|
      ensures !refused ==> level == if off < old(level) then old(level) + 1 else old(level)
      ensures !refused ==> forall i :: 0 <= i < off ==> buffer[i] == old(buffer)[i]
      ensures !refused ==> buffer[off] == NUL
      ensures !refused && off < old(level) ==>
        && buffer[off + 1..level] == old(buffer)[off..old(level)]
        && buffer[level..] == Shrink(old(buffer[level..]), 1)
    {
      next := off + 1;
      Expand(1);
      if refused { return; }
      if off < level {
        ghost var tail, behind := buffer[off..level], buffer[level + 1..];
        assert tail == old(buffer)[off..level];
        BehindExpanded(old(buffer), buffer, level, 1);
        var n := level - off;
        buffer := Moved(buffer, off + 1, off, n);
        level := level + 1;
        assert buffer[level..] == behind;
        buffer := buffer[off := NUL];
        assert buffer[off + 1..level] == tail;
        assert buffer[level..] == behind;
      } else {
        buffer := buffer[off := NUL];
      }
    }

    /** The closing-quote loop of `gettok`, for an opening quote at `off`: the search
        does not stop at the level. */
    method FindClosing(off: nat) returns (p: Search)
      requires off < |buffer| && buffer[off] == QUOTE
      ensures var r := FindClose(buffer[off..], 1, Miss); p == if r.Hit? then Hit(off + r.at) else r
    {
      var t := buffer[off..];
      var start := 1;
      var q := Miss;
      while start < |t| && t[start] != NUL
        invariant 1 <= start <= |t| && Clean(t, 1, start) && !q.Past?
        invariant q.Hit? ==> 1 <= q.at < start && t[q.at] == QUOTE
        invariant FindClose(t, start, q) == FindClose(t, 1, Miss)
        decreases |t| - start
      {
        q := NextQuote(t, start);
        if !q.Hit? { return q; }
        if q.at == start || t[q.at - 1] != BACKSLASH { return Hit(off + q.at); }
        start := q.at + 1;
      }
      if start == |t| { return Past; }
      p := if q.Hit? then Hit(off + q.at) else q;
    }

    /** The quoted branch of `gettok`: opening quote at `o`, closing quote at `p`. */
    method TakeQuoted(o: nat, p: nat) returns (next: nat, ok: bool)
      requires o < p < |buffer| && buffer[p] == QUOTE && Clean(buffer, o + 1, p)
      modifies this`buffer, this`argp
      ensures |buffer| == old(|buffer|)
      ensures ok <==> WellEscaped(old(buffer)[o + 1..p])
      ensures ok ==> next == p + 1 && argp == old(argp) + [o + 1]
      ensures ok ==> ArgAt(buffer, o + 1, p + 1, Unescape(old(buffer)[o + 1..p]))
      ensures ok ==> forall i :: 0 <= i <= o || p < i < |buffer| ==> buffer[i] == old(buffer)[i]
    {
      ghost var text := buffer[o + 1..p];
      assert o + 1 + (p - (o + 1)) == p;
      var b, len;
      b, len, ok := Unquote(buffer, o + 1, p - (o + 1));
      if ok {
        UnescapeClean(text);
        ghost var v := Unescape(text);
        ghost var stored := b[o + 1..o + 1 + len];
        assert forall i :: 0 <= i < |v| ==> stored[i] == b[o + 1 + i];
        buffer := b[o + 1 + len := NUL];
        argp := argp + [o + 1];
      }
      next := p + 1;
    }

    /** The branch for a parenthesis (or a stray NUL). */
    method TakeDelim(o: nat) returns (next: nat)
      requires o < level <= |buffer| <= LARGEST && IsDelim(buffer[o]) && !refused
      modifies this`buffer, this`level, this`argp, this`refused
      ensures next == o + 2 && argp == old(argp) + [o]
      ensures !refused ==>
        var rest := old(buffer)[o + 1..old(level)];
        && level == old(level) + Grown(rest) && level <= |buffer| <= LARGEST && next <= |buffer|
        && ArgAt(buffer, o, next, CStr(old(buffer)[o..o + 1]))
        && rest == (if next <= level then buffer[next..level] else [])
        && (rest != [] ==> buffer[level..] == Shrink(old(buffer[level..]), 1))
      ensures !refused ==> forall i :: 0 <= i < o ==> buffer[i] == old(buffer)[i]
    {
      argp := argp + [o];
      var c := buffer[o..o + 1];
      assert c == [buffer[o]] && c[1..] == [];
      next := InsertNul(o + 1);
    }

    /** The atom branch. */
    method TakeAtom(o: nat) returns (next: nat)
      requires o < level <= |buffer| <= LARGEST && !IsDelim(buffer[o]) && !IsBlank(buffer[o]) && !refused
      modifies this`buffer, this`level, this`argp, this`refused
      ensures argp == old(argp) + [o]
      ensures !refused ==>
        var n := AtomRun(old(buffer)[o..old(level)]);
        var rest := old(buffer)[o..old(level)][n..];
        && level == old(level) + Grown(rest) && level <= |buffer| <= LARGEST && next <= |buffer|
        && next == o + n + 1
        && ArgAt(buffer, o, next, old(buffer)[o..old(level)][..n])
        && rest == (if next <= level then buffer[next..level] else [])
        && (rest != [] ==> buffer[level..] == Shrink(old(buffer[level..]), 1))
      ensures !refused ==> forall i :: 0 <= i < o ==> buffer[i] == old(buffer)[i]
    {
      hide Shrink, AtomRun;
      ghost var t := buffer[o..level];
      argp := argp + [o];
      var off := o;
      while off < level && !IsBlank(buffer[off]) && !IsDelim(buffer[off])
        invariant o <= off <= level
        invariant forall i :: 0 <= i < off - o ==> !IsBlank(t[i]) && !IsDelim(t[i])
      {
        assert t[off - o] == buffer[off];
        off := off + 1;
      }
      assert off < level ==> t[off - o] == buffer[off];
      AtomRunIs(t, off - o);
      ghost var v, was, top := t[..off - o], buffer, level;
      next := InsertNul(off);
      if refused { return; }
      assert forall i :: 0 <= i < |v| ==> was[o + i] == v[i];
      SliceSlice(was, o, top, off - o, top - o);
    }

    /** The leading blanks `gettok` skips. */
    method SkipBlanks(off: nat) returns (o: nat)
      requires off <= level <= |buffer|
      ensures off <= o <= level && o - off == BlankRun(buffer[off..level])
      ensures buffer[off..level][o - off..] == buffer[o..level]
    {
      o := off;
      while o < level && IsBlank(buffer[o])
        invariant off <= o <= level
        invariant forall i :: off <= i < o ==> IsBlank(buffer[i])
      {
        o := o + 1;
      }
      BlankRunIs(buffer[off..level], o - off);
      SliceSlice(buffer, off, level, o - off, level - off);
    }

    method GetQuoted(off: nat, o: nat, p: nat, ghost args: seq<string>, ghost todo: string, ghost t: string)
      returns (next: nat, ok: bool)
      requires Lexing(buffer, level, argp, off, args, todo) && off <= o < level && o < p < |buffer|
      requires t == buffer[o..level] && buffer[p] == QUOTE && Clean(t + buffer[level..], 1, p - o)
      modifies this`buffer, this`argp
      ensures var r := LexQuoted(t, old(buffer[level..]), p - o);
        && (ok <==> r.Tok?)
        && (ok ==> Lexing(buffer, level, argp, next, args + [r.value], r.rest))
        && (ok && r.rest != [] ==> buffer[level..] == Shrink(old(buffer[level..]), r.grown))
    {
      ghost var b0, argp0, beyond := buffer, argp, buffer[level..];
      hide Lexing, ArgAt, WellEscaped, Unescape, LexQuoted, Behind, Shrink, Clean;
      LexingText(buffer, level, argp, off, args, todo);
      QuotedSlices(b0, o, p, level, t, beyond);
      QuotedToken(t, beyond, p - o);
      next, ok := TakeQuoted(o, p);
      if ok {
        ghost var r := LexQuoted(t, beyond, p - o);
        KeptBehind(buffer, b0, p + 1, level);
        LexingNext(b0, level, argp0, off, args, todo, buffer, level, o + 1, r.value, next, r.rest);
      }
    }

    method GetDelim(off: nat, o: nat, ghost args: seq<string>, ghost todo: string, ghost t: string)
      returns (next: nat)
      requires Lexing(buffer, level, argp, off, args, todo) && off <= o < level && t == buffer[o..level]
      requires IsDelim(t[0]) && !refused
      modifies this`buffer, this`level, this`argp, this`refused
      ensures !refused ==>
        && level == old(level) + Grown(t[1..])
        && Lexing(buffer, level, argp, next, args + [CStr(t[..1])], t[1..])
        && (t[1..] != [] ==> buffer[level..] == Shrink(old(buffer[level..]), 1))
    {
      ghost var b0, level0, argp0 := buffer, level, argp;
      SliceSlice(b0, o, level, 0, 1);
      SliceSlice(b0, o, level, 1, level - o);
      next := TakeDelim(o);
      if refused { return; }
      LexingNext(b0, level0, argp0, off, args, todo, buffer, level, o, CStr(t[..1]), next, t[1..]);
    }

    method GetAtom(off: nat, o: nat, ghost args: seq<string>, ghost todo: string, ghost t: string)
      returns (next: nat)
      requires Lexing(buffer, level, argp, off, args, todo) && off <= o < level && t == buffer[o..level]
      requires !IsDelim(t[0]) && !IsBlank(t[0]) && !refused
      modifies this`buffer, this`level, this`argp, this`refused
      ensures !refused ==>
        var rest := t[AtomRun(t)..];
        && level == old(level) + Grown(rest)
        && Lexing(buffer, level, argp, next, args + [t[..AtomRun(t)]], rest)
        && (rest != [] ==> buffer[level..] == Shrink(old(buffer[level..]), 1))
    {
      ghost var b0, level0, argp0 := buffer, level, argp;
      next := TakeAtom(o);
      if refused { return; }
      LexingNext(b0, level0, argp0, off, args, todo, buffer, level, o, t[..AtomRun(t)], next, t[AtomRun(t)..]);
    }

    /** `gettok` from the first character that is not blank. */
    method GetTokAt(off: nat, o: nat, ghost args: seq<string>, ghost todo: string, ghost t: string)
      returns (next: nat, st: Status)
      requires Lexing(buffer, level, argp, off, args, todo) && !refused
      requires off <= o < level <= |buffer| && t == buffer[o..level]
      requires Trimmed(t) && !IsBlank(t[0])
      modifies this`buffer, this`level, this`argp, this`refused
      ensures st.NoMemory? <==> refused
      ensures !refused ==>
        var r := LexFrom(t, old(buffer[level..]));
        && TokStatus(st, r)
        && (r.Tok? ==> Lexing(buffer, level, argp, next, args + [r.value], r.rest))
        && (r.Tok? ==> level == old(level) + r.grown)
        && (r.Tok? && r.rest != [] ==> buffer[level..] == Shrink(old(buffer[level..]), r.grown))
    {
      hide Lexing, FindClose, LexQuoted, AtomRun, CStr, Shrink;
      RestSplit(buffer, o, level);
      var close := Miss;
      if buffer[o] == QUOTE {
        close := FindClosing(o);
      }
      if close.Past? { return 0, Strayed; }
      if close.Hit? {
        var ok;
        next, ok := GetQuoted(off, o, close.at, args, todo, t);
        return next, if ok then Going else Spun;
      }
      if IsDelim(buffer[o]) {
        next := GetDelim(off, o, args, todo, t);
      } else {
        next := GetAtom(off, o, args, todo, t);
      }
      st := if refused then NoMemory else Going;
    }

    /** `gettok`. */
    method GetTok(off: nat, ghost args: seq<string>, ghost todo: string) returns (next: nat, st: Status)
      requires Lexing(buffer, level, argp, off, args, todo) && off < level && Trimmed(todo) && !refused
      modifies this`buffer, this`level, this`argp, this`refused
      ensures st.NoMemory? <==> refused
      ensures !refused ==>
        var r := LexTok(todo, old(buffer[level..]));
        && TokStatus(st, r)
        && (r.Tok? ==> Lexing(buffer, level, argp, next, args + [r.value], r.rest))
        && (r.Tok? ==> level == old(level) + r.grown)
        && (r.Tok? && r.rest != [] ==> buffer[level..] == Shrink(old(buffer[level..]), r.grown))
    {
      assert todo == buffer[off..level];
      hide Lexing, LexFrom, TokStatus;
      var o := SkipBlanks(off);
      ghost var t := buffer[o..level];
      assert t == todo[BlankRun(todo)..];
      next, st := GetTokAt(off, o, args, todo, t);
    }

    /** `imap4d_tokbuf_tokenize`. */
    method Tokenize(off: nat, ghost args: seq<string>, ghost todo: string) returns (st: Status, ghost lim: nat)
      requires Lexing(buffer, level, argp, off, args, todo) && off <= level && Trimmed(todo) && !refused
      modifies this`buffer, this`level, this`argp, this`refused
      ensures st.NoMemory? <==> refused
      ensures !refused ==>
        var r := Lex(todo, old(buffer[level..]));
        && LineStatus(st, r)
        && (r.Args? ==> Lexing(buffer, level, argp, lim, args + r.values, []) && lim >= level)
        && (r.Args? ==> level == old(level) + r.grown)
    {
      hide Lexing, LexTok;
      LexingText(buffer, level, argp, off, args, todo);
      var o: nat := off;
      ghost var beyond0, beyond := buffer[level..], buffer[level..];
      ghost var got: seq<string>, n: nat, rest := [], 0, todo;
      EmptyConcat(args);
      PrependNothing(Lex(todo, beyond0));
      while o < level
        invariant !refused && Trimmed(rest) && level == old(level) + n
        invariant level <= |buffer| && (rest != [] ==> beyond == buffer[level..])
        invariant Lexing(buffer, level, argp, o, args + got, rest)
        invariant Lex(todo, beyond0) == Prepended(got, n, Lex(rest, beyond))
        decreases |rest|
      {
        LexingText(buffer, level, argp, o, args + got, rest);
        ghost var r := LexTok(rest, beyond);
        o, st := GetTok(o, args + got, rest);
        if !st.Going? { return st, 0; }
        PrependSnoc(got, n, r.value, r.grown, Lex(r.rest, Shrink(beyond, r.grown)));
        ConcatAssoc(args, got, [r.value]);
        LexingText(buffer, level, argp, o, args + (got + [r.value]), r.rest);
        got, n, rest, beyond := got + [r.value], n + r.grown, r.rest, Shrink(beyond, r.grown);
      }
      LexingText(buffer, level, argp, o, args + got, rest);
      EmptyConcat(got);
      st, lim := Going, o;
    }

    /** One `mu_stream_timed_readline` into a 512-byte buffer. */
    method ReadChunk() returns (chunk: string)
      requires input != []
      modifies this`input
      ensures chunk != [] && |chunk| <= 511 && old(input) == chunk + input
      ensures forall i :: 0 <= i < |chunk| - 1 ==> chunk[i] != LF
    {
      chunk := [];
      while |chunk| < 511 && input != [] && (chunk == [] || chunk[|chunk| - 1] != LF)
        invariant |chunk| <= 511 && old(input) == chunk + input && (chunk == [] ==> input != [])
        invariant forall i :: 0 <= i < |chunk| - 1 ==> chunk[i] != LF
      {
        HeadTail(input);
        ConcatAssoc(chunk, [input[0]], input[1..]);
        chunk := chunk + [input[0]];
        input := input[1..];
      }
    }

    /** `memcpy` to the end of the buffer. */
    method Append(data: string)
      requires level <= |buffer| <= LARGEST && |data| <= 511 && !refused
      modifies this`buffer, this`level, this`refused
      ensures !refused ==> level == old(level) + |data| <= |buffer| <= LARGEST
      ensures !refused ==> forall i :: 0 <= i < old(level) ==> buffer[i] == old(buffer)[i]
      ensures !refused ==> buffer[old(level)..level] == data
      ensures !refused ==> buffer[level..] == Shrink(old(buffer), level)
    {
      Expand(|data|);
      if refused { return; }
      BehindExpanded(old(buffer), buffer, level, |data|);
      ghost var behind := buffer[level + |data|..];
      buffer := buffer[..level] + data + buffer[level + |data|..];
      level := level + |data|;
      assert buffer[level..] == behind;
    }

    /** The loop of `imap4d_tokbuf_getline`: a line with its LF, or the end of the
        connection. */
    method ReadLf() returns (ok: bool)
      requires level <= |buffer| <= LARGEST && !refused
      modifies this`buffer, this`level, this`input, this`refused
      ensures !refused ==> (ok <==> LineEnd(old(input)).Some?)
      ensures !refused ==> old(level) <= level <= |buffer| <= LARGEST
      ensures !refused && ok ==>
        var e := LineEnd(old(input)).value;
        && buffer[old(level)..level] == old(input)[..e + 1]
        && input == old(input)[e + 1..]
        && buffer[level..] == Shrink(old(buffer), level)
      ensures !refused ==> forall i :: 0 <= i < old(level) ==> buffer[i] == old(buffer)[i]
    {
      hide Shrink, LineEnd;
      ghost var off, all := level, input;
      ghost var got: string := [];
      BehindExpanded(buffer, buffer, level, 0);
      while true
        invariant !refused && off <= level <= |buffer| <= LARGEST && level == off + |got|
        invariant forall i :: 0 <= i < off ==> buffer[i] == old(buffer)[i]
        invariant buffer[off..level] == got && all == got + input
        invariant buffer[level..] == Shrink(old(buffer), level)
        invariant forall i :: 0 <= i < |got| ==> got[i] != LF
        decreases |input|
      {
        if input == [] {
          EmptyConcat(got);
          return false;
        }
        ghost var rest := input;
        var chunk := ReadChunk();
        ConcatAssoc(got, chunk, input);
        AppendTo(off, got, chunk, old(buffer));
        if refused { return false; }
        got := got + chunk;
        if buffer[level - 1] == LF { break; }
      }
      LineGot(all, got, input);
      ok := true;
    }

    method AppendTo(ghost off: nat, ghost got: string, data: string, ghost first: string)
      requires off <= level <= |buffer| <= LARGEST && buffer[off..level] == got && 0 < |data| <= 511 && !refused
      requires buffer[level..] == Shrink(first, level)
      modifies this`buffer, this`level, this`refused
      ensures !refused ==> level == old(level) + |data| <= |buffer| <= LARGEST
      ensures !refused ==> forall i :: 0 <= i < off ==> buffer[i] == old(buffer)[i]
      ensures !refused ==> buffer[off..level] == got + data
      ensures !refused ==> buffer[level - 1] == data[|data| - 1]
      ensures !refused ==> buffer[level..] == Shrink(first, level)
    {
      ghost var mid, b := level, buffer;
      Append(data);
      if refused { return; }
      SliceSplit(buffer, off, mid, level);
      SameSlice(buffer, b, off, mid);
      assert buffer[level - 1] == buffer[mid..level][|data| - 1];
      ShrinkAgain(b, first, mid, |data|);
    }

    /** `tok->buffer[--tok->level] = 0`, with the text from `off` on in view. */
    method DropLast(ghost off: nat)
      requires off < level <= |buffer|
      modifies this`buffer, this`level
      ensures level == old(level) - 1 && |buffer| == old(|buffer|)
      ensures buffer[off..level] == old(buffer[off..level])[..level - off]
      ensures buffer[level] == NUL
      ensures forall i :: 0 <= i < |buffer| && i != level ==> buffer[i] == old(buffer)[i]
    {
      ghost var b := buffer;
      level := level - 1;
      buffer := buffer[level := NUL];
      SameSlice(buffer, b, off, level);
      SliceSlice(b, off, level + 1, 0, level - off);
    }

    /** The end of `imap4d_tokbuf_getline`: drop LF, CR and trailing blanks. */
    method TrimTail(off: nat)
      requires off < level <= |buffer| && (off > 0 ==> buffer[off - 1] == NUL)
      modifies this`buffer, this`level
      ensures off <= level < old(level) && |buffer| == old(|buffer|)
      ensures buffer[off..level] == TrimLine(old(buffer[off..level])[..old(level) - 1 - off])
      ensures forall i :: 0 <= i < off || old(level) <= i < |buffer| ==> buffer[i] == old(buffer)[i]
      ensures forall i :: level <= i < old(level) ==> buffer[i] == NUL
    {
      hide TrimBlanks;
      DropLast(off);
      ghost var line := buffer[off..level];
      if level > 0 && buffer[level - 1] == CR {
        assert level > off && line[|line| - 1] == buffer[level - 1];
        DropLast(off);
      } else {
        assert level > off ==> line[|line| - 1] == buffer[level - 1];
      }
      assert buffer[off..level] == StripCr(line);
      TrimBlanksAtEnd(off);
    }

    method TrimBlanksAtEnd(off: nat)
      requires off <= level < |buffer| && (off > 0 ==> buffer[off - 1] == NUL)
      modifies this`buffer, this`level
      ensures off <= level <= old(level) && |buffer| == old(|buffer|)
      ensures buffer[off..level] == TrimBlanks(old(buffer[off..level]))
      ensures forall i :: 0 <= i < off || old(level) <= i < |buffer| ==> buffer[i] == old(buffer)[i]
      ensures forall i :: level <= i < old(level) ==> buffer[i] == NUL
    {
      ghost var now := buffer[off..level];
      while level > 0 && IsBlank(buffer[level - 1])
        invariant off <= level <= old(level) && |buffer| == old(|buffer|)
        invariant forall i :: 0 <= i < off || old(level) <= i < |buffer| ==> buffer[i] == old(buffer)[i]
        invariant forall i :: level <= i < old(level) ==> buffer[i] == NUL
        invariant now == buffer[off..level] && TrimBlanks(now) == TrimBlanks(old(buffer[off..level]))
        decreases level
      {
        assert level > off && now[|now| - 1] == buffer[level - 1];
        DropLast(off);
        now := now[..|now| - 1];
      }
      assert level > off ==> now[|now| - 1] == buffer[level - 1];
    }

    /** `imap4d_tokbuf_getline`: behind the text lie a NUL for each octet dropped, and
        then what the buffer held before. */
    method GetLine() returns (off: nat, ok: bool)
      requires level <= |buffer| <= LARGEST && (level > 0 ==> buffer[level - 1] == NUL) && !refused
      modifies this`buffer, this`level, this`input, this`refused
      ensures off == old(level)
      ensures !refused ==> (ok <==> LineEnd(old(input)).Some?)
      ensures !refused && ok ==>
        var e := LineEnd(old(input)).value;
        var line := old(input)[..e];
        && off <= level < |buffer| <= LARGEST && level == off + |TrimLine(line)|
        && buffer[off..level] == TrimLine(line)
        && buffer[level..] == Nuls(Dropped(line)) + Shrink(old(buffer), off + e + 1)
        && input == old(input)[e + 1..]
      ensures !refused ==> forall i :: 0 <= i < off && i < |buffer| ==> buffer[i] == old(buffer)[i]
    {
      hide TrimLine, Nuls, LineEnd, Shrink;
      off := level;
      ok := ReadLf();
      if !refused && ok {
        ghost var e := LineEnd(old(input)).value;
        ghost var got := buffer[off..level];
        assert got[..e] == old(input)[..e];
        ghost var b, top := buffer, level;
        TrimTail(off);
        NulsBehind(b, buffer, level, top);
      }
    }

    /** One read of at most `most` octets. */
    method TakeSome(most: nat) returns (piece: string)
      requires most > 0 && |input| > 0
      modifies this`input
      ensures 0 < |piece| <= most && old(input) == piece + input
    {
      var sz: int := *;
      if sz <= 0 || sz > most || sz > |input| { sz := 1; }
      TakeDrop(input, sz);
      piece := input[..sz];
      input := input[sz..];
    }

    /** The loop that reads a literal into free space, in pieces of any size. */
    method ReadLiteral(n: nat) returns (len: nat)
      requires level + n < |buffer|
      modifies this`buffer, this`input
      ensures |buffer| == old(|buffer|) && level + len < |buffer|
      ensures len == (if n <= old(|input|) then n else old(|input|))
      ensures buffer[level..level + len] == old(input)[..len] && input == old(input)[len..]
      ensures forall i :: 0 <= i < level ==> buffer[i] == old(buffer)[i]
    {
      len := 0;
      ghost var all: string, got: string := input, [];
      while len < n && |input| > 0
        invariant len == |got| <= n && |buffer| == old(|buffer|)
        invariant all == got + input && buffer[level..level + len] == got
        invariant forall i :: 0 <= i < level ==> buffer[i] == old(buffer)[i]
        decreases |input|
      {
        var piece := TakeSome(n - len);
        ConcatAssoc(got, piece, input);
        WrittenAfter(buffer, level, level + len, piece);
        buffer := Written(buffer, level + len, piece);
        got := got + piece;
        len := len + |piece|;
      }
      assert all[..len] == got && all[len..] == input;
    }

    /** Folding, terminating and pointing the last argument to the text of a literal. */
    method StoreAt(off: nat, len: nat, ghost text: string, ghost args: seq<string>)
      requires off + len <= |buffer| && level + len < |buffer| <= LARGEST && buffer[off..off + len] == text
      requires off == level || (off == level + 1 && text != [])
      requires |argp| > 0 && HoldsArgs(buffer, argp[..|argp| - 1], level, args)
      modifies this`buffer, this`level, this`argp
      ensures Ready(buffer, level, argp, args + [CStr(Kept(old(off == level), FoldCrlf(text)))])
      ensures level == old(level) + |FoldCrlf(text)| + 1
    {
      hide HoldsArgs, Ready;
      ghost var b0 := buffer;
      var l;
      buffer, l := Decrlf(buffer, off, len);
      FoldKeepsText(text);
      StoreEnds(b0, level, argp[..|argp| - 1], args, buffer, off, FoldCrlf(text));
      level := level + l;
      buffer := buffer[level := NUL];
      level := level + 1;
      argp := argp[..|argp| - 1] + [off];
    }

    /** Unquoting what follows the opening quote of a literal. */
    method UnquoteTail(len: nat, ghost tail: string, ghost args: seq<string>) returns (l: nat, ok: bool)
      requires 0 < len && level + len < |buffer| && tail == buffer[level + 1..level + len]
      requires tail == [] || tail[|tail| - 1] == QUOTE
      requires |argp| > 0 && HoldsArgs(buffer, argp[..|argp| - 1], level, args)
      modifies this`buffer
      ensures ok <==> WellEscaped(tail)
      ensures ok ==> |buffer| == old(|buffer|) && HoldsArgs(buffer, argp[..|argp| - 1], level, args)
      ensures ok ==> l <= |tail| && buffer[level + 1..level + 1 + l] == Unescape(tail)
    {
      hide HoldsArgs;
      ghost var b0 := buffer;
      assert level + len == level + 1 + (len - 1);
      assert tail != [] ==> buffer[level + 1 + (len - 1) - 1] == tail[|tail| - 1];
      buffer, l, ok := Unquote(buffer, level + 1, len - 1);
      if ok { HoldsArgsKept(b0, buffer, argp[..|argp| - 1], level, args); }
    }

    /** A literal that begins and ends with a double quote. */
    method StoreQuoted(len: nat, ghost bytes: string, ghost args: seq<string>) returns (stored: bool, spins: bool)
      requires 0 < len && level + len < |buffer| <= LARGEST && bytes == buffer[level..level + len] && LooksQuoted(bytes)
      requires |argp| > 0 && HoldsArgs(buffer, argp[..|argp| - 1], level, args)
      modifies this`buffer, this`level, this`argp
      ensures stored <==> StoreLiteral(bytes).Stored?
      ensures spins <==> StoreLiteral(bytes).StoredSpin?
      ensures stored ==> Ready(buffer, level, argp, args + [StoreLiteral(bytes).text])
      ensures stored ==> level == old(level) + StoreLiteral(bytes).used
    {
      hide HoldsArgs, Ready, StoreLiteral, LooksQuoted, FoldCrlf;
      QuotedCases(bytes);
      ghost var tail := bytes[1..];
      SliceSlice(buffer, level, level + len, 1, len);
      var l;
      l, stored := UnquoteTail(len, tail, args);
      spins := !stored;
      if stored && len > 1 {
        UnescapeKeepsQuote(tail);
        StoreAt(level + 1, l, Unescape(tail), args);
      }
      stored := stored && len > 1;
    }

    /** What `imap4d_readline` does with the octets of a literal. */
    method StoreText(len: nat, ghost bytes: string, ghost args: seq<string>) returns (stored: bool, spins: bool)
      requires 0 < len && level + len < |buffer| <= LARGEST && bytes == buffer[level..level + len]
      requires |argp| > 0 && HoldsArgs(buffer, argp[..|argp| - 1], level, args)
      modifies this`buffer, this`level, this`argp
      ensures stored <==> StoreLiteral(bytes).Stored?
      ensures spins <==> StoreLiteral(bytes).StoredSpin?
      ensures stored ==> Ready(buffer, level, argp, args + [StoreLiteral(bytes).text])
      ensures stored ==> level == old(level) + StoreLiteral(bytes).used
    {
      hide HoldsArgs, Ready;
      if buffer[level] == QUOTE && buffer[level + len - 1] == QUOTE {
        stored, spins := StoreQuoted(len, bytes, args);
      } else {
        StoreAt(level, len, bytes, args);
        stored, spins := true, false;
      }
    }

    /** One line, tokenized behind the arguments already there. */
    method LineArgs(ghost args: seq<string>) returns (st: Status, ghost lim: nat)
      requires Ready(buffer, level, argp, args) && !refused
      modifies this
      ensures st.NoMemory? <==> refused
      ensures !refused ==> (st.AtEof? <==> LineEnd(old(input)).None?)
      ensures !refused && LineEnd(old(input)).Some? ==>
        var e := LineEnd(old(input)).value;
        var text := TrimLine(old(input)[..e]);
        var line := Lex(text, Nuls(Dropped(old(input)[..e])) + Shrink(old(buffer), old(level) + e + 1));
        && LineStatus(st, line)
        && (line.Args? ==> input == old(input)[e + 1..] && lim >= level)
        && (line.Args? ==> Lexing(buffer, level, argp, lim, args + line.values, []))
        && (line.Args? ==> level == old(level) + |text| + line.grown)
    {
      hide Ready, Lexing, Lex, TrimLine, Dropped, Nuls, Shrink;
      ghost var b0, argp0 := buffer, argp;
      ReadyBuffer(buffer, level, argp, args);
      var off, ok := GetLine();
      if refused { return NoMemory, 0; }
      if !ok { return AtEof, 0; }
      ReadyLexing(b0, off, argp, args, buffer, level);
      st, lim := Tokenize(off, args, buffer[off..level]);
    }

    /** Room for `n` octets and a NUL.  Both sums are of type `size_t`; the room is
        there exactly if none of them wraps. */
    method MakeRoom(n: nat) returns (room: bool)
      requires level <= |buffer| <= LARGEST && n <= ULONG_MAX && !refused
      modifies this`buffer, this`refused
      ensures LARGEST < level + n + 1 <= ULONG_MAX ==> refused
      ensures !refused ==> |buffer| <= LARGEST
      ensures !refused ==> (room <==> level + n + 1 <= |buffer|) && (room <==> level + n + 1 <= ULONG_MAX)
      ensures !refused && room ==> forall i :: 0 <= i < old(|buffer|) ==> i < |buffer| && buffer[i] == old(buffer)[i]
    {
      Expand((n + 1) % (ULONG_MAX + 1));
      room := level + n + 1 <= |buffer|;
    }

    /** A literal of `n` octets, or as many as the connection still yields.  Without the
        room for it the octets are written outside the buffer. */
    method TakeLiteral(n: nat, ghost args: seq<string>, ghost lim: nat) returns (st: Status)
      requires n <= ULONG_MAX && args != [] && !refused
      requires lim >= level && Lexing(buffer, level, argp, lim, args, [])
      modifies this
      ensures st.NoMemory? <==> refused
      ensures LARGEST < old(level) + n + 1 <= ULONG_MAX ==> refused
      ensures !refused ==>
        && (st.AtEof? <==> n == 0 || old(input) == [])
        && (st.Overflowed? <==> n > 0 && old(input) != [] && old(level) + n + 1 > ULONG_MAX)
      ensures !refused && n > 0 && old(input) != [] && old(level) + n + 1 <= ULONG_MAX ==>
        var len := if n <= old(|input|) then n else old(|input|);
        var text := StoreLiteral(old(input)[..len]);
        && (st.Going? <==> text.Stored?)
        && (st.Spun? <==> text.StoredSpin?)
        && (st.Dangled? <==> text.StoredNowhere?)
        && (st.Going? ==> input == old(input)[len..])
        && (st.Going? ==> Ready(buffer, level, argp, args[..|args| - 1] + [text.text]))
        && (st.Going? ==> level == old(level) + text.used)
      ensures !st.Finished? && !st.Strayed?
      ensures st.Going? ==> n > 0 && old(input) != [] && old(level) + n + 1 <= ULONG_MAX
    {
      hide Ready, Lexing, HoldsArgs, StoreLiteral;
      ghost var b0 := buffer;
      LexedButLast(buffer, level, argp, lim, args);
      var room := MakeRoom(n);
      if refused { return NoMemory; }
      if n == 0 || |input| == 0 { return AtEof; }
      if !room { return Overflowed; }
      ArgsKept(b0, buffer, argp[..|argp| - 1], level, level, args[..|args| - 1]);
      ghost var b1 := buffer;
      var len := ReadLiteral(n);
      ArgsKept(b1, buffer, argp[..|argp| - 1], level, level, args[..|args| - 1]);
      var stored, spins := StoreText(len, buffer[level..level + len], args[..|args| - 1]);
      st := if stored then Going else if spins then Spun else Dangled;
    }

    /** What the buffer and the input say of a command when reading it stops. */
    ghost predicate Reports(st: Status, r: Reading)
      reads this
    {
      && !st.Going? && (st.NoMemory? <==> refused) && (r.Refused? ==> refused)
      && (!refused ==>
        && (st.Finished? <==> r.Done?)
        && (st.AtEof? <==> r.Eof?)
        && (st.Spun? <==> r.Spinning?)
        && (st.Dangled? <==> r.Dangling?)
        && (st.Strayed? <==> r.Straying?)
        && (st.Overflowed? <==> r.Overflowing?)
        && (r.Done? ==> HoldsArgs(buffer, argp, |buffer|, r.args) && input == r.rest))
    }

    /** The test of the last argument, and the literal it announces, whatever lies
        behind the lines that may follow it. */
    method LastArg(ghost args: seq<string>, ghost lim: nat) returns (st: Status, ghost args': seq<string>)
      requires lim >= level && Lexing(buffer, level, argp, lim, args, []) && !refused
      modifies this
      ensures st.Going? ==> Ready(buffer, level, argp, args') && |input| < old(|input|) && !refused
      ensures st.Going? ==>
        forall future :: AfterLine(old(input), args, old(level), future) == ReadFrom(input, args', level, future)
      ensures !st.Going? ==> forall future :: Reports(st, AfterLine(old(input), args, old(level), future))
    {
      hide Ready, Lexing, HoldsArgs, StoreLiteral, LiteralRequest, ReadFrom, AfterLine, AfterLiteral;
      args' := args;
      ghost var rest, top := input, level;
      forall future { ArgCases(input, args, level, future); }
      LexedAll(buffer, level, argp, lim, args);
      if |argp| == 0 { return Finished, args; }
      LexedLast(buffer, level, argp, lim, args);
      var want := LiteralRequest(CStr(buffer[argp[|argp| - 1]..]));
      if want.None? { return Finished, args; }
      ArgCases(input, args, level, []);
      st := TakeLiteral(want.value, args, lim);
      if !refused && rest != [] && want.value > 0 && top + want.value + 1 <= ULONG_MAX {
        forall future { LiteralCases(rest, args, want.value, top, future); }
        ghost var len := if want.value <= |rest| then want.value else |rest|;
        if st.Going? { args' := args[..|args| - 1] + [StoreLiteral(rest[..len]).text]; }
      }
    }

    /** One round of the loop of `imap4d_readline`; `more` is what the buffer held
        behind the line. */
    method ReadRound(ghost args: seq<string>) returns (st: Status, ghost args': seq<string>, ghost more: string)
      requires Ready(buffer, level, argp, args) && !refused
      modifies this
      ensures LineEnd(old(input)).Some? ==> more == Shrink(old(buffer), old(level) + LineEnd(old(input)).value + 1)
      ensures st.Going? ==> Ready(buffer, level, argp, args') && |input| < old(|input|) && !refused
      ensures st.Going? ==>
        forall future :: ReadFrom(old(input), args, old(level), [more] + future) == ReadFrom(input, args', level, future)
      ensures !st.Going? ==> forall future :: Reports(st, ReadFrom(old(input), args, old(level), [more] + future))
    {
      hide Ready, Lexing, HoldsArgs, TrimLine, Lex, LineEnd, Dropped, Nuls, Shrink, ReadFrom, AfterLine, AfterLiteral;
      args' := args;
      more := if LineEnd(input).Some? then Shrink(buffer, level + LineEnd(input).value + 1) else [];
      ghost var before, lim := input, 0;
      forall future { LineCases(input, args, level, more, future); }
      st, lim := LineArgs(args);
      if st.Going? {
        ghost var e := LineEnd(before).value;
        ghost var line := Lex(TrimLine(before[..e]), Nuls(Dropped(before[..e])) + more);
        st, args' := LastArg(args + line.values, lim);
      }
    }

    /** Reading so far has used `memory`, and the rest is as if it began here. */
    ghost predicate SoFar(first: string, memory: seq<string>, args: seq<string>)
      reads this`input, this`level
    {
      forall future :: ReadFrom(first, [], 0, memory + future) == ReadFrom(input, args, level, future)
    }

    /** `imap4d_readline`: when it returns, the offsets in `argp` are exactly the
        arguments of the command and the input stands behind it.  `memory` is what the
        buffer held behind each line; behind the first, what it held before. */
    method ReadLine() returns (st: Status, ghost memory: seq<string>)
      requires |buffer| <= LARGEST && !refused
      modifies this
      ensures Reports(st, ReadCommand(old(input), memory))
      ensures LineEnd(old(input)).Some? ==> First(memory) == Shrink(old(buffer), LineEnd(old(input)).value + 1)
    {
      hide Ready, Lexing, HoldsArgs, ReadFrom, AfterLine, AfterLiteral, LineEnd, Shrink;
      argp, level, memory := [], 0, [];
      ghost var args: seq<string> := [];
      ReadyStarts(buffer);
      forall future ensures memory + future == future { EmptyConcat<string>(future); }
      st := Going;
      while st.Going?
        invariant st.Going? ==> Ready(buffer, level, argp, args) && !refused
        invariant st.Going? ==> SoFar(old(input), memory, args)
        invariant !st.Going? ==> Reports(st, ReadFrom(old(input), [], 0, memory))
        invariant memory == [] ==> st.Going? && input == old(input) && buffer == old(buffer) && level == 0
        invariant memory != [] && LineEnd(old(input)).Some? ==>
          memory[0] == Shrink(old(buffer), LineEnd(old(input)).value + 1)
        decreases if st.Going? then |input| + 1 else 0
      {
        st, args, memory := NextRound(old(input), memory, args);
      }
    }

    method NextRound(ghost first: string, ghost memory: seq<string>, ghost args: seq<string>)
      returns (st: Status, ghost args': seq<string>, ghost memory': seq<string>)
      requires Ready(buffer, level, argp, args) && !refused && SoFar(first, memory, args)
      modifies this
      ensures |memory'| == |memory| + 1 && memory'[..|memory|] == memory
      ensures LineEnd(old(input)).Some? ==>
        memory'[|memory|] == Shrink(old(buffer), old(level) + LineEnd(old(input)).value + 1)
      ensures st.Going? ==> Ready(buffer, level, argp, args') && !refused && |input| < old(|input|)
      ensures st.Going? ==> SoFar(first, memory', args')
      ensures !st.Going? ==> Reports(st, ReadFrom(first, [], 0, memory'))
    {
      hide Ready, ReadFrom, LineEnd, Shrink, HoldsArgs;
      ghost var more;
      st, args', more := ReadRound(args);
      memory' := memory + [more];
      forall future ensures memory' + future == memory + ([more] + future) {
        ConcatAssoc(memory, [more], future);
      }
      EmptyConcat(memory');
      EmptyConcat([more]);
    }

    /** `imap4d_tokbuf_from_string`: a NUL-terminated string as the whole buffer. */
    method FromString(str: string) returns (st: Status)
      requires NUL !in str && Trimmed(str) && |str| < LARGEST && !refused
      modifies this
      ensures st.NoMemory? <==> refused
      ensures !refused ==> LineStatus(st, Lex(str, [NUL]))
      ensures st.Going? ==> HoldsArgs(buffer, argp, |buffer|, Lex(str, [NUL]).values)
    {
      hide Lexing, HoldsArgs, Lex;
      buffer, level, argp := str + [NUL], |str|, [];
      TextLexing(str);
      assert buffer[level..] == [NUL];
      ghost var lim;
      st, lim := Tokenize(0, [], str);
      if st.Going? {
        EmptyConcat(Lex(str, [NUL]).values);
        LexedAll(buffer, level, argp, lim, Lex(str, [NUL]).values);
      }
    }
  }

  lemma ShrinkAgain(b: string, first: string, mid: nat, n: nat)
    requires mid <= |b| && b[mid..] == Shrink(first, mid)
    ensures Shrink(b, mid + n) == Shrink(first, mid + n)
  {
    if mid + n <= |b| && mid <= |first| {
      SliceSlice(b, mid, |b|, n, |b| - mid);
      SliceSlice(first, mid, |first|, n, |first| - mid);
    }
  }

  lemma LexingText(buf: string, level: nat, argp: seq<nat>, off: nat, args: seq<string>, todo: string)
    requires Lexing(buf, level, argp, off, args, todo)
    ensures level <= |buf| <= LARGEST
    ensures off < level <==> todo != []
    ensures off < level ==> |todo| == level - off
  {
  }
}
