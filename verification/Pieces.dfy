/** The second tokenizer, `parsebuf.c`: it cuts the arguments of a command into
    single delimiters and runs of other characters, in place, by putting a NUL
    into the argument and keeping the character it overwrote. */
module Pieces {
  import opened Text
  import opened Lexer
  import opened Tokbuf

  // ----- what the stream of pieces is -----

  /** `strcspn (s, delim)`. */
  function Run(s: string, delim: string): (n: nat)
    ensures n <= |s|
    ensures forall i :: 0 <= i < n ==> s[i] !in delim
    ensures n < |s| ==> s[n] in delim
  {
    if s == [] || s[0] in delim then 0 else 1 + Run(s[1..], delim)
  }

  /** Length of the piece at the front of a text. */
  function First(s: string, delim: string): (n: nat)
    requires s != []
    ensures 1 <= n <= |s|
  {
    if s[0] in delim then 1 else Run(s, delim)
  }

  /** Single delimiters and maximal runs free of them. */
  function Cut(s: string, delim: string): (ps: seq<string>)
    ensures ps == [] <==> s == []
    decreases |s|
  {
    if s == [] then [] else [s[..First(s, delim)]] + Cut(s[First(s, delim)..], delim)
  }

  /** With no delimiters an argument is one piece. */
  function CutArg(s: string, delim: Option<string>): seq<string> {
    if delim.Some? then Cut(s, delim.value) else [s]
  }

  function CutAll(args: seq<string>, delim: Option<string>): seq<string> {
    if args == [] then [] else CutArg(args[0], delim) + CutAll(args[1..], delim)
  }

  /** What lies behind the NUL at `a`, up to the next one. */
  function PastNul(text: string, a: nat): string {
    if a < |text| then CStr(text[a + 1..]) else []
  }

  /** The pieces the tokenizer takes for one argument.  At an empty one it finds the
      terminating NUL among the delimiters, as `strchr` does, and goes on behind it. */
  function ArgStream(text: string, a: nat, v: string, delim: Option<string>): seq<string> {
    if v == [] && delim.Some? then [[]] + Cut(PastNul(text, a), delim.value) else CutArg(v, delim)
  }

  /** The pieces of the arguments from number `k` on. */
  function StreamFrom(text: string, argp: seq<nat>, args: seq<string>, k: nat, delim: Option<string>): seq<string>
    requires |argp| == |args|
    decreases |args| - k
  {
    if k >= |args| then [] else ArgStream(text, argp[k], args[k], delim) + StreamFrom(text, argp, args, k + 1, delim)
  }

  predicate NonEmpty(args: seq<string>) {
    forall i :: 0 <= i < |args| ==> args[i] != []
  }

  lemma {:induction false} StreamIsLonger(text: string, argp: seq<nat>, args: seq<string>, k: nat, delim: string)
    requires |argp| == |args| && k <= |args|
    ensures |StreamFrom(text, argp, args, k, Some(delim))| >= |CutAll(args[k..], Some(delim))|
    ensures NonEmpty(args[k..]) ==> StreamFrom(text, argp, args, k, Some(delim)) == CutAll(args[k..], Some(delim))
    ensures !NonEmpty(args[k..]) ==>
      |StreamFrom(text, argp, args, k, Some(delim))| > |CutAll(args[k..], Some(delim))|
    decreases |args| - k
  {
    if k < |args| {
      StreamIsLonger(text, argp, args, k + 1, delim);
      assert args[k..][0] == args[k] && args[k..][1..] == args[k + 1..];
      var v := args[k..];
      if !NonEmpty(v) && v[0] != [] {
        var i :| 0 <= i < |v| && v[i] == [];
        assert args[k + 1..][i - 1] == [];
      }
    }
  }

  /** What the parser is given depends on the arguments alone, and is their text in
      pieces, if and only if none of them is empty. */
  lemma StreamIsExact(text: string, argp: seq<nat>, args: seq<string>, k: nat, delim: string)
    requires |argp| == |args| && k <= |args|
    ensures StreamFrom(text, argp, args, k, Some(delim)) == CutAll(args[k..], Some(delim)) <==> NonEmpty(args[k..])
  {
    StreamIsLonger(text, argp, args, k, delim);
  }

  lemma CutPlain(v: string, delim: string)
    requires v != [] && forall i :: 0 <= i < |v| ==> v[i] !in delim
    ensures Cut(v, delim) == [v]
  {
    RunIs(v, delim, |v|);
    assert v[..|v|] == v && v[|v|..] == [];
  }

  /** An empty argument brings back what follows it: the word behind `""` is handed
      out twice, the first time with the blank in front. */
  lemma EmptyArgumentRepeats(w: string, delim: string)
    requires w != [] && NUL !in w && ' ' !in delim && forall i :: 0 <= i < |w| ==> w[i] !in delim
    ensures var text := [NUL, ' '] + w + [NUL];
      HoldsArgs(text, [0, 2], |text|, ["", w]) && StreamFrom(text, [0, 2], ["", w], 0, Some(delim)) == ["", " " + w, w]
  {
    var text := [NUL, ' '] + w + [NUL];
    assert ArgAt(text, 0, |text|, "") && ArgAt(text, 2, |text|, w) && ArgAt(text, 1, |text|, " " + w);
    assert PastNul(text, 0) == " " + w by { StringAt(text, 1, |text|, " " + w); }
    hide *;
    CutPlain(" " + w, delim);
    CutPlain(w, delim);
    TwoArguments(text, [0, 2], ["", w], delim);
  }

  lemma TwoArguments(text: string, argp: seq<nat>, args: seq<string>, delim: string)
    requires |argp| == |args| == 2 && args[0] == [] && args[1] != []
    ensures StreamFrom(text, argp, args, 0, Some(delim))
      == [[]] + Cut(PastNul(text, argp[0]), delim) + Cut(args[1], delim)
  {
    var b := Cut(args[1], delim);
    assert StreamFrom(text, argp, args, 2, Some(delim)) == [];
    assert StreamFrom(text, argp, args, 1, Some(delim)) == b + [] == b;
  }

  function Flat(ps: seq<string>): string {
    if ps == [] then [] else ps[0] + Flat(ps[1..])
  }

  /** A single delimiter, or text free of delimiters. */
  predicate IsPiece(p: string, delim: string) {
    p != [] && (if p[0] in delim then |p| == 1 else forall k :: 0 <= k < |p| ==> p[k] !in delim)
  }

  /** Two runs of text never stand side by side. */
  predicate Maximal(ps: seq<string>, delim: string) {
    ps != [] ==>
      && IsPiece(ps[0], delim) && Maximal(ps[1..], delim)
      && (|ps| > 1 && ps[1] != [] ==> ps[0][0] in delim || ps[1][0] in delim)
  }

  /** Nothing is lost or added, and the pieces are as long as they can be. */
  lemma {:induction false} CutIsFaithful(s: string, delim: string)
    ensures Flat(Cut(s, delim)) == s
    ensures Maximal(Cut(s, delim), delim)
    decreases |s|
  {
    if s != [] {
      var n := First(s, delim);
      CutIsFaithful(s[n..], delim);
      TakeDrop(s, n);
      CutStep(s, delim);
      if n < |s| { CutStep(s[n..], delim); }
    }
  }

  lemma CutStep(s: string, delim: string)
    requires s != []
    ensures Cut(s, delim)[0] == s[..First(s, delim)]
    ensures Cut(s, delim)[1..] == Cut(s[First(s, delim)..], delim)
  {
    ConsDrop(s[..First(s, delim)], Cut(s[First(s, delim)..], delim));
  }

  /** And they are the only pieces like that. */
  lemma {:induction false} CutIsUnique(ps: seq<string>, delim: string)
    requires Maximal(ps, delim)
    ensures Cut(Flat(ps), delim) == ps
    decreases |ps|
  {
    if ps != [] {
      var p, rest := ps[0], ps[1..];
      CutIsUnique(rest, delim);
      var s := Flat(ps);
      if rest != [] { assert Flat(rest)[0] == rest[0][0]; }
      FirstOf(p, Flat(rest), delim);
      assert s[..|p|] == p && s[|p|..] == Flat(rest);
      HeadTail(ps);
    }
  }

  lemma FirstOf(p: string, rest: string, delim: string)
    requires IsPiece(p, delim)
    requires p[0] !in delim && rest != [] ==> rest[0] in delim
    ensures First(p + rest, delim) == |p|
  {
    if p[0] !in delim { RunIs(p + rest, delim, |p|); }
  }

  lemma {:induction false} RunIs(s: string, delim: string, n: nat)
    requires n <= |s| && (forall i :: 0 <= i < n ==> s[i] !in delim)
    requires n < |s| ==> s[n] in delim
    ensures Run(s, delim) == n
  {
    if n > 0 { RunIs(s[1..], delim, n - 1); }
  }

  // ----- the parse buffer -----

  /** A piece cut off by a NUL, and the argument that is left behind it. */
  lemma PieceAt(text: string, t: nat, s: string, n: nat)
    requires ArgAt(text, t, |text|, s) && 0 < n <= |s|
    ensures ArgAt(text[t + n := NUL], t, |text|, s[..n])
    ensures n < |s| ==> text[t + n] == s[n] != NUL
    ensures ArgAt(text, t + n, |text|, s[n..])
  {
    forall i | 0 <= i < |s| - n ensures text[t + n + i] == s[n..][i] {
      assert s[n..][i] == s[n + i] && text[t + (n + i)] == s[n + i];
    }
  }

  /** A piece that is remembered by its address alone reads, once the buffer has been
      restored, as the rest of its argument: as itself if and only if it ends there. */
  lemma RememberedPiece(text: string, t: nat, s: string, delim: string)
    requires s != [] && ArgAt(text, t, |text|, s)
    ensures CStr(text[t..]) == s[..First(s, delim)] <==> Cut(s, delim) == [s[..First(s, delim)]]
  {
    StringAt(text, t, |text|, s);
    var n := First(s, delim);
    CutStep(s, delim);
    if n == |s| { assert s[..n] == s && s[n..] == []; }
  }

  lemma LaterStep(text: string, argp: seq<nat>, args: seq<string>, k: nat, delim: Option<string>)
    requires |argp| == |args| && k < |args|
    ensures StreamFrom(text, argp, args, k, delim) != []
    ensures StreamFrom(text, argp, args, k, delim)[0] == ArgStream(text, argp[k], args[k], delim)[0]
    ensures StreamFrom(text, argp, args, k, delim)[1..]
      == ArgStream(text, argp[k], args[k], delim)[1..] + StreamFrom(text, argp, args, k + 1, delim)
  {
    ConcatTail(ArgStream(text, argp[k], args[k], delim), StreamFrom(text, argp, args, k + 1, delim));
  }

  /** The pieces of one argument: the first, and those of what is left. */
  lemma ArgStep(text: string, a: nat, v: string, delim: string)
    ensures ArgStream(text, a, v, Some(delim))[0] == Taken(v, delim)
    ensures ArgStream(text, a, v, Some(delim))[1..] == Cut(LeftBy(text, a, v, delim), delim)
  {
    if v != [] { CutStep(v, delim); } else { ConsDrop([], Cut(PastNul(text, a), delim)); }
  }

  lemma WholeStep(text: string, a: nat, v: string)
    ensures ArgStream(text, a, v, None)[0] == v && ArgStream(text, a, v, None)[1..] == []
  {
  }

  /** The piece at the front of an argument, and what is left behind it. */
  function Taken(v: string, delim: string): string {
    if v == [] then [] else v[..First(v, delim)]
  }

  function LeftBy(text: string, a: nat, v: string, delim: string): string {
    if v == [] then PastNul(text, a) else v[First(v, delim)..]
  }

  /** Behind the NUL of an empty argument there is another. */
  ghost predicate Ends(text: string, a: nat, v: string) {
    v == [] ==> a < |text| && NUL in text[a + 1..]
  }

  lemma EmptyStands(text: string, t: nat)
    requires ArgAt(text, t, |text|, []) && Ends(text, t, [])
    ensures t + 1 < |text| && text[t] == NUL
    ensures ArgAt(text[t + 1 := NUL], t, |text|, [])
    ensures Stands(text, text[t + 1 := NUL], Some(t), 1, text[t + 1], PastNul(text, t))
  {
    var b := text[t + 1..];
    var v := CStr(b);
    assert v == b[..|v|] && b[..|b|] == b;
    forall i | 0 <= i < |v| ensures text[t + 1 + i] == v[i] { assert b[i] == v[i]; }
    assert b[|v|] == text[t + 1 + |v|];
    assert b[0] == text[t + 1];
    if v == [] { assert text[t + 1 := NUL] == text; }
  }

  lemma SameTail(a: string, b: string, t: nat)
    requires t < |a| && b == a[t := NUL]
    ensures b[t + 1..] == a[t + 1..]
  {
  }

  lemma RunTail(s: string, delim: string)
    requires s != [] && s[0] !in delim
    ensures s[..Run(s, delim)] == [s[0]] + s[1..][..Run(s[1..], delim)]
  {
    TailSlices(s, Run(s, delim));
  }

  /** Where the tokenizer stands: `left` is what is still to take of the current
      argument.  Its first character is under the NUL that ends the piece before;
      everywhere else the buffer is as the command left it. */
  ghost predicate Stands(text: string, buffer: string, token: Option<nat>, tokoff: nat, saveChar: char, left: string) {
    if left == [] then (token.None? || saveChar == NUL) && buffer == text
    else
      && token.Some? && saveChar == left[0] != NUL && ArgAt(text, token.value + tokoff, |text|, left)
      && buffer == text[token.value + tokoff := NUL]
  }

  lemma StandsCases(text: string, buffer: string, token: Option<nat>, tokoff: nat, saveChar: char, left: string)
    requires Stands(text, buffer, token, tokoff, saveChar, left)
    ensures |buffer| == |text|
    ensures left == [] <==> token.None? || saveChar == NUL
    ensures left == [] ==> buffer == text
    ensures left != [] ==>
      && token.Some? && saveChar == left[0] && token.value + tokoff < |buffer|
      && ArgAt(text, token.value + tokoff, |text|, left)
      && buffer[token.value + tokoff := saveChar] == text
      && buffer[token.value + tokoff + 1..] == text[token.value + tokoff + 1..]
  {
    if left != [] {
      assert text[token.value + tokoff] == left[0];
      SameTail(text, buffer, token.value + tokoff);
    }
  }

  /** After a piece is cut from the text `s` at `t`. */
  lemma SplitStands(text: string, t: nat, s: string, n: nat)
    requires ArgAt(text, t, |text|, s) && 0 < n <= |s|
    ensures text[t + n] == NUL <==> n == |s|
    ensures n == |s| ==> Stands(text, text, Some(t), n, NUL, s[n..]) && ArgAt(text, t, |text|, s[..n])
    ensures n < |s| ==>
      && Stands(text, text[t + n := NUL], Some(t), n, text[t + n], s[n..])
      && ArgAt(text[t + n := NUL], t, |text|, s[..n])
  {
    PieceAt(text, t, s, n);
    if n == |s| { assert s[..n] == s; }
  }

  /** `struct imap4d_parsebuf` over the buffer of a command: `arg` is the number of
      the next argument, `token` the place of the current piece, and `saveChar` the
      character under the NUL that ends it (NUL if it ends its argument). */
  class ParseBuf {
    var buffer: string
    var arg: nat
    var token: Option<nat>
    var tokoff: nat
    var saveChar: char
    var peekPtr: Option<string>
    const argp: seq<nat>
    const delim: Option<string>
    ghost const text: string
    ghost const args: seq<string>
    ghost var left: string

    /** `imap4d_with_parsebuf` sets up a buffer at argument `arg`.  `buffer` is the
        memory from the start of the token buffer on, what lies behind it included; an
        empty argument may lead there, and then a NUL comes at some point. */
    constructor (buffer: string, argp: seq<nat>, arg: nat, delim: Option<string>, ghost args: seq<string>)
      requires HoldsArgs(buffer, argp, |buffer|, args)
      requires forall i :: 0 <= i < |args| ==> Ends(buffer, argp[i], args[i])
      ensures Valid() && this.text == buffer && this.args == args && this.delim == delim
      ensures Remaining() == StreamFrom(buffer, argp, args, arg, delim)
    {
      this.buffer, this.argp, this.arg, this.delim := buffer, argp, arg, delim;
      token, tokoff, saveChar, peekPtr := None, 0, NUL, None;
      text, this.args, left := buffer, args, [];
      new;
      EmptyConcat(Later());
    }

    ghost function Later(): seq<string>
      requires |argp| == |args|
      reads this`arg
    {
      StreamFrom(text, argp, args, arg, delim)
    }

    /** The pieces not yet taken. */
    ghost function Remaining(): seq<string>
      requires |argp| == |args|
      reads this`arg, this`left
    {
      (if left == [] || delim.None? then [] else Cut(left, delim.value)) + Later()
    }

    ghost predicate Sound()
      reads this
    {
      && HoldsArgs(text, argp, |text|, args) && |argp| == |args|
      && (forall i :: 0 <= i < |args| ==> Ends(text, argp[i], args[i]))
      && (left != [] ==> delim.Some?)
      && Stands(text, buffer, token, tokoff, saveChar, left)
    }

    ghost predicate Valid()
      reads this
    {
      && Sound()
      && (peekPtr.Some? ==> Remaining() != [] && peekPtr.value == Remaining()[0])
    }

    /** Once every argument has been taken, the buffer is as it was at the start. */
    lemma Restored()
      requires Valid() && Remaining() == []
      ensures buffer == text
    {
    }

    /** Cutting the piece at `token`, where the text `s` of an argument is left. */
    method Split(d: string, ghost s: string)
      requires token.Some? && ArgAt(text, token.value, |text|, s) && buffer == text && Ends(text, token.value, s)
      modifies this`buffer, this`tokoff, this`saveChar, this`left
      ensures left == LeftBy(text, token.value, s, d) && Stands(text, buffer, token, tokoff, saveChar, left)
      ensures ArgAt(buffer, token.value, |buffer|, Taken(s, d))
    {
      hide ArgAt, Stands, CStr, Cut;
      var t := token.value;
      ArgStarts(buffer, t, |text|, s);
      if buffer[t] == NUL {
        EmptyStands(text, t);
        tokoff, saveChar, buffer, left := 1, buffer[t + 1], buffer[t + 1 := NUL], PastNul(text, t);
        return;
      }
      StringAt(buffer, t, |text|, s);
      if buffer[t] in d {
        tokoff := 1;
      } else {
        tokoff := Run(CStr(buffer[t..]), d);
      }
      SplitStands(text, t, s, tokoff);
      saveChar := buffer[t + tokoff];
      if saveChar != NUL { buffer := buffer[t + tokoff := NUL]; }
      left := s[tokoff..];
    }

    /** `imap4d_parsebuf_next`: the next piece, or none; `ok` is false where the
        parse is abandoned with "Too few arguments". */
    method Next(req: bool) returns (r: Option<nat>, ok: bool)
      requires Valid()
      modifies this
      ensures Valid() && peekPtr.None? && token == r
      ensures old(Remaining()) == [] ==> r.None? && ok == !req && Remaining() == []
      ensures old(Remaining()) != [] ==> ok && r.Some? && Remaining() == old(Remaining())[1..]
      ensures old(Remaining()) != [] ==> ArgAt(buffer, r.value, |buffer|, old(Remaining())[0])
    {
      hide Stands, HoldsArgs, ArgAt, Cut, StreamFrom, Ends;
      StandsCases(text, buffer, token, tokoff, saveChar, left);
      peekPtr := None;
      if token.None? || saveChar == NUL {
        r, ok := NextArg(req);
      } else {
        r := NextInside();
        ok := true;
      }
    }

    method NextArg(req: bool) returns (r: Option<nat>, ok: bool)
      requires Sound() && left == [] && peekPtr.None?
      modifies this
      ensures Valid() && peekPtr.None? && token == r
      ensures old(Remaining()) == [] ==> r.None? && ok == !req && Remaining() == []
      ensures old(Remaining()) != [] ==> ok && r.Some? && Remaining() == old(Remaining())[1..]
      ensures old(Remaining()) != [] ==> ArgAt(buffer, r.value, |buffer|, old(Remaining())[0])
    {
      hide Stands, HoldsArgs, ArgAt, Cut, StreamFrom, Ends, ArgStream;
      StandsCases(text, buffer, token, tokoff, saveChar, left);
      EmptyConcat(Later());
      ArgCount(text, argp, |text|, args);
      if arg < |argp| {
        TakeArg();
        r, ok := token, true;
      } else {
        NoneLater(text, argp, args, arg, delim);
        NoneLater(text, argp, args, arg + 1, delim);
        arg, token, tokoff := arg + 1, None, 0;
        EndStands(text, 0, saveChar);
        r, ok := None, !req;
      }
    }

    /** The next argument, its first piece cut off. */
    method TakeArg()
      requires Sound() && left == [] && peekPtr.None? && buffer == text && arg < |argp|
      modifies this
      ensures Valid() && peekPtr.None? && token.Some?
      ensures old(Later()) != [] && Remaining() == old(Later())[1..]
      ensures ArgAt(buffer, token.value, |buffer|, old(Later())[0])
    {
      hide Stands, HoldsArgs, ArgAt, Cut, StreamFrom, Ends, ArgStream, LeftBy, Taken;
      ghost var v := args[arg];
      HeldArg(text, argp, |text|, args, arg);
      LaterStep(text, argp, args, arg, delim);
      token, arg := Some(argp[arg]), arg + 1;
      if delim.Some? {
        Split(delim.value, v);
        ArgStep(text, token.value, v, delim.value);
        CutNone(delim.value);
      } else {
        saveChar, tokoff := NUL, 0;
        WholeStands(text, token.value, v);
        WholeStep(text, token.value, v);
        EmptyConcat(Later());
      }
    }

    method NextInside() returns (r: Option<nat>)
      requires Sound() && left != [] && peekPtr.None?
      modifies this
      ensures Valid() && peekPtr.None? && token == r && r.Some?
      ensures old(Remaining()) != [] && Remaining() == old(Remaining())[1..]
      ensures ArgAt(buffer, r.value, |buffer|, old(Remaining())[0])
    {
      hide Stands, HoldsArgs, ArgAt, Cut, StreamFrom;
      StandsCases(text, buffer, token, tokoff, saveChar, left);
      ghost var s := left;
      var t := token.value + tokoff;
      buffer := buffer[t := saveChar];
      token := Some(t);
      Split(delim.value, s);
      CutStep(s, delim.value);
      CutNone(delim.value);
      ConcatTail(Cut(s, delim.value), Later());
      r := token;
    }

    method PeekArg() returns (p: string)
      requires Sound() && left == [] && arg < |argp|
      ensures Remaining() != [] && p == Remaining()[0]
    {
      hide Stands, HoldsArgs, ArgAt, Cut, StreamFrom, Ends;
      StandsCases(text, buffer, token, tokoff, saveChar, left);
      var a := argp[arg];
      ArgCount(text, argp, |text|, args);
      HeldArg(text, argp, |text|, args, arg);
      ghost var v := args[arg];
      StringAt(buffer, a, |text|, v);
      ArgStarts(buffer, a, |text|, v);
      LaterStep(text, argp, args, arg, delim);
      EmptyConcat(Later());
      var s := CStr(buffer[a..]);
      if delim.Some? {
        ArgStep(text, a, v, delim.value);
        p := if buffer[a] == NUL then [] else if buffer[a] in delim.value then [buffer[a]] else s[..Run(s, delim.value)];
      } else {
        p := s;
      }
    }

    method PeekInside() returns (p: string)
      requires Sound() && left != []
      ensures Remaining() != [] && p == Remaining()[0]
    {
      hide Stands, HoldsArgs, ArgAt, Cut, StreamFrom, Ends;
      StandsCases(text, buffer, token, tokoff, saveChar, left);
      var t := token.value + tokoff;
      CutStep(left, delim.value);
      ConcatTail(Cut(left, delim.value), Later());
      if saveChar in delim.value {
        p := [saveChar];
      } else {
        var s := CStr(buffer[t + 1..]);
        PieceAt(text, t, left, 1);
        StringAt(text, t + 1, |text|, left[1..]);
        RunTail(left, delim.value);
        p := [saveChar] + s[..Run(s, delim.value)];
      }
    }

    /** `imap4d_parsebuf_peek`: what the next call of `Next` would return, as a copy. */
    method Peek() returns (r: Option<string>)
      requires Valid()
      modifies this`peekPtr
      ensures Valid() && Remaining() == old(Remaining())
      ensures r == (if Remaining() == [] then None else Some(Remaining()[0]))
    {
      hide Stands, HoldsArgs, ArgAt, Cut, StreamFrom, Ends;
      if peekPtr.None? {
        StandsCases(text, buffer, token, tokoff, saveChar, left);
        var p;
        if token.None? || saveChar == NUL {
          ArgCount(text, argp, |text|, args);
          if arg >= |argp| {
            NoneLater(text, argp, args, arg, delim);
            return None;
          }
          p := PeekArg();
        } else {
          p := PeekInside();
        }
        peekPtr := Some(p);
      }
      r := peekPtr;
    }
  }

  lemma ArgCount(text: string, argp: seq<nat>, lim: nat, args: seq<string>)
    requires HoldsArgs(text, argp, lim, args)
    ensures |argp| == |args|
  {
  }

  lemma HeldArg(text: string, argp: seq<nat>, lim: nat, args: seq<string>, k: nat)
    requires HoldsArgs(text, argp, lim, args) && k < |args|
    ensures |argp| == |args| && ArgAt(text, argp[k], lim, args[k])
  {
  }

  lemma ArgStarts(text: string, a: nat, lim: nat, v: string)
    requires ArgAt(text, a, lim, v)
    ensures a + |v| < |text| && text[a] == (if v == [] then NUL else v[0])
    ensures v != [] ==> v[0] != NUL
  {
  }

  lemma EndStands(text: string, tokoff: nat, saveChar: char)
    ensures Stands(text, text, None, tokoff, saveChar, [])
  {
  }

  lemma WholeStands(text: string, t: nat, v: string)
    requires ArgAt(text, t, |text|, v)
    ensures Stands(text, text, Some(t), 0, NUL, [])
  {
  }

  lemma NoneLater(text: string, argp: seq<nat>, args: seq<string>, k: nat, delim: Option<string>)
    requires |argp| == |args| <= k
    ensures StreamFrom(text, argp, args, k, delim) == []
  {
  }

  lemma CutNone(delim: string)
    ensures Cut([], delim) == []
  {
  }

  lemma ConcatTail(a: seq<string>, b: seq<string>)
    requires a != []
    ensures (a + b)[0] == a[0] && (a + b)[1..] == a[1..] + b
  {
  }
}
