/** Reading one whole command from the connection, as a function of the unread
    input and of the memory behind each line: lines, trimming, tokens and literals. */
module Reader {
  import opened Text
  import opened Numbers
  import opened Lexer

  /** Position of the first LF. */
  function LineEnd(s: string): (r: Option<nat>)
    ensures r.None? <==> LF !in s
    ensures r.Some? ==> r.value < |s| && s[r.value] == LF && LF !in s[..r.value]
  {
    if s == [] then None
    else if s[0] == LF then Some(0)
    else
      match LineEnd(s[1..])
      case None => None
      case Some(k) =>
        assert s[..k + 1] == [s[0]] + s[1..][..k];
        Some(k + 1)
  }

  lemma {:induction false} LineEndIs(s: string, k: nat)
    requires k < |s| && s[k] == LF && forall i :: 0 <= i < k ==> s[i] != LF
    ensures LineEnd(s) == Some(k)
  {
    if k > 0 { LineEndIs(s[1..], k - 1); }
  }

  function StripCr(s: string): (r: string)
    ensures |r| <= |s|
  {
    if s != [] && s[|s| - 1] == CR then s[..|s| - 1] else s
  }

  function TrimBlanks(s: string): (r: string)
    ensures Trimmed(r) && |r| <= |s|
  {
    if s != [] && IsBlank(s[|s| - 1]) then TrimBlanks(s[..|s| - 1]) else s
  }

  /** What `imap4d_tokbuf_getline` keeps of a line. */
  function TrimLine(s: string): (r: string)
    ensures Trimmed(r) && |r| <= |s|
  {
    TrimBlanks(StripCr(s))
  }

  /** The octet count if an argument asks for a literal. */
  function LiteralRequest(arg: string): (n: Option<nat>) {
    if |arg| > 0 && arg[0] == '{' && arg[|arg| - 1] == '}' then
      var r := ParseUlong(arg[1..]);
      if r.length < |arg| - 1 && (arg[1 + r.length] == '}' || arg[1 + r.length] == '+')
      then Some(r.value) else None
    else None
  }

  /** How a literal is stored, and how much of the buffer it then takes up.  One that
      begins and ends with a double quote is unquoted like a quoted string; of a lone
      quote nothing is left but a pointer to text that has not been read yet. */
  datatype Stored = Stored(text: string, used: nat) | StoredSpin | StoredNowhere

  predicate LooksQuoted(bytes: string)
    requires bytes != []
  {
    bytes[0] == QUOTE && bytes[|bytes| - 1] == QUOTE
  }

  function StoreLiteral(bytes: string): Stored
    requires bytes != []
  {
    if !LooksQuoted(bytes) then Stored(CStr(FoldCrlf(bytes)), |FoldCrlf(bytes)| + 1)
    else if |bytes| == 1 then StoredNowhere
    else if !WellEscaped(bytes[1..]) then StoredSpin
    else
      var u := FoldCrlf(Unescape(bytes[1..]));
      Stored(CStr(if u == [] then [] else u[..|u| - 1]), |u| + 1)
  }

  /** The largest allocation `realloc` grants. */
  const LARGEST: nat := 0x7fff_ffff_ffff_ffff

  /** The end of `imap4d_readline`: the arguments and the rest of the input; the end
      of the connection; not enough memory; or one of the four ways it goes wrong: an
      endless loop in `unquote`, a literal stored nowhere, a quote sought outside the
      buffer, and a literal read without the room for it. */
  datatype Reading =
    | Done(args: seq<string>, rest: string)
    | Eof
    | Refused
    | Spinning
    | Dangling
    | Straying
    | Overflowing

  function First(memory: seq<string>): string {
    if memory == [] then [] else memory[0]
  }

  function Later(memory: seq<string>): seq<string> {
    if memory == [] then [] else memory[1..]
  }

  /** What lies behind a line once it is trimmed: a NUL for each octet dropped, and
      then what was there before. */
  function Trail(line: string, memory: seq<string>): string {
    Nuls(Dropped(line)) + First(memory)
  }

  /** The octets of a line that are dropped, its LF among them. */
  function Dropped(line: string): (n: nat)
    ensures n > 0 && |TrimLine(line)| + n == |line| + 1
  {
    |line| + 1 - |TrimLine(line)|
  }

  /** `imap4d_readline` with `args` already read and the buffer filled up to `level`.
      Behind the lines still to be read lie the bytes of `memory` in the buffer. */
  function ReadFrom(input: string, args: seq<string>, level: nat, memory: seq<string>): (r: Reading)
    ensures r.Done? ==> |r.rest| < |input|
    decreases |input|
  {
    match LineEnd(input)
    case None => Eof
    case Some(e) =>
      var line := TrimLine(input[..e]);
      match Lex(line, Trail(input[..e], memory))
      case LineSpin => Spinning
      case LineOverrun => Straying
      case Args(vs, n) => AfterLine(input[e + 1..], args + vs, level + |line| + n, Later(memory))
  }

  /** The test of the last argument, and the literal it may announce. */
  function AfterLine(input: string, args: seq<string>, level: nat, memory: seq<string>): (r: Reading)
    ensures r.Done? ==> |r.rest| <= |input|
    decreases |input|, 1
  {
    if args == [] then Done(args, input)
    else
      match LiteralRequest(args[|args| - 1])
      case None => Done(args, input)
      case Some(n) =>
        if LARGEST < level + n + 1 <= ULONG_MAX then Refused
        else if n == 0 || input == [] then Eof
        else if level + n + 1 > ULONG_MAX then Overflowing
        else AfterLiteral(input, args, n, level, memory)
  }

  function AfterLiteral(input: string, args: seq<string>, n: nat, level: nat, memory: seq<string>): (r: Reading)
    requires n > 0 && input != [] && args != []
    ensures r.Done? ==> |r.rest| < |input|
    decreases |input|, 0
  {
    var len := if n <= |input| then n else |input|;
    match StoreLiteral(input[..len])
    case StoredSpin => Spinning
    case StoredNowhere => Dangling
    case Stored(text, used) => ReadFrom(input[len..], args[..|args| - 1] + [text], level + used, memory)
  }

  /** `imap4d_readline`. */
  function ReadCommand(input: string, memory: seq<string>): Reading {
    ReadFrom(input, [], 0, memory)
  }
}
