/** Sending message text: the CRLF encoder, whole and partial FETCH replies, and
    the selection of header fields. */
module FetchIo {
  import opened Text
  import opened Numbers

  // ----- the CRLF encoder -----

  /** Each LF becomes CRLF.  `norm` is the `-n` option, with which an LF that has a
      CR in front of it is left alone; `cr` says that such a CR was just sent. */
  function Encode(s: string, cr: bool, norm: bool): string {
    if s == [] then []
    else if s[0] == LF then (if cr then [LF] else [CR, LF]) + Encode(s[1..], false, norm)
    else [s[0]] + Encode(s[1..], s[0] == CR && norm, norm)
  }

  function StateAfter(s: string, cr: bool, norm: bool): bool {
    if s == [] then cr else s[|s| - 1] == CR && norm
  }

  function Crlf(s: string): string {
    Encode(s, false, false)
  }

  function CountNl(s: string): (n: nat) {
    if s == [] then 0 else (if s[0] == LF then 1 else 0) + CountNl(s[1..])
  }

  lemma {:induction false} EncodeConcat(a: string, b: string, cr: bool, norm: bool)
    ensures Encode(a + b, cr, norm) == Encode(a, cr, norm) + Encode(b, StateAfter(a, cr, norm), norm)
  {
    if a == [] {
      EmptyConcat(b);
      EmptyConcat(Encode(b, cr, norm));
    } else {
      assert (a + b)[0] == a[0] && (a + b)[1..] == a[1..] + b;
      var head, cr' := if a[0] == LF then (if cr then [LF] else [CR, LF]) else [a[0]], a[0] == CR && norm;
      EncodeConcat(a[1..], b, cr', norm);
      ConcatAssoc(head, Encode(a[1..], cr', norm), Encode(b, StateAfter(a, cr, norm), norm));
    }
  }

  lemma EncodeOne(c: char, cr: bool, norm: bool)
    ensures Encode([c], cr, norm) == (if c == LF then if cr then [LF] else [CR, LF] else [c])
    ensures StateAfter([c], cr, norm) == (c == CR && norm)
  {
    assert [c][1..] == [];
    EmptyConcat([c]);
    EmptyConcat([CR, LF]);
  }

  lemma EncodeStep(s: string, i: nat, cr: bool, norm: bool)
    requires i < |s|
    ensures Encode(s[..i + 1], cr, norm)
      == Encode(s[..i], cr, norm) + Encode([s[i]], StateAfter(s[..i], cr, norm), norm)
    ensures StateAfter(s[..i + 1], cr, norm) == (s[i] == CR && norm)
  {
    assert s[..i + 1] == s[..i] + [s[i]];
    EncodeConcat(s[..i], [s[i]], cr, norm);
  }

  /** `_crlf_encoder`: as much of the input as fits into `osize` octets.  `more`
      asks the caller for a larger output buffer. */
  method EncodeChunk(input: string, osize: nat, cr0: bool, norm: bool)
      returns (isize: nat, out: string, cr: bool, more: bool)
    requires cr0 ==> norm
    ensures isize <= |input| && |out| <= osize
    ensures out == Encode(input[..isize], cr0, norm) && cr == StateAfter(input[..isize], cr0, norm)
    ensures more ==> osize == 1
    ensures !more && input != [] && osize > 0 ==> isize > 0
  {
    hide Encode;
    isize, out, cr, more := 0, [], cr0, false;
    NothingEncoded(cr0, norm);
    assert input[..0] == [];
    while isize < |input| && |out| < osize
      invariant isize <= |input| && |out| <= osize && (isize == 0 ==> out == [])
      invariant out == Encode(input[..isize], cr0, norm) && cr == StateAfter(input[..isize], cr0, norm)
      invariant cr ==> norm
    {
      var c := input[isize];
      EncodeStep(input, isize, cr0, norm);
      EncodeOne(c, cr, norm);
      if c == LF {
        if cr {
          cr := false;
          out := out + [c];
        } else if |out| + 1 == osize {
          if isize == 0 { more := true; }
          return;
        } else {
          out := out + [CR, LF];
        }
      } else if c == CR && norm {
        cr := true;
        out := out + [c];
      } else {
        cr := false;
        out := out + [c];
      }
      isize := isize + 1;
    }
  }

  lemma NothingEncoded(cr: bool, norm: bool)
    ensures Encode([], cr, norm) == []
  {
  }

  /** However the text and the output are cut into buffers, the encoded text is the
      same. */
  method EncodeAll(text: string, norm: bool) returns (out: string)
    ensures out == Encode(text, false, norm)
  {
    hide Encode;
    out := [];
    var at, cr := 0, false;
    NothingEncoded(false, norm);
    assert text[..0] == [];
    while at < |text|
      invariant 0 <= at <= |text| && (cr ==> norm)
      invariant out == Encode(text[..at], false, norm) && cr == StateAfter(text[..at], false, norm)
    {
      var len: int, osize: int := *, *;
      if len <= 0 || len > |text| - at { len := |text| - at; }
      if osize < 2 { osize := 2; }
      var isize, part, more;
      ghost var cr0, input := cr, text[at..at + len];
      isize, part, cr, more := EncodeChunk(text[at..at + len], osize, cr, norm);
      SliceSlice(text, at, at + len, 0, isize);
      SliceSplit(text, 0, at, at + isize);
      EncodeConcat(text[..at], input[..isize], false, norm);
      out := out + part;
      at := at + isize;
    }
    assert text[..at] == text;
  }

  /** The size announced for a text, octets plus lines, is the size sent. */
  lemma {:induction false} CrlfSize(s: string)
    ensures |Crlf(s)| == |s| + CountNl(s)
  {
    if s != [] { CrlfSize(s[1..]); }
  }

  // ----- whole and partial replies -----

  /** What `fetch_io` sends behind the name of an item: the origin octet of a
      partial reply, and the data with the octet count announced for it. */
  datatype Reply = Reply(origin: Option<nat>, announced: nat, data: string) | Refused

  /** Size after clipping; `size + 2 < size` is the test for overflow of `size_t`. */
  function Clipped(size: nat, max: nat): nat {
    if size > max then max else size
  }

  predicate Overflows(size: nat) {
    (size + 2) % (SIZE_MAX + 1) < size
  }

  predicate WantsAll(start: nat, size: nat) {
    start == 0 && size == SIZE_MAX
  }

  /** A range of a text, cut off at its end. */
  function Window(e: string, start: nat, size: nat): string {
    e[Upto(start, |e|)..Upto(start + size, |e|)]
  }

  function Upto(n: nat, most: nat): nat {
    if n <= most then n else most
  }

  /** `fetch_io`, for a text whose encoded size is `max`. */
  method SendData(text: string, start: nat, size: nat, max: nat) returns (r: Reply)
    requires size <= SIZE_MAX && max == |text| + CountNl(text) <= SIZE_MAX
    ensures r.Refused? <==> !WantsAll(start, size) && start <= max && Overflows(Clipped(size, max))
    ensures r.Reply? ==> r.data == Window(Crlf(text), start, size)
    ensures r.Reply? ==> r.announced == |r.data|
    ensures r.Reply? ==> r.origin == (if WantsAll(start, size) then None else Some(start))
  {
    hide Encode;
    CrlfSize(text);
    ghost var e := Crlf(text);
    if start == 0 && size == SIZE_MAX {
      var all := EncodeAll(text, false);
      WholeIsWindow(e);
      r := Reply(None, max, all);
    } else if start > max {
      r := Reply(Some(start), 0, []);
    } else {
      var limit := if size > max then max else size;
      if (limit + 2) % (SIZE_MAX + 1) < limit { return Refused; }
      var rfc := EncodeAll(text, false);
      var buffer := ReadWindow(rfc, start, limit);
      r := Reply(Some(start), |buffer|, buffer);
    }
  }

  /** The reading loop of `fetch_io`, each read bringing any positive number of octets. */
  method ReadWindow(rfc: string, start: nat, size: nat) returns (buffer: string)
    requires start <= |rfc| && size <= |rfc|
    ensures buffer == Window(rfc, start, size)
  {
    buffer := [];
    assert rfc[start..start] == [];
    while |buffer| < size && start + |buffer| < |rfc|
      invariant |buffer| <= size && start + |buffer| <= |rfc| && buffer == rfc[start..start + |buffer|]
      decreases |rfc| - |buffer|
    {
      var n: int := *;
      if n <= 0 || n > size - |buffer| || start + |buffer| + n > |rfc| { n := 1; }
      SliceSplit(rfc, start, start + |buffer|, start + |buffer| + n);
      buffer := buffer + rfc[start + |buffer|..start + |buffer| + n];
    }
  }

  /** A request for everything is a range like any other, as long as the size of the
      text can be represented. */
  lemma WholeIsWindow(e: string)
    requires |e| <= SIZE_MAX
    ensures Window(e, 0, SIZE_MAX) == e
  {
    assert e[0..] == e;
  }

  /** Ranges that touch make one range. */
  lemma WindowsJoin(e: string, start: nat, a: nat, b: nat)
    ensures Window(e, start, a) + Window(e, start + a, b) == Window(e, start, a + b)
  {
    SliceSplit(e, Upto(start, |e|), Upto(start + a, |e|), Upto(start + a + b, |e|));
  }

  /** The ranges a client asks for one after the other. */
  function Tiled(e: string, sizes: seq<nat>, start: nat): string {
    if sizes == [] then [] else Window(e, start, sizes[0]) + Tiled(e, sizes[1..], start + sizes[0])
  }

  function Total(sizes: seq<nat>): nat {
    if sizes == [] then 0 else sizes[0] + Total(sizes[1..])
  }

  lemma {:induction false} TilesJoin(e: string, sizes: seq<nat>, start: nat)
    ensures Tiled(e, sizes, start) == Window(e, start, Total(sizes))
    decreases |sizes|
  {
    hide Window;
    if sizes == [] {
      EmptyWindow(e, start);
    } else {
      TilesJoin(e, sizes[1..], start + sizes[0]);
      WindowsJoin(e, start, sizes[0], Total(sizes[1..]));
    }
  }

  lemma EmptyWindow(e: string, start: nat)
    ensures Window(e, start, 0) == []
  {
  }

  /** Consecutive ranges of any sizes that reach the end give the text, nothing lost
      and nothing sent twice. */
  lemma PartialFetchesTile(e: string, sizes: seq<nat>)
    requires Total(sizes) >= |e|
    ensures Tiled(e, sizes, 0) == e
  {
    TilesJoin(e, sizes, 0);
    assert e[0..] == e;
  }

  /** The guard against overflow can refuse only texts of nearly the whole range of
      `size_t`. */
  lemma OverflowNeedsHugeText(size: nat, max: nat)
    requires max <= SIZE_MAX
    ensures Overflows(Clipped(size, max)) <==> Clipped(size, max) > SIZE_MAX - 2
  {
    var n := Clipped(size, max);
    if n + 2 > SIZE_MAX {
      assert (n + 2) % (SIZE_MAX + 1) == n + 2 - (SIZE_MAX + 1);
    }
  }

  // ----- replies as text -----

  const CRLF: string := [CR, LF]

  function OriginText(origin: Option<nat>): string {
    if origin.None? then [] else ['<'] + Dec(origin.value) + ['>']
  }

  function DataText(data: string): string {
    if data == [] then [' ', QUOTE, QUOTE] else [' ', '{'] + Dec(|data|) + ['}'] + CRLF + data
  }

  function ReplyText(r: Reply): string
    requires r.Reply?
  {
    OriginText(r.origin) + DataText(r.data)
  }

  /** How a client reads a number, and what follows it. */
  function ReadNumber(s: string): (nat, string) {
    var n := DigitRun(s);
    (DecValue(s[..n]), s[n..])
  }

  /** How a client reads a reply: an optional origin, then an empty quoted string
      or a literal. */
  function ReadData(s: string): Option<(string, string)> {
    if |s| >= 3 && s[0] == ' ' && s[1] == QUOTE && s[2] == QUOTE then Some(([], s[3..]))
    else if |s| >= 2 && s[0] == ' ' && s[1] == '{' then
      var (n, rest) := ReadNumber(s[2..]);
      if |rest| >= 3 + n && rest[..3] == ['}', CR, LF] then Some((rest[3..3 + n], rest[3 + n..])) else None
    else None
  }

  function ReadReply(s: string): Option<(Reply, string)> {
    if s != [] && s[0] == '<' then
      var (n, rest) := ReadNumber(s[1..]);
      if rest != [] && rest[0] == '>' then
        match ReadData(rest[1..])
        case None => None
        case Some((data, end)) => Some((Reply(Some(n), |data|, data), end))
      else None
    else
      match ReadData(s)
      case None => None
      case Some((data, end)) => Some((Reply(None, |data|, data), end))
  }

  lemma NumberReads(n: nat, rest: string)
    requires rest != [] && !IsDigit(rest[0])
    ensures ReadNumber(Dec(n) + rest) == (n, rest)
  {
    var s := Dec(n) + rest;
    DigitRunOf(Dec(n), rest);
    DecRoundTrip(n);
    assert s[..|Dec(n)|] == Dec(n) && s[|Dec(n)|..] == rest;
  }

  lemma LiteralShape(d: string, data: string, rest: string)
    ensures var s := [' ', '{'] + d + ['}'] + CRLF + data + rest;
      |s| >= 2 && s[0] == ' ' && s[1] == '{' && s[2..] == d + (['}', CR, LF] + (data + rest))
  {
    var s := [' ', '{'] + d + ['}'] + CRLF + data + rest;
    var more := ['}', CR, LF] + (data + rest);
    assert ['}'] + CRLF == ['}', CR, LF];
    assert s == [' ', '{'] + (d + more);
    assert ([' ', '{'] + (d + more))[2..] == d + more;
  }

  lemma LiteralData(data: string, rest: string)
    ensures var more := ['}', CR, LF] + (data + rest);
      && |more| >= 3 + |data| && more[..3] == ['}', CR, LF]
      && more[3..3 + |data|] == data && more[3 + |data|..] == rest
  {
  }

  lemma DataReads(data: string, rest: string)
    ensures ReadData(DataText(data) + rest) == Some((data, rest))
  {
    hide Dec, ReadNumber;
    if data == [] {
      assert ([' ', QUOTE, QUOTE] + rest)[3..] == rest;
    } else {
      var more := ['}', CR, LF] + (data + rest);
      LiteralShape(Dec(|data|), data, rest);
      NumberReads(|data|, more);
      LiteralData(data, rest);
    }
  }

  /** Whatever follows on the connection, a reply is read back as it was sent. */
  lemma ReplyReads(r: Reply, rest: string)
    requires r.Reply? && r.announced == |r.data|
    ensures ReadReply(ReplyText(r) + rest) == Some((r, rest))
  {
    hide Dec, ReadNumber, ReadData, DataText;
    DataReads(r.data, rest);
    DataStarts(r.data);
    var d := DataText(r.data) + rest;
    if r.origin.None? {
      EmptyConcat(DataText(r.data));
    } else {
      var more := ['>'] + d;
      assert ReplyText(r) + rest == ['<'] + (Dec(r.origin.value) + more);
      ConsDrop('<', Dec(r.origin.value) + more);
      NumberReads(r.origin.value, more);
      ConsDrop('>', d);
    }
  }

  lemma DataStarts(data: string)
    ensures DataText(data) != [] && DataText(data)[0] == ' '
  {
  }
}
