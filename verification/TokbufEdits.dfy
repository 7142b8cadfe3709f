/** The in-place edits `io.c` makes inside a character buffer: `memmove`,
    `unquote` and CRLF folding. */
module TokbufEdits {
  import opened Text
  import opened Lexer

  /** The buffer after `memmove (b + dst, b + src, n)`. */
  function Moved(b: string, dst: nat, src: nat, n: nat): (r: string)
    requires dst + n <= |b| && src + n <= |b|
    ensures |r| == |b|
    ensures r[dst..dst + n] == b[src..src + n]
    ensures forall i :: 0 <= i < dst || dst + n <= i < |b| ==> r[i] == b[i]
  {
    b[..dst] + b[src..src + n] + b[dst + n..]
  }

  /** `memchr`: the first occurrence of `c` between `lo` and `hi`. */
  method MemChr(b: string, c: char, lo: nat, hi: nat) returns (p: Option<nat>)
    requires lo <= hi <= |b|
    ensures p.None? ==> forall i :: lo <= i < hi ==> b[i] != c
    ensures p.Some? ==> lo <= p.value < hi && b[p.value] == c
    ensures p.Some? ==> forall i :: lo <= i < p.value ==> b[i] != c
  {
    var i := lo;
    while i < hi
      invariant lo <= i <= hi
      invariant forall j :: lo <= j < i ==> b[j] != c
    {
      if b[i] == c { return Some(i); }
      i := i + 1;
    }
    p := None;
  }

  // ----- unquote -----

  predicate Plain(s: string, lo: nat, hi: nat)
    requires lo <= hi <= |s|
  {
    forall i :: lo <= i < hi ==> s[i] != BACKSLASH
  }

  /** Where `unquote` stands in the text `s`: `out` has been written, the scan
      has reached `pos`, and the `off` characters there are to be copied as they
      are. */
  ghost predicate Progress(s: string, out: string, pos: nat, off: nat) {
    && pos + off <= |s|
    && (WellEscaped(s) <==> WellEscaped(s[pos + off..]))
    && (WellEscaped(s) ==> Unescape(s) == out + s[pos..pos + off] + Unescape(s[pos + off..]))
  }

  /** `Unescape`, made total for use in proofs. */
  ghost function Unescape'(s: string): string {
    if WellEscaped(s) then Unescape(s) else []
  }

  lemma {:induction false} PlainPrefix(s: string, k: nat)
    requires k <= |s| && Plain(s, 0, k)
    ensures WellEscaped(s) <==> WellEscaped(s[k..])
    ensures WellEscaped(s) ==> Unescape(s) == s[..k] + Unescape(s[k..])
  {
    if k == 0 {
      assert s[0..] == s;
    } else {
      TailSlices(s, k);
      PlainPrefix(s[1..], k - 1);
      ConcatAssoc([s[0]], s[1..k], Unescape'(s[k..]));
    }
  }

  lemma ProgressStarts(s: string)
    ensures Progress(s, [], 0, 0)
  {
    assert s[0..] == s && s[0..0] == [];
    EmptyConcat(Unescape'(s));
  }

  /** Up to the next backslash everything is copied. */
  lemma UnquoteScan(s: string, out: string, pos: nat, off: nat, q: nat)
    requires Progress(s, out, pos, off)
    requires pos + off <= q <= |s| && Plain(s, pos + off, q)
    ensures Progress(s, out, pos, q - pos)
  {
    var t, k := s[pos + off..], q - pos - off;
    SliceSlice(s, pos + off, |s|, 0, k);
    SliceSlice(s, pos + off, |s|, k, |t|);
    PlainPrefix(t, k);
    SliceSplit(s, pos, pos + off, q);
    ConcatAssoc(out, s[pos..pos + off], s[pos + off..q]);
    ConcatAssoc(out + s[pos..pos + off], s[pos + off..q], Unescape'(s[q..]));
  }

  /** One escape. */
  lemma UnquoteStep(s: string, out: string, pos: nat, off: nat, q: nat)
    requires Progress(s, out, pos, off)
    requires pos + off <= q < |s| && Plain(s, pos + off, q) && s[q] == BACKSLASH
    requires q + 1 == |s| || Special(s[q + 1])
    ensures Progress(s, out + s[pos..q], q + 1, if q + 1 < |s| && s[q + 1] == BACKSLASH then 1 else 0)
  {
    UnquoteScan(s, out, pos, off, q);
    var out' := out + s[pos..q];
    assert s[q + 1..q + 1] == [];
    EmptyConcat(out');
    if q + 1 == |s| {
      assert s[q..] == [BACKSLASH] && s[q + 1..] == [];
    } else {
      HeadTail(s[q + 1..]);
      SliceSlice(s, q, |s|, 2, |s| - q);
      SliceSlice(s, q + 1, |s|, 1, |s| - q - 1);
      assert s[q + 1..q + 2] == [s[q + 1]];
      ConcatAssoc(out', [s[q + 1]], Unescape'(s[q + 2..]));
    }
  }

  lemma UnquoteSpins(s: string, out: string, pos: nat, off: nat, q: nat)
    requires Progress(s, out, pos, off)
    requires pos + off <= q && q + 1 < |s| && Plain(s, pos + off, q) && s[q] == BACKSLASH
    requires !Special(s[q + 1])
    ensures !WellEscaped(s)
  {
    UnquoteScan(s, out, pos, off, q);
  }

  lemma UnquoteDone(s: string, out: string, pos: nat, off: nat)
    requires Progress(s, out, pos, off) && Plain(s, pos + off, |s|)
    ensures WellEscaped(s) && Unescape(s) == out + s[pos..]
  {
    UnquoteScan(s, out, pos, off, |s|);
    assert s[|s|..] == [] && s[pos..|s|] == s[pos..];
    EmptyConcat(out + s[pos..]);
  }

  /** The buffer while `unquote` is at work on the text between `start` and
      `end`: output has been written up to `w`, everything from `line` on is as
      it was. */
  ghost predicate Unquoting(b: string, b0: string, start: nat, end: nat, w: nat, line: nat, off: nat) {
    && |b| == |b0| && start <= w <= line <= end < |b|
    && (forall i :: 0 <= i < start || line <= i < |b| ==> b[i] == b0[i])
    && Progress(b0[start..end], b[start..w], line - start, off)
  }

  lemma UnquotingStarts(b: string, start: nat, end: nat)
    requires start <= end < |b|
    ensures Unquoting(b, b, start, end, start, start, 0)
  {
    ProgressStarts(b[start..end]);
    assert b[start..start] == [];
  }

  /** What has been found in the buffer is there in the original text. */
  lemma UnquotingFound(b: string, b0: string, start: nat, end: nat, w: nat, line: nat, off: nat, lo: nat, p: nat)
    requires Unquoting(b, b0, start, end, w, line, off)
    requires line <= lo <= p <= end && forall i :: lo <= i < p ==> b[i] != BACKSLASH
    ensures Plain(b0[start..end], lo - start, p - start)
    ensures p < end ==> b0[start..end][p - start] == b[p]
    ensures p + 1 < end ==> b0[start..end][p + 1 - start] == b[p + 1]
    ensures p < end ==> b[end - 1] == b0[end - 1] && b[end] == b0[end]
  {
    var s := b0[start..end];
    forall i | lo - start <= i < p - start ensures s[i] != BACKSLASH {
      assert b[start + i] != BACKSLASH;
    }
  }

  /** What a move of the text in front of `line` leaves in the buffer. */
  lemma UnquotingMove(b: string, b0: string, start: nat, end: nat, w: nat, line: nat, off: nat, n: nat)
    requires Unquoting(b, b0, start, end, w, line, off) && line + n <= end
    ensures
      var b' := Moved(b, w, line, n);
      && b'[start..w + n] == b[start..w] + b0[start..end][line - start..line - start + n]
      && (forall i :: 0 <= i < start || line + n <= i < |b| ==> b'[i] == b0[i])
  {
    var b', piece := Moved(b, w, line, n), b0[start..end][line - start..line - start + n];
    SliceSlice(b0, start, end, line - start, line - start + n);
    assert start + (line - start) == line && start + (line - start + n) == line + n;
    SameSlice(b, b0, line, line + n);
    SliceSplit(b', start, w, w + n);
    SameSlice(b', b, start, w);
  }

  lemma UnquotingStep(b: string, b0: string, start: nat, end: nat, w: nat, line: nat, off: nat, p: nat)
    requires Unquoting(b, b0, start, end, w, line, off)
    requires line + off <= p < end && b[p] == BACKSLASH && (p + 1 == end || Special(b[p + 1]))
    requires forall i :: line + off <= i < p ==> b[i] != BACKSLASH
    ensures Unquoting(Moved(b, w, line, p - line), b0, start, end, w + (p - line), p + 1,
                      if p + 1 < end && b[p + 1] == BACKSLASH then 1 else 0)
  {
    hide Progress, Moved;
    UnquotingFound(b, b0, start, end, w, line, off, line + off, p);
    UnquoteStep(b0[start..end], b[start..w], line - start, off, p - start);
    UnquotingMove(b, b0, start, end, w, line, off, p - line);
    assert line - start + (p - line) == p - start;
  }

  lemma UnquotingSpins(b: string, b0: string, start: nat, end: nat, w: nat, line: nat, off: nat, p: nat)
    requires Unquoting(b, b0, start, end, w, line, off)
    requires line + off <= p && p + 1 < end && b[p] == BACKSLASH && !Special(b[p + 1])
    requires forall i :: line + off <= i < p ==> b[i] != BACKSLASH
    ensures !WellEscaped(b0[start..end])
  {
    UnquotingFound(b, b0, start, end, w, line, off, line + off, p);
    UnquoteSpins(b0[start..end], b[start..w], line - start, off, p - start);
  }

  lemma UnquotingEnds(b: string, b0: string, start: nat, end: nat, w: nat, line: nat, off: nat, n: nat)
    requires Unquoting(b, b0, start, end, w, line, off) && n == end - line && off <= n
    requires forall i :: line + off <= i < end ==> b[i] != BACKSLASH
    ensures WellEscaped(b0[start..end])
    ensures Moved(b, w, line, n)[start..w + n] == Unescape(b0[start..end])
    ensures forall i :: 0 <= i < start || end <= i < |b| ==> Moved(b, w, line, n)[i] == b0[i]
  {
    var s := b0[start..end];
    UnquotingFound(b, b0, start, end, w, line, off, line + off, end);
    UnquoteDone(s, b[start..w], line - start, off);
    UnquotingMove(b, b0, start, end, w, line, off, n);
    assert line - start + n == |s| && s[line - start..|s|] == s[line - start..];
  }

  lemma MovedInPlace(b: string, at: nat, n: nat)
    requires at + n <= |b|
    ensures Moved(b, at, at, n) == b
  {
    SliceSplit(b, 0, at, at + n);
    TakeDrop(b, at + n);
  }

  /** Bring the text between two escapes down to where it belongs; while `prev`
      is still NULL it is there already. */
  method Shift(b0: string, prev: Option<nat>, line: nat, n: nat) returns (b: string, w: nat)
    requires line + n <= |b0|
    requires prev.Some? ==> prev.value < line
    ensures b == Moved(b0, prev.GetOr(line), line, n) && w == prev.GetOr(line) + n
  {
    if prev.Some? {
      b, w := Moved(b0, prev.value, line, n), prev.value + n;
    } else {
      MovedInPlace(b0, line, n);
      b, w := b0, line + n;
    }
  }

  /** `unquote` on `size` characters from `start`.  `ok` is false where the loop
      of the source would go round for ever: at a backslash followed by neither
      a backslash nor a quote. */
  method Unquote(b0: string, start: nat, size: nat) returns (b: string, rlen: nat, ok: bool)
    requires start + size < |b0|
    requires size > 0 && b0[start + size - 1] == BACKSLASH ==> b0[start + size] == QUOTE
    ensures ok <==> WellEscaped(b0[start..start + size])
    ensures |b| == |b0|
    ensures ok ==> rlen <= size && b[start..start + rlen] == Unescape(b0[start..start + size])
    ensures ok ==> forall i :: 0 <= i < start || start + size <= i < |b| ==> b[i] == b0[i]
  {
    hide Unquoting, Moved;
    ghost var end := start + size;
    var line: nat, len: nat, off: nat := start, size, 0;
    var prev: Option<nat> := None;
    b, rlen := b0, size;
    UnquotingStarts(b0, start, end);
    while true
      invariant |b| == |b0| && start <= line && line + len == end && off <= len
      invariant prev.None? ==> line == start
      invariant prev.Some? ==> start <= prev.value < line
      invariant rlen == prev.GetOr(line) - start + len
      invariant Unquoting(b, b0, start, end, prev.GetOr(line), line, off)
      decreases len
    {
      var found := MemChr(b, BACKSLASH, line + off, line + len);
      if found.None? { break; }
      var p := found.value;
      UnquotingFound(b, b0, start, end, prev.GetOr(line), line, off, line + off, p);
      if b[p + 1] == BACKSLASH || b[p + 1] == QUOTE {
        UnquotingStep(b, b0, start, end, prev.GetOr(line), line, off, p);
        off := if b[p + 1] == BACKSLASH then 1 else 0;
        var w;
        b, w := Shift(b, prev, line, p - line);
        prev := Some(w);
        rlen := rlen - 1;
        len := len - (p - line + 1);
        line := p + 1;
      } else {
        UnquotingSpins(b, b0, start, end, prev.GetOr(line), line, off, p);
        return b, rlen, false;
      }
    }
    UnquotingEnds(b, b0, start, end, prev.GetOr(line), line, off, len);
    var w;
    b, w := Shift(b, prev, line, len);
    ok := true;
  }

  // ----- CRLF folding -----

  /** Folding goes on at `pos` after writing `out`. */
  ghost predicate Folding(s: string, out: string, pos: nat) {
    pos <= |s| && FoldCrlf(s) == out + FoldCrlf(s[pos..])
  }

  lemma FoldStarts(s: string)
    ensures Folding(s, [], 0)
  {
    assert s[0..] == s;
    EmptyConcat(FoldCrlf(s));
  }

  lemma FoldEnds(s: string, out: string)
    requires Folding(s, out, |s|)
    ensures FoldCrlf(s) == out
  {
    assert s[|s|..] == [];
    EmptyConcat(out);
  }

  lemma FoldStep(s: string, out: string, pos: nat)
    requires Folding(s, out, pos) && pos < |s|
    ensures s[pos] == CR && pos + 1 < |s| && s[pos + 1] == LF ==> Folding(s, out, pos + 1)
    ensures !(s[pos] == CR && pos + 1 < |s| && s[pos + 1] == LF) ==> Folding(s, out + [s[pos]], pos + 1)
  {
    HeadTail(s[pos..]);
    SliceSlice(s, pos, |s|, 1, |s| - pos);
    ConcatAssoc(out, [s[pos]], FoldCrlf(s[pos + 1..]));
  }

  /** `imap4d_tokbuf_decrlf`. */
  method Decrlf(b0: string, off: nat, size: nat) returns (b: string, len: nat)
    requires off + size <= |b0|
    ensures |b| == |b0|
    ensures len <= size && b[off..off + len] == FoldCrlf(b0[off..off + size])
    ensures forall i :: 0 <= i < off || off + size <= i < |b| ==> b[i] == b0[i]
  {
    hide Folding;
    ghost var s, out: string := b0[off..off + size], [];
    var buf, p, end := off, off, off + size;
    b, len := b0, size;
    FoldStarts(s);
    while p < end
      invariant |b| == |b0|
      invariant off <= buf <= p <= end && len == size - (p - buf) && |out| == buf - off
      invariant forall i :: 0 <= i < off || p <= i < |b| ==> b[i] == b0[i]
      invariant forall i :: 0 <= i < |out| ==> b[off + i] == out[i]
      invariant Folding(s, out, p - off)
    {
      FoldStep(s, out, p - off);
      if b[p] == CR && p + 1 < end && b[p + 1] == LF {
        p := p + 1;
        len := len - 1;
      } else {
        out := out + [b[p]];
        b := b[buf := b[p]];
        buf := buf + 1;
        p := p + 1;
      }
    }
    FoldEnds(s, out);
    assert b[off..off + len] == out;
  }
}
