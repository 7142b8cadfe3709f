/** Decimal numbers as the server prints and reads them. */
module Numbers {
  import opened Text

  const ULONG_MAX := 0xFFFF_FFFF_FFFF_FFFF
  const SIZE_MAX := ULONG_MAX

  function DigitChar(d: nat): (c: char)
    requires d < 10
    ensures IsDigit(c) && c as int - '0' as int == d
  {
    ('0' as int + d) as char
  }

  predicate AllDigits(s: string) {
    forall i :: 0 <= i < |s| ==> IsDigit(s[i])
  }

  /** What `%lu` prints. */
  function Dec(n: nat): (s: string)
    ensures s != [] && AllDigits(s)
  {
    if n < 10 then [DigitChar(n)] else Dec(n / 10) + [DigitChar(n % 10)]
  }

  function DecValue(s: string): nat
    requires AllDigits(s)
  {
    if s == [] then 0
    else DecValue(s[..|s| - 1]) * 10 + (s[|s| - 1] as int - '0' as int)
  }

  lemma {:induction false} DecRoundTrip(n: nat)
    ensures DecValue(Dec(n)) == n
  {
    if n >= 10 {
      DecRoundTrip(n / 10);
      var s := Dec(n);
      assert s[..|s| - 1] == Dec(n / 10);
    } else {
      assert Dec(n)[..0] == [];
    }
  }

  /** Length of the leading run of digits. */
  function DigitRun(s: string): (n: nat)
    ensures n <= |s| && AllDigits(s[..n])
    ensures n < |s| ==> !IsDigit(s[n])
  {
    if s == [] || !IsDigit(s[0]) then 0 else 1 + DigitRun(s[1..])
  }

  lemma {:induction false} DigitRunOf(d: string, rest: string)
    requires AllDigits(d)
    requires rest == [] || !IsDigit(rest[0])
    ensures DigitRun(d + rest) == |d|
  {
    if d == [] {
      assert d + rest == rest;
    } else {
      assert (d + rest)[1..] == d[1..] + rest;
      DigitRunOf(d[1..], rest);
    }
  }

  predicate IsSpace(c: char) {
    c == ' ' || '\t' <= c <= '\r'
  }

  function SpaceRun(s: string): (n: nat)
    ensures n <= |s|
  {
    if s == [] || !IsSpace(s[0]) then 0 else 1 + SpaceRun(s[1..])
  }

  /** The result of `strtoul (s, &end, 10)` and the distance of `end` from `s`. */
  datatype Strtoul = Strtoul(value: nat, length: nat)

  function ParseUlong(s: string): (r: Strtoul)
    ensures r.length <= |s| && r.value <= ULONG_MAX
  {
    var i := SpaceRun(s);
    var signed := i < |s| && (s[i] == '+' || s[i] == '-');
    var start := if signed then i + 1 else i;
    var d := DigitRun(s[start..]);
    if d == 0 then Strtoul(0, 0)
    else
      var v := DecValue(s[start..][..d]);
      Strtoul(
        if v > ULONG_MAX then ULONG_MAX
        else if signed && s[i] == '-' && v > 0 then ULONG_MAX + 1 - v
        else v,
        start + d)
  }

  /** A printed number reads back, whatever non-digit follows it. */
  lemma UlongRoundTrip(n: nat, rest: string)
    requires n <= ULONG_MAX
    requires rest == [] || !IsDigit(rest[0])
    ensures ParseUlong(Dec(n) + rest) == Strtoul(n, |Dec(n)|)
  {
    var d := Dec(n);
    var s := d + rest;
    assert s[0] == d[0];
    assert SpaceRun(s) == 0;
    DigitRunOf(d, rest);
    assert s[0..] == s;
    assert s[..|d|] == d;
    DecRoundTrip(n);
  }
}
