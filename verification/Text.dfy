/** Character and string helpers shared by the whole model: C strings as
    `seq<char>`, ASCII case folding, decimal numbers and `strtoul`. */
module Text {

  datatype Option<+T> = None | Some(value: T) {
    function GetOr(default: T): T {
      match this
      case None => default
      case Some(v) => v
    }
  }

  const NUL: char := '\0'
  const CR: char := '\r'
  const LF: char := '\n'
  const QUOTE: char := '\"'
  const BACKSLASH: char := '\\'

  function UpperChar(c: char): char {
    if 'a' <= c <= 'z' then (c as int - 32) as char else c
  }

  function Upper(s: string): (u: string)
    ensures |u| == |s|
    ensures forall i :: 0 <= i < |s| ==> u[i] == UpperChar(s[i])
  {
    seq(|s|, i requires 0 <= i < |s| => UpperChar(s[i]))
  }

  /** What `mu_c_strcasecmp (a, b) == 0` tests. */
  predicate CaseEq(a: string, b: string) {
    Upper(a) == Upper(b)
  }

  predicate IsBlank(c: char) {
    c == ' ' || c == '\t'
  }

  predicate IsDigit(c: char) {
    '0' <= c <= '9'
  }

  // ----- sequences -----

  lemma EmptyConcat<T>(s: seq<T>)
    ensures [] + s == s && s + [] == s
  {
  }

  lemma HeadTail<T>(s: seq<T>)
    requires s != []
    ensures s == [s[0]] + s[1..]
  {
  }

  lemma ConsDrop<T>(x: T, s: seq<T>)
    ensures ([x] + s)[0] == x
    ensures ([x] + s)[1..] == s
  {
  }

  lemma ConcatAssoc<T>(a: seq<T>, b: seq<T>, c: seq<T>)
    ensures a + (b + c) == a + b + c
  {
  }

  lemma TailSlices<T>(s: seq<T>, k: nat)
    requires 1 <= k <= |s|
    ensures s[1..][..k - 1] == s[1..k]
    ensures s[1..][k - 1..] == s[k..]
    ensures s[..k] == [s[0]] + s[1..k]
  {
    assert forall i :: 0 <= i < k ==> s[..k][i] == ([s[0]] + s[1..k])[i];
  }

  /** Slices of a slice. */
  lemma SliceSlice<T>(s: seq<T>, lo: nat, hi: nat, i: nat, j: nat)
    requires lo <= hi <= |s| && i <= j <= hi - lo
    ensures s[lo..hi][i..j] == s[lo + i..lo + j]
  {
    var a, b := s[lo..hi][i..j], s[lo + i..lo + j];
    assert forall k :: 0 <= k < |a| ==> a[k] == b[k];
  }

  lemma SameSlice<T>(a: seq<T>, b: seq<T>, lo: nat, hi: nat)
    requires lo <= hi <= |a| && hi <= |b|
    requires forall i :: lo <= i < hi ==> a[i] == b[i]
    ensures a[lo..hi] == b[lo..hi]
  {
  }

  lemma SliceSplit<T>(s: seq<T>, lo: nat, mid: nat, hi: nat)
    requires lo <= mid <= hi <= |s|
    ensures s[lo..hi] == s[lo..mid] + s[mid..hi]
  {
  }

  lemma TakeDrop<T>(s: seq<T>, n: nat)
    requires n <= |s|
    ensures s == s[..n] + s[n..]
  {
  }
}
