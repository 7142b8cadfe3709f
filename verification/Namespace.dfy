/** Mailbox names and file names: the table of namespace prefixes, the translation
    of a name by its longest prefix, and the names LIST reports. */
module Namespace {
  import opened Text

  datatype Kind = Personal | Other | Shared

  /** `struct namespace_prefix`. */
  datatype Prefix = Prefix(prefix: string, delim: char, dir: string, ns: Kind)

  const SLASH: char := '/'

  // ----- strings -----

  /** `translate_delim`. */
  function Translated(s: string, dst: char, src: char): (r: string)
    ensures |r| == |s|
    ensures forall i :: 0 <= i < |s| ==> r[i] == (if s[i] == src then dst else s[i])
  {
    seq(|s|, i requires 0 <= i < |s| => if s[i] == src then dst else s[i])
  }

  method TranslateDelim(s: string, dst: char, src: char) returns (r: string)
    ensures r == Translated(s, dst, src)
  {
    r := [];
    var i := 0;
    while i < |s|
      invariant 0 <= i <= |s| && |r| == i
      invariant forall k :: 0 <= k < i ==> r[k] == (if s[k] == src then dst else s[k])
    {
      r := r + [if s[i] == src then dst else s[i]];
      i := i + 1;
    }
  }

  /** `trim_delim`: slashes at the end go. */
  function Trim(s: string): (r: string)
    ensures r == [] || r[|r| - 1] != SLASH
  {
    if s != [] && s[|s| - 1] == SLASH then Trim(s[..|s| - 1]) else s
  }

  function Slashes(n: nat): (s: string)
    ensures |s| == n && forall i :: 0 <= i < n ==> s[i] == SLASH
  {
    seq(n, _ => SLASH)
  }

  /** A string is its trimmed form and the slashes behind it. */
  lemma {:induction false} TrimSplits(s: string)
    ensures |Trim(s)| <= |s| && s == Trim(s) + Slashes(|s| - |Trim(s)|)
    ensures s != [] && s[|s| - 1] == SLASH ==> |Trim(s)| < |s|
    decreases |s|
  {
    if s != [] && s[|s| - 1] == SLASH {
      var t := s[..|s| - 1];
      TrimSplits(t);
      assert s == t + [SLASH];
      assert Slashes(|t| - |Trim(t)|) + [SLASH] == Slashes(|s| - |Trim(s)|);
      ConcatAssoc(Trim(t), Slashes(|t| - |Trim(t)|), [SLASH]);
    } else {
      assert Slashes(0) == [];
      EmptyConcat(s);
    }
  }

  // ----- the table -----

  predicate Matches(p: Prefix, name: string) {
    |p.prefix| <= |name| && name[..|p.prefix|] == p.prefix
  }

  /** Longer prefixes come first. */
  predicate Sorted(ps: seq<Prefix>) {
    forall i, j :: 0 <= i < j < |ps| ==> |ps[i].prefix| >= |ps[j].prefix|
  }

  predicate Distinct(ps: seq<Prefix>) {
    forall i, j :: 0 <= i < j < |ps| ==> ps[i].prefix != ps[j].prefix
  }

  predicate HasEmpty(ps: seq<Prefix>) {
    exists i :: 0 <= i < |ps| && ps[i].prefix == []
  }

  predicate EmptyIsPersonal(ps: seq<Prefix>) {
    forall i :: 0 <= i < |ps| && ps[i].prefix == [] ==> ps[i].ns == Personal
  }

  /** What `namespace_init` leaves behind. */
  predicate Ready(ps: seq<Prefix>) {
    Sorted(ps) && Distinct(ps) && HasEmpty(ps) && EmptyIsPersonal(ps)
  }

  /** One prefix put in its place among sorted ones. */
  function Insert(p: Prefix, ps: seq<Prefix>): (r: seq<Prefix>)
    ensures multiset(r) == multiset(ps) + multiset{p}
  {
    if ps == [] then [p]
    else if |p.prefix| >= |ps[0].prefix| then [p] + ps
    else
      assert ps == [ps[0]] + ps[1..];
      [ps[0]] + Insert(p, ps[1..])
  }

  function SortByLength(ps: seq<Prefix>): (r: seq<Prefix>)
    ensures multiset(r) == multiset(ps)
  {
    if ps == [] then []
    else
      assert ps == [ps[0]] + ps[1..];
      Insert(ps[0], SortByLength(ps[1..]))
  }

  lemma {:induction false} InsertSorted(p: Prefix, ps: seq<Prefix>)
    requires Sorted(ps)
    ensures Sorted(Insert(p, ps))
  {
    if ps != [] && |p.prefix| < |ps[0].prefix| {
      var rest := Insert(p, ps[1..]);
      InsertSorted(p, ps[1..]);
      forall j | 0 <= j < |rest| ensures |ps[0].prefix| >= |rest[j].prefix| {
        assert rest[j] in multiset(rest);
        assert rest[j] in multiset(ps[1..]) + multiset{p};
        if rest[j] != p {
          var k :| 0 <= k < |ps[1..]| && ps[1..][k] == rest[j];
          assert ps[k + 1] == rest[j];
        }
      }
    }
  }

  lemma {:induction false} SortSorted(ps: seq<Prefix>)
    ensures Sorted(SortByLength(ps))
  {
    if ps != [] {
      SortSorted(ps[1..]);
      InsertSorted(ps[0], SortByLength(ps[1..]));
    }
  }

  const HOME: string := "$home"

  function TrimDirs(ps: seq<Prefix>): (r: seq<Prefix>)
    ensures |r| == |ps| && forall i :: 0 <= i < |ps| ==> r[i] == ps[i].(dir := Trim(ps[i].dir))
  {
    seq(|ps|, i requires 0 <= i < |ps| => ps[i].(dir := Trim(ps[i].dir)))
  }

  /** `namespace_init`: a prefix given twice, or an empty one that is not personal, is
      an error; an empty personal prefix is added if there is none. */
  function Init(given: seq<Prefix>): Option<seq<Prefix>> {
    if !Distinct(given) then None
    else if !EmptyIsPersonal(given) then None
    else if HasEmpty(given) then Some(SortByLength(TrimDirs(given)))
    else Some(SortByLength([Prefix([], SLASH, HOME, Personal)] + TrimDirs(given)))
  }

  lemma SortKeepsDistinct(ps: seq<Prefix>)
    requires Distinct(ps)
    ensures Distinct(SortByLength(ps))
  {
    var r := SortByLength(ps);
    forall i, j | 0 <= i < j < |r| ensures r[i].prefix != r[j].prefix {
      if r[i].prefix == r[j].prefix {
        assert r[i] in multiset(ps) && r[j] in multiset(ps);
        var a :| 0 <= a < |ps| && ps[a] == r[i];
        var b :| 0 <= b < |ps| && ps[b] == r[j];
        assert a == b;
        OneCopy(ps, a);
        TwoCopies(r, i, j);
        assert false;
      }
    }
  }

  lemma {:induction false} OneCopy(ps: seq<Prefix>, a: nat)
    requires Distinct(ps) && a < |ps|
    ensures multiset(ps)[ps[a]] == 1
    decreases |ps|
  {
    var last := |ps| - 1;
    var front := ps[..last];
    assert ps == front + [ps[last]];
    assert Distinct(front);
    if a < last {
      OneCopy(front, a);
      assert front[a] == ps[a] && ps[a] != ps[last];
    } else {
      assert ps[last] !in front;
    }
  }

  lemma TwoCopies(r: seq<Prefix>, i: nat, j: nat)
    requires i < j < |r| && r[i] == r[j]
    ensures multiset(r)[r[i]] >= 2
  {
    assert r == r[..j] + [r[j]] + r[j + 1..];
    assert r[i] in r[..j];
  }

  lemma SortKeepsEmpty(ps: seq<Prefix>)
    requires HasEmpty(ps)
    ensures HasEmpty(SortByLength(ps))
  {
    var i :| 0 <= i < |ps| && ps[i].prefix == [];
    assert ps[i] in multiset(SortByLength(ps));
  }

  lemma SortKeepsPersonal(ps: seq<Prefix>)
    requires EmptyIsPersonal(ps)
    ensures EmptyIsPersonal(SortByLength(ps))
  {
    var r := SortByLength(ps);
    forall i | 0 <= i < |r| && r[i].prefix == [] ensures r[i].ns == Personal {
      assert r[i] in multiset(ps);
      var k :| 0 <= k < |ps| && ps[k] == r[i];
    }
  }

  lemma TrimKeepsPrefixes(ps: seq<Prefix>)
    ensures Distinct(ps) ==> Distinct(TrimDirs(ps))
    ensures EmptyIsPersonal(ps) ==> EmptyIsPersonal(TrimDirs(ps))
    ensures HasEmpty(ps) <==> HasEmpty(TrimDirs(ps))
  {
    var r := TrimDirs(ps);
    forall i | 0 <= i < |ps| ensures r[i].prefix == ps[i].prefix { }
    if HasEmpty(ps) {
      var i :| 0 <= i < |ps| && ps[i].prefix == [];
      assert r[i].prefix == [];
    }
    if HasEmpty(r) {
      var i :| 0 <= i < |r| && r[i].prefix == [];
      assert ps[i].prefix == [];
    }
  }

  lemma WithDefault(ps: seq<Prefix>, p: Prefix)
    requires Distinct(ps) && !HasEmpty(ps) && p.prefix == [] && p.ns == Personal
    ensures Distinct([p] + ps) && HasEmpty([p] + ps) && EmptyIsPersonal([p] + ps)
  {
    var r := [p] + ps;
    assert r[0].prefix == [];
    forall i, j | 0 <= i < j < |r| ensures r[i].prefix != r[j].prefix {
      assert r[j] == ps[j - 1];
      if i > 0 { assert r[i] == ps[i - 1]; }
    }
  }

  /** Whatever the configuration, a table that is accepted is ready for use. */
  lemma InitIsReady(given: seq<Prefix>)
    ensures Init(given).Some? ==> Ready(Init(given).value)
  {
    hide Distinct, HasEmpty, Sorted, SortByLength, TrimDirs, EmptyIsPersonal;
    var trimmed, home := TrimDirs(given), Prefix([], SLASH, HOME, Personal);
    if Init(given).Some? {
      TrimKeepsPrefixes(given);
      if !HasEmpty(given) { WithDefault(trimmed, home); }
      var ps := if HasEmpty(given) then trimmed else [home] + trimmed;
      SortSorted(ps);
      SortKeepsDistinct(ps);
      SortKeepsEmpty(ps);
      SortKeepsPersonal(ps);
    }
  }

  // ----- translation -----

  /** The loop of `translate_name`: the first prefix that matches. */
  function Choose(ps: seq<Prefix>, name: string): (r: Option<Prefix>)
    ensures r.Some? ==> Matches(r.value, name)
  {
    if ps == [] then None else if Matches(ps[0], name) then Some(ps[0]) else Choose(ps[1..], name)
  }

  method FindPrefix(ps: seq<Prefix>, name: string) returns (r: Option<Prefix>)
    ensures r == Choose(ps, name)
  {
    var i := 0;
    assert ps[0..] == ps;
    while i < |ps|
      invariant 0 <= i <= |ps| && Choose(ps, name) == Choose(ps[i..], name)
    {
      assert ps[i..][0] == ps[i] && ps[i..][1..] == ps[i + 1..];
      if |ps[i].prefix| <= |name| && name[..|ps[i].prefix|] == ps[i].prefix { return Some(ps[i]); }
      i := i + 1;
    }
    r := None;
  }

  lemma {:induction false} ChooseIsFirst(ps: seq<Prefix>, name: string) returns (k: nat)
    requires exists i :: 0 <= i < |ps| && Matches(ps[i], name)
    ensures k < |ps| && Choose(ps, name) == Some(ps[k]) && Matches(ps[k], name)
    ensures forall i :: 0 <= i < k ==> !Matches(ps[i], name)
    decreases |ps|
  {
    if Matches(ps[0], name) {
      k := 0;
    } else {
      var i :| 0 <= i < |ps| && Matches(ps[i], name);
      assert ps[1..][i - 1] == ps[i];
      k := ChooseIsFirst(ps[1..], name);
      forall j | 0 <= j < k + 1 ensures !Matches(ps[j], name) {
        if j > 0 { assert ps[1..][j - 1] == ps[j]; }
      }
      k := k + 1;
    }
  }

  /** Translation always finds a prefix, and it is the longest one that matches: every
      other prefix that matches is strictly shorter. */
  lemma LongestPrefixWins(ps: seq<Prefix>, name: string)
    requires Ready(ps)
    ensures Choose(ps, name).Some? && Choose(ps, name).value in ps && Matches(Choose(ps, name).value, name)
    ensures forall p :: p in ps && Matches(p, name) && p != Choose(ps, name).value ==>
      |p.prefix| < |Choose(ps, name).value.prefix|
  {
    var e :| 0 <= e < |ps| && ps[e].prefix == [];
    assert Matches(ps[e], name);
    var k := ChooseIsFirst(ps, name);
    forall p | p in ps && Matches(p, name) && p != ps[k] ensures |p.prefix| < |ps[k].prefix| {
      var j :| 0 <= j < |ps| && ps[j] == p;
      assert j > k;
      if |p.prefix| == |ps[k].prefix| {
        assert p.prefix == ps[k].prefix;
      }
    }
  }

  // ----- names and paths -----

  /** The special name of the personal namespace. */
  predicate IsInbox(p: Prefix, name: string) {
    p.ns == Personal && p.prefix == [] && CaseEq(name, "INBOX")
  }

  /** A string up to a delimiter, and from there on. */
  function UpTo(delim: char, s: string): string {
    if s == [] || s[0] == delim then [] else [s[0]] + UpTo(delim, s[1..])
  }

  function From(delim: char, s: string): string {
    if s == [] || s[0] == delim then s else From(delim, s[1..])
  }

  /** The prefixes behind which the search for the end of the user's name starts one
      character late. */
  predicate SkipsOne(p: Prefix) {
    p.prefix != [] && p.prefix[|p.prefix| - 1] == p.delim
  }

  /** In the Other Users namespace the user's name is not part of the path. */
  function WithoutUser(p: Prefix, rest: string): string
    requires rest != []
  {
    From(p.delim, if SkipsOne(p) then rest[1..] else rest)
  }

  /** `extract_username`: the user whose directory is meant; nothing stands for the
      user who is logged in. */
  function Owner(p: Prefix, name: string): string
    requires Matches(p, name)
  {
    if p.ns == Other then UpTo(p.delim, name[|p.prefix|..]) else []
  }

  /** The directory of a prefix and the rest of a name, with slashes for delimiters. */
  function Joined(p: Prefix, rest: string): string {
    if rest == [] then p.dir
    else if p.ns == Other then p.dir + Translated(WithoutUser(p, rest), SLASH, p.delim)
    else p.dir + ((if rest[0] != p.delim then [SLASH] else []) + Translated(rest, SLASH, p.delim))
  }

  /** `prefix_translate_name` and the trimming after it; `mailbox` is the user's own. */
  function Path(p: Prefix, name: string, mailbox: string): string
    requires Matches(p, name)
  {
    Trim(if IsInbox(p, name) then mailbox else Joined(p, name[|p.prefix|..]))
  }

  /** `namespace_translate_name`, the expansion of variables apart. */
  function Translate(ps: seq<Prefix>, name: string, mailbox: string): Option<string> {
    match Choose(ps, name)
    case None => None
    case Some(p) => Some(Path(p, name, mailbox))
  }

  // ----- LIST -----

  /** The delimiter choice in `list_ref`. */
  predicate InsertsDelim(p: Prefix, ref: string) {
    ref != [] && ref[|ref| - 1] != p.delim && ref != p.prefix
  }

  predicate Skipped(p: Prefix, ref: string, name: string, sep: char) {
    || (ref == [] && CaseEq(name, "INBOX"))
    || (p.delim != sep && p.delim in name)
  }

  /** The name `list_fun` reports for a file under the reference. */
  function Listed(p: Prefix, ref: string, name: string, sep: char): string {
    ref + ((if InsertsDelim(p, ref) then [p.delim] else []) + Translated(name, p.delim, sep))
  }

  method ListFun(p: Prefix, ref: string, name: string, sep: char) returns (r: Option<string>)
    ensures r.None? <==> Skipped(p, ref, name, sep)
    ensures r.Some? ==> r.value == Listed(p, ref, name, sep)
  {
    if |ref| == 0 && CaseEq(name, "INBOX") { return None; }
    if p.delim != sep && p.delim in name { return None; }
    var buf := ref;
    if |ref| > 0 && ref[|ref| - 1] != p.delim && ref != p.prefix { buf := buf + [p.delim]; }
    var rest := TranslateDelim(name, p.delim, sep);
    buf := buf + rest;
    if InsertsDelim(p, ref) {
      ConcatAssoc(ref, [p.delim], rest);
    } else {
      EmptyConcat(rest);
    }
    r := Some(buf);
  }

  /** Translating there and back. */
  lemma ThereAndBack(name: string, delim: char, sep: char)
    requires delim == sep || delim !in name
    ensures Translated(Translated(name, delim, sep), SLASH, delim) == Translated(name, SLASH, sep)
  {
    var e := Translated(name, delim, sep);
    var d, leaf := Translated(e, SLASH, delim), Translated(name, SLASH, sep);
    forall i | 0 <= i < |name| ensures d[i] == leaf[i] {
      if name[i] != sep { assert name[i] in name; }
    }
  }

  lemma TranslatedConcat(a: string, b: string, dst: char, src: char)
    ensures Translated(a + b, dst, src) == Translated(a, dst, src) + Translated(b, dst, src)
  {
    var x, y := Translated(a + b, dst, src), Translated(a, dst, src) + Translated(b, dst, src);
    forall i | 0 <= i < |x| ensures x[i] == y[i] {
      assert (a + b)[i] == (if i < |a| then a[i] else b[i - |a|]);
    }
  }

  lemma TrimNothing(s: string)
    requires s != [] && s[|s| - 1] != SLASH
    ensures Trim(s) == s
  {
  }

  lemma TrimOne(s: string)
    ensures Trim(s + [SLASH]) == Trim(s)
  {
    assert (s + [SLASH])[..|s|] == s;
  }

  lemma SplitAt(a: string, b: string)
    ensures (a + b)[..|a|] == a && (a + b)[|a|..] == b
  {
  }

  /** A file name below a directory. */
  predicate IsLeaf(leaf: string) {
    leaf != [] && leaf[0] != SLASH && leaf[|leaf| - 1] != SLASH
  }

  /** What a listed name is joined to: the reference's directory and one slash more,
      or the reference's own last slash. */
  function Stem(p: Prefix, ref: string): string
    requires Matches(p, ref)
  {
    var x := Joined(p, ref[|p.prefix|..]);
    if ref == p.prefix || InsertsDelim(p, ref) then x + [SLASH] else x
  }

  /** References to the Other Users namespace that name no user: the prefix itself,
      and one delimiter behind a prefix that ends in one. */
  predicate NamesNoUser(p: Prefix, ref: string) {
    p.ns == Other && (ref == p.prefix || (SkipsOne(p) && ref == p.prefix + [p.delim]))
  }

  lemma {:induction false} FromConcat(delim: char, s: string, t: string)
    requires From(delim, s) != [] || (t != [] && t[0] == delim)
    ensures From(delim, s + t) == From(delim, s) + t
  {
    if s == [] {
      assert s + t == t;
    } else if s[0] != delim {
      FromConcat(delim, s[1..], t);
      assert (s + t)[1..] == s[1..] + t;
    }
  }

  lemma {:induction false} UpToConcat(delim: char, s: string, t: string)
    requires delim in s || (t != [] && t[0] == delim)
    ensures UpTo(delim, s + t) == UpTo(delim, s)
  {
    if s == [] {
      assert s + t == t;
    } else if s[0] != delim {
      UpToConcat(delim, s[1..], t);
      assert (s + t)[1..] == s[1..] + t;
    }
  }

  lemma {:induction false} FromEnd(delim: char, s: string)
    requires s != [] && s[|s| - 1] == delim
    ensures From(delim, s) != [] && From(delim, s)[|From(delim, s)| - 1] == delim
  {
    if s[0] != delim { FromEnd(delim, s[1..]); }
  }

  /** Where a reference ends in a delimiter, so does its path. */
  lemma UserEnds(p: Prefix, r: string)
    requires p.ns == Other && r != [] && r[|r| - 1] == p.delim && !(SkipsOne(p) && r == [p.delim])
    ensures var t := WithoutUser(p, r); t != [] && t[|t| - 1] == p.delim
  {
    var u := if SkipsOne(p) then r[1..] else r;
    assert |r| == 1 ==> r == [r[0]];
    FromEnd(p.delim, u);
  }

  lemma UserKept(p: Prefix, r: string, t: string)
    requires p.ns == Other && r != [] && t != []
    requires t[0] == p.delim || (r[|r| - 1] == p.delim && !(SkipsOne(p) && r == [p.delim]))
    ensures WithoutUser(p, r + t) == WithoutUser(p, r) + t && UpTo(p.delim, r + t) == UpTo(p.delim, r)
  {
    if t[0] != p.delim { UserEnds(p, r); }
    assert (r + t)[1..] == r[1..] + t;
    FromConcat(p.delim, if SkipsOne(p) then r[1..] else r, t);
    UpToConcat(p.delim, r, t);
  }

  lemma TranslatedEnd(s: string, delim: char)
    requires s != [] && s[|s| - 1] == delim
    ensures Translated(s, SLASH, delim) != [] && Translated(s, SLASH, delim)[|s| - 1] == SLASH
  {
  }

  lemma JoinedEnds(p: Prefix, r: string)
    requires r != [] && r[|r| - 1] == p.delim && !(p.ns == Other && SkipsOne(p) && r == [p.delim])
    ensures var x := Joined(p, r); x != [] && x[|x| - 1] == SLASH
  {
    hide WithoutUser, Translated;
    if p.ns == Other {
      UserEnds(p, r);
      TranslatedEnd(WithoutUser(p, r), p.delim);
    } else {
      TranslatedEnd(r, p.delim);
    }
  }

  lemma StemEndsInSlash(p: Prefix, ref: string)
    requires Matches(p, ref) && !NamesNoUser(p, ref)
    ensures Stem(p, ref) != [] && Stem(p, ref)[|Stem(p, ref)| - 1] == SLASH
    ensures Trim(Stem(p, ref)) == Trim(Joined(p, ref[|p.prefix|..]))
  {
    hide Joined, Trim;
    var r := ref[|p.prefix|..];
    assert ref == p.prefix + r;
    TrimOne(Joined(p, r));
    if ref != p.prefix && !InsertsDelim(p, ref) {
      assert r != [] && r[|r| - 1] == ref[|ref| - 1] == p.delim;
      JoinedEnds(p, r);
    }
  }

  lemma ListedJoins(p: Prefix, ref: string, name: string, sep: char)
    requires Matches(p, ref) && !Skipped(p, ref, name, sep) && IsLeaf(Translated(name, SLASH, sep))
    requires !NamesNoUser(p, ref)
    ensures var n := Listed(p, ref, name, sep);
      && Matches(p, n) && Owner(p, n) == Owner(p, ref)
      && Joined(p, n[|p.prefix|..]) == Stem(p, ref) + Translated(name, SLASH, sep)
  {
    var e, leaf := Translated(name, p.delim, sep), Translated(name, SLASH, sep);
    var n, r := Listed(p, ref, name, sep), ref[|p.prefix|..];
    assert ref == p.prefix + r;
    ThereAndBack(name, p.delim, sep);
    var d: string := if InsertsDelim(p, ref) then [p.delim] else [];
    ConcatAssoc(p.prefix, r, d + e);
    SplitAt(p.prefix, r + (d + e));
    if r == [] {
      EmptyConcat(e);
      assert ref == p.prefix && d == [];
      assert name[0] != sep && e[0] != p.delim;
      ConcatAssoc(p.dir, [SLASH], leaf);
    } else {
      if d == [] { assert r[|r| - 1] == ref[|ref| - 1]; }
      JoinedMore(p, r, d, e, leaf);
    }
  }

  lemma JoinedMore(p: Prefix, r: string, d: string, e: string, leaf: string)
    requires r != [] && e != [] && (d == [] || d == [p.delim]) && Translated(e, SLASH, p.delim) == leaf
    requires p.ns == Other ==> d != [] || (r[|r| - 1] == p.delim && !(SkipsOne(p) && r == [p.delim]))
    ensures Joined(p, r + (d + e)) == Joined(p, r) + (if d == [] then leaf else [SLASH] + leaf)
    ensures p.ns == Other ==> UpTo(p.delim, r + (d + e)) == UpTo(p.delim, r)
  {
    var x: string := if p.ns == Other then WithoutUser(p, r) else r;
    var j: string := if p.ns != Other && r[0] != p.delim then [SLASH] else [];
    if p.ns == Other {
      UserKept(p, r, d + e);
      EmptyConcat(Translated(x, SLASH, p.delim));
    }
    var y := if d == [] then leaf else [SLASH] + leaf;
    TranslatedMore(x, d, e, p.delim);
    ConcatAssoc(j, Translated(x, SLASH, p.delim), y);
    ConcatAssoc(p.dir, j + Translated(x, SLASH, p.delim), y);
  }

  lemma TranslatedMore(x: string, d: string, e: string, delim: char)
    requires d == [] || d == [delim]
    ensures Translated(x + (d + e), SLASH, delim) == Translated(x, SLASH, delim)
      + (if d == [] then Translated(e, SLASH, delim) else [SLASH] + Translated(e, SLASH, delim))
  {
    TranslatedConcat(x, d + e, SLASH, delim);
    TranslatedConcat(d, e, SLASH, delim);
    if d == [] { EmptyConcat(e); } else { assert Translated(d, SLASH, delim) == [SLASH]; }
  }

  /** A reported name means the file listed: the same user's, in the directory of the
      reference, with at least one slash between. */
  ghost predicate MapsBack(ps: seq<Prefix>, ref: string, name: string, sep: char, mailbox: string)
    requires Ready(ps)
  {
    var p := Chosen(ps, ref);
    var n := Listed(p, ref, name, sep);
    && Matches(p, n) && Owner(p, n) == Owner(p, ref)
    && (exists k: nat ::
          k >= 1 && Translate(ps, n, mailbox) == Some(Path(p, ref, mailbox) + Slashes(k) + Translated(name, SLASH, sep)))
  }

  /** For every table, every reference that is not INBOX itself and every file that is
      listed: as long as the reported name keeps the prefix of the reference, it
      translates to that file in the reference's directory.  `k` slashes come
      between, one unless the reference ends in several. */
  lemma ListedNamesMapBack(ps: seq<Prefix>, ref: string, name: string, sep: char, mailbox: string) returns (k: nat)
    requires Ready(ps)
    requires var p := Chosen(ps, ref);
      && !IsInbox(p, ref) && !Skipped(p, ref, name, sep) && IsLeaf(Translated(name, SLASH, sep))
      && Choose(ps, Listed(p, ref, name, sep)) == Some(p) && !IsInbox(p, Listed(p, ref, name, sep))
      && !NamesNoUser(p, ref)
    ensures k >= 1 && k == |Stem(Chosen(ps, ref), ref)| - |Path(Chosen(ps, ref), ref, mailbox)|
    ensures Translate(ps, Listed(Chosen(ps, ref), ref, name, sep), mailbox)
      == Some(Path(Chosen(ps, ref), ref, mailbox) + Slashes(k) + Translated(name, SLASH, sep))
    ensures Owner(Chosen(ps, ref), Listed(Chosen(ps, ref), ref, name, sep)) == Owner(Chosen(ps, ref), ref)
  {
    hide Trim, Stem, Joined, Listed, Owner;
    var p := Chosen(ps, ref);
    var leaf, stem := Translated(name, SLASH, sep), Stem(p, ref);
    ListedJoins(p, ref, name, sep);
    StemEndsInSlash(p, ref);
    TrimSplits(stem);
    TrimNothing(stem + leaf);
    k := |stem| - |Trim(stem)|;
  }

  lemma {:induction false} FromIsShorter(delim: char, s: string)
    requires s != [] && s[0] != delim
    ensures |From(delim, s)| < |s| && From(delim, s) == s[|s| - |From(delim, s)|..]
  {
    if |s| > 1 && s[1] != delim { FromIsShorter(delim, s[1..]); }
  }

  /** A directory and less than the file's name is never the directory, slashes and
      the whole name. */
  lemma TooShort(dir: string, t: string, leaf: string, k: nat)
    requires IsLeaf(leaf) && k >= 1 && |t| < |leaf| && (t != [] ==> t[|t| - 1] != SLASH)
    ensures Trim(dir + t) != Trim(dir) + Slashes(k) + leaf
  {
    hide Trim;
    TrimSplits(dir);
    var j, x := |dir| - |Trim(dir)|, Trim(dir) + Slashes(k) + leaf;
    if t == [] {
      EmptyConcat(dir);
    } else {
      TrimNothing(dir + t);
      if k < j {
        var i := |Trim(dir)| + k;
        assert (dir + t)[i] == dir[i] == Slashes(j)[k];
        assert x[i] == leaf[0];
      } else {
        assert |x| > |dir + t|;
      }
    }
  }

  /** Below a reference that names no user the part of the listed name that stands
      where a user's name is expected is taken for one. */
  lemma NoUserIsLost(p: Prefix, ref: string, name: string, sep: char, k: nat)
    requires Matches(p, ref) && NamesNoUser(p, ref) && p.prefix != [] && k >= 1
    requires !Skipped(p, ref, name, sep) && IsLeaf(Translated(name, SLASH, sep))
    ensures var n := Listed(p, ref, name, sep); var leaf := Translated(name, SLASH, sep);
      Matches(p, n) && Trim(Joined(p, n[|p.prefix|..])) != Trim(Joined(p, ref[|p.prefix|..])) + Slashes(k) + leaf
  {
    var e, leaf, r := Translated(name, p.delim, sep), Translated(name, SLASH, sep), ref[|p.prefix|..];
    assert p.ns == Other && (p.delim == sep || p.delim !in name);
    hide *;
    NoUserListed(p, ref, name, sep);
    LeafStarts(name, p.delim, sep);
    NoUserShort(p, r, e, leaf, k);
  }

  lemma LeafStarts(name: string, delim: char, sep: char)
    requires (delim == sep || delim !in name) && IsLeaf(Translated(name, SLASH, sep))
    ensures var e := Translated(name, delim, sep);
      e != [] && e[0] != delim && Translated(e, SLASH, delim) == Translated(name, SLASH, sep)
  {
    ThereAndBack(name, delim, sep);
    assert name[0] != sep;
  }

  lemma NoUserShort(p: Prefix, r: string, e: string, leaf: string, k: nat)
    requires p.ns == Other && e != [] && e[0] != p.delim && (r == [] || (SkipsOne(p) && r == [p.delim])) && k >= 1
    requires leaf == Translated(e, SLASH, p.delim) && IsLeaf(leaf)
    ensures Trim(Joined(p, r + e)) != Trim(Joined(p, r)) + Slashes(k) + leaf
  {
    hide Trim, Joined, From, IsLeaf, SkipsOne;
    var u := NoUserJoined(p, r, e);
    Suffix(p.delim, e, u, leaf);
    TooShort(p.dir, Translated(u, SLASH, p.delim), leaf, k);
  }

  lemma NoUserListed(p: Prefix, ref: string, name: string, sep: char)
    requires Matches(p, ref) && NamesNoUser(p, ref) && p.prefix != []
    ensures var r := ref[|p.prefix|..]; var e := Translated(name, p.delim, sep); var n := Listed(p, ref, name, sep);
      && n == ref + e && Matches(p, n) && n[|p.prefix|..] == r + e && (r == [] || (SkipsOne(p) && r == [p.delim]))
  {
    var r, e := ref[|p.prefix|..], Translated(name, p.delim, sep);
    assert ref == p.prefix + r;
    assert !InsertsDelim(p, ref);
    EmptyConcat(e);
    ConcatAssoc(p.prefix, r, e);
    SplitAt(p.prefix, r + e);
  }

  lemma NoUserJoined(p: Prefix, r: string, e: string) returns (u: string)
    requires p.ns == Other && e != [] && (r == [] || (SkipsOne(p) && r == [p.delim]))
    ensures u == From(p.delim, e) || u == From(p.delim, e[1..])
    ensures Joined(p, r + e) == p.dir + Translated(u, SLASH, p.delim) && Joined(p, r) == p.dir
  {
    u := WithoutUser(p, r + e);
    if r == [] {
      assert r + e == e;
    } else {
      assert (r + e)[1..] == e && r[1..] == [];
      assert Translated([], SLASH, p.delim) == [];
      EmptyConcat(p.dir);
    }
  }

  lemma Suffix(delim: char, e: string, u: string, leaf: string)
    requires e != [] && e[0] != delim && leaf == Translated(e, SLASH, delim) && IsLeaf(leaf)
    requires u == From(delim, e) || u == From(delim, e[1..])
    ensures |u| < |e| && (u != [] ==> Translated(u, SLASH, delim)[|u| - 1] != SLASH)
  {
    FromIsShorter(delim, e);
    assert From(delim, e) == From(delim, e[1..]);
    if u != [] { assert u[|u| - 1] == e[|e| - 1] && leaf[|leaf| - 1] != SLASH; }
  }

  /** As long as the reported name keeps the prefix of the reference, it means the file
      that was listed if and only if the reference, where the prefix is one of other
      users, names a user. */
  lemma ListedNamesMapBackExactly(ps: seq<Prefix>, ref: string, name: string, sep: char, mailbox: string)
    requires Ready(ps)
    requires var p := Chosen(ps, ref);
      && !IsInbox(p, ref) && !Skipped(p, ref, name, sep) && IsLeaf(Translated(name, SLASH, sep))
      && Choose(ps, Listed(p, ref, name, sep)) == Some(p) && !IsInbox(p, Listed(p, ref, name, sep))
    ensures MapsBack(ps, ref, name, sep, mailbox) <==> !NamesNoUser(Chosen(ps, ref), ref)
  {
    hide Trim, Stem, Joined, Listed, Owner, Ready;
    var p := Chosen(ps, ref);
    if NamesNoUser(p, ref) {
      forall k: nat | k >= 1
        ensures Translate(ps, Listed(p, ref, name, sep), mailbox)
          != Some(Path(p, ref, mailbox) + Slashes(k) + Translated(name, SLASH, sep))
      {
        NoUserIsLost(p, ref, name, sep, k);
      }
    } else {
      var k := ListedNamesMapBack(ps, ref, name, sep, mailbox);
    }
  }

  /** The reference is the prefix, give or take a delimiter at the end. */
  predicate IsPrefix(p: Prefix, ref: string) {
    ref == p.prefix || ref == p.prefix + [p.delim] || ref + [p.delim] == p.prefix
  }

  /** `match_pfx`. */
  method MatchPfx(p: Prefix, ref: string) returns (r: bool)
    ensures r == IsPrefix(p, ref)
  {
    var i := 0;
    while i < |ref|
      invariant 0 <= i <= |ref| && i <= |p.prefix| && ref[..i] == p.prefix[..i]
    {
      if i == |p.prefix| {
        r := ref[i] == p.delim && i + 1 == |ref|;
        assert ref == ref[..i] + ref[i..] && |p.prefix| < |ref|;
        assert i + 1 == |ref| ==> ref[i..] == [ref[i]];
        return;
      }
      if p.prefix[i] != ref[i] { return false; }
      i := i + 1;
    }
    assert ref == p.prefix[..i] && p.prefix == p.prefix[..i] + p.prefix[i..];
    if i < |p.prefix| && p.prefix[i] == p.delim {
      assert p.prefix[i..] == [p.delim] + p.prefix[i + 1..];
      i := i + 1;
    }
    r := i == |p.prefix|;
  }

  /** With a wildcard such references are refused in the Other Users namespace, and
      then every name that is reported means the file that was listed. */
  lemma WildcardsMapBack(ps: seq<Prefix>, ref: string, name: string, sep: char, mailbox: string)
    requires Ready(ps)
    requires var p := Chosen(ps, ref);
      && !IsInbox(p, ref) && !Skipped(p, ref, name, sep) && IsLeaf(Translated(name, SLASH, sep))
      && Choose(ps, Listed(p, ref, name, sep)) == Some(p) && !IsInbox(p, Listed(p, ref, name, sep))
      && !(p.ns == Other && IsPrefix(p, ref))
    ensures MapsBack(ps, ref, name, sep, mailbox)
  {
    ListedNamesMapBackExactly(ps, ref, name, sep, mailbox);
  }

  /** Without one, a mailbox of the user's own is reported under the name of another
      user. */
  lemma ListedAsUser(p: Prefix, name: string, sep: char)
    requires p.ns == Other && name != [] && p.delim !in name && sep !in name
    ensures Matches(p, p.prefix) && Owner(p, p.prefix) == []
    ensures var n := Listed(p, p.prefix, name, sep); Matches(p, n) && Owner(p, n) == name
  {
    var e := Translated(name, p.delim, sep);
    assert e == name;
    EmptyConcat(e);
    SplitAt(p.prefix, e);
    UpToAll(p.delim, e);
  }

  lemma {:induction false} UpToAll(delim: char, s: string)
    requires delim !in s
    ensures UpTo(delim, s) == s
  {
    if s != [] { UpToAll(delim, s[1..]); }
  }

  /** The prefix a name belongs to. */
  function Chosen(ps: seq<Prefix>, name: string): (p: Prefix)
    requires Ready(ps)
    ensures Choose(ps, name) == Some(p) && Matches(p, name) && (p.prefix == [] ==> p.ns == Personal)
  {
    LongestPrefixWins(ps, name);
    Choose(ps, name).value
  }
}
