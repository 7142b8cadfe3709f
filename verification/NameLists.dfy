/** A list of header names as a response prints it, without quoting, and what the
    server's own tokenizers and parser make of the text. */
module NameLists {
  import opened Text
  import opened Lexer
  import opened Quoting
  import opened Pieces
  import opened CommandWriter
  import opened FetchSyntax
  import opened FetchParser
  import opened FetchTheorems
  import opened FetchText
  import opened FetchResponse

  // ----- which lists can be read -----

  /** A quote that ends the quoted string at the front of a text. */
  predicate HasClose(t: string) {
    exists q :: 1 <= q < |t| && t[q] == QUOTE && t[q - 1] != BACKSLASH
  }

  predicate PlainChar(c: char) {
    !IsBlank(c) && c != '(' && c != ')' && c != NUL && c != LF
  }

  predicate PlainName(n: string) {
    n != [] && forall i :: 0 <= i < |n| ==> PlainChar(n[i])
  }

  /** No name has a blank, a parenthesis or a line break in it, and none that begins with
      a quote finds a quote to close it, in itself or in the names behind it. */
  predicate Legible(names: seq<string>) {
    names != [] ==>
      && PlainName(names[0]) && Legible(names[1..])
      && (names[0][0] == QUOTE ==> !HasClose(NamesText(names, [])))
  }

  // ----- the search for the closing quote -----

  lemma {:induction false} NextQuoteNone(s: string, i: nat, k: nat)
    requires i <= k < |s| && s[k] == NUL && forall j :: i <= j < k ==> s[j] != NUL
    ensures !NextQuote(s, i).Past?
    ensures NextQuote(s, i).Hit? ==> NextQuote(s, i).at < k
    ensures NextQuote(s, i).Miss? ==> forall j :: i <= j < k ==> s[j] != QUOTE
    decreases k - i
  {
    if i < k && s[i] != QUOTE { NextQuoteNone(s, i + 1, k); }
  }

  /** The search has come to `start`, right behind a quote that does not count. */
  lemma {:induction false} SearchFrom(u: string, n: nat, start: nat, last: Search)
    requires 1 <= start < n < |u| && u[n] == NUL && u[n - 1] != QUOTE && u[start - 1] == QUOTE
    requires forall i :: 0 <= i < n ==> u[i] != NUL
    requires !last.Past? && (last.Hit? ==> 1 <= last.at < start && u[last.at] == QUOTE)
    ensures var f := FindClose(u, start, last);
      && !f.Past? && (f.Hit? ==> start <= f.at < n - 1)
      && (f.Hit? <==> exists q :: start <= q < n && u[q] == QUOTE && u[q - 1] != BACKSLASH)
    decreases n - start
  {
    hide NextQuote;
    var p := NextQuote(u, start);
    NextQuoteNone(u, start, n);
    if p.Hit? {
      if p.at != start && u[p.at - 1] == BACKSLASH {
        SearchFrom(u, n, p.at + 1, p);
        var f := FindClose(u, p.at + 1, p);
        assert f == FindClose(u, start, last);
        if q :| start <= q < n && u[q] == QUOTE && u[q - 1] != BACKSLASH { assert q > p.at; }
      } else {
        assert u[p.at] == QUOTE && u[p.at - 1] != BACKSLASH;
      }
    }
  }

  lemma QuoteSearch(t: string, k: nat)
    requires |t| > 1 && t[0] == QUOTE && NUL !in t && t[|t| - 1] != QUOTE && k > 0
    ensures var f := FindClose(t + Nuls(k), 1, Miss);
      && !f.Past? && (f.Hit? ==> 1 <= f.at < |t| - 1) && (f.Hit? <==> HasClose(t))
  {
    var u, n := t + Nuls(k), |t|;
    assert u[n] == Nuls(k)[0] && forall i :: 0 <= i < n ==> u[i] == t[i];
    SearchFrom(u, n, 1, Miss);
    if q :| 1 <= q < n && u[q] == QUOTE && u[q - 1] != BACKSLASH { assert t[q] == QUOTE && t[q - 1] != BACKSLASH; }
    if q :| 1 <= q < |t| && t[q] == QUOTE && t[q - 1] != BACKSLASH { assert u[q] == QUOTE && u[q - 1] != BACKSLASH; }
  }

  // ----- the text behind the opening parenthesis -----

  /** Text that ends in the bracket of the section, and has no other delimiter. */
  predicate Region(r: string) {
    && r != [] && r[|r| - 1] == ']' && NUL !in r && LF !in r
    && (forall i :: 0 <= i < |r| - 1 ==> r[i] !in DELIMITERS)
  }

  lemma RegionTail(r: string, k: nat)
    requires Region(r) && k < |r|
    ensures Region(r[k..])
  {
    var t := r[k..];
    assert forall i :: 0 <= i < |t| ==> t[i] == r[k + i];
  }

  lemma ShrinkNuls(k: nat, g: nat)
    requires g <= k
    ensures Shrink(Nuls(k), g) == Nuls(k - g)
  {
  }

  /** The pieces the two tokenizers make of it, with NULs behind. */
  function ListOf(r: string, k: nat): Option<Stream>
    requires Trimmed(r)
  {
    var l := Lex(r, Nuls(k));
    if l.Args? then Some(CutAll(l.values, Some(DELIMITERS))) else None
  }

  lemma ListStep(r: string, k: nat)
    requires r != [] && Trimmed(r) && k > 0
    ensures var t := LexTok(r, Nuls(k));
      if t.Tok? then
        var more := ListOf(t.rest, k - t.grown);
        ListOf(r, k) == if more.Some? then Some(Cut(t.value, DELIMITERS) + more.value) else None
      else ListOf(r, k) == None
  {
    hide LexTok, Cut, Nuls, Shrink;
    var t := LexTok(r, Nuls(k));
    if t.Tok? {
      ShrinkNuls(k, t.grown);
      var l := Lex(t.rest, Nuls(k - t.grown));
      if l.Args? { ConsDrop(t.value, l.values); }
    }
  }

  /** Blanks in front make no difference. */
  lemma BlankSkipped(r: string, k: nat)
    requires |r| > 1 && Trimmed(r) && IsBlank(r[0]) && k > 0
    ensures Trimmed(r[1..]) && ListOf(r, k) == ListOf(r[1..], k)
  {
    var t := r[1..];
    assert t[|t| - 1] == r[|r| - 1];
    assert r[BlankRun(r)..] == t[BlankRun(t)..];
    assert LexTok(r, Nuls(k)) == LexTok(t, Nuls(k));
    hide LexTok;
  }

  /** The first token of a text that begins with no blank. */
  lemma FirstToken(t: string, k: nat)
    requires Region(t) && !IsBlank(t[0]) && k > 0
    ensures Trimmed(t)
    ensures var r := LexTok(t, Nuls(k));
      if t[0] == QUOTE && HasClose(t) then
        r.Tok? ==>
          && |r.value| + 2 + |r.rest| <= |t| && r.rest != [] && Region(r.rest)
          && Undelimited(r.value) && r.grown == 0
      else if t[0] == '(' || t[0] == ')' then r == Tok([t[0]], t[1..], Grown(t[1..]))
      else r == Tok(t[..AtomRun(t)], t[AtomRun(t)..], Grown(t[AtomRun(t)..]))
  {
    hide AtomRun, FindClose, HasClose, Unescape, WellEscaped;
    BlankRunIs(t, 0);
    assert t[0..] == t;
    if t[0] == QUOTE {
      assert |t| > 1;
      QuoteSearch(t, k);
      var f := FindClose(t + Nuls(k), 1, Miss);
      if f.Hit? { QuotedToken(t, k, f.at); }
    }
    CStrClean(t[..1]);
  }

  lemma QuotedToken(t: string, k: nat, p: nat)
    requires Region(t) && 1 <= p < |t| - 1 && Clean(t + Nuls(k), 1, p)
    ensures var r := LexQuoted(t, Nuls(k), p);
      r.Tok? ==>
        && |r.value| + 2 + |r.rest| <= |t| && r.rest != [] && Region(r.rest)
        && Undelimited(r.value) && r.grown == 0
  {
    RegionTail(t, p + 1);
    var text := (t + Nuls(k))[1..p];
    assert text == t[1..p];
    if WellEscaped(text) {
      UnescapeChars(text);
      forall i | 0 <= i < |Unescape(text)| ensures Unescape(text)[i] !in DELIMITERS {
        assert Unescape(text)[i] in text;
      }
    }
  }

  lemma {:induction false} UnescapeChars(s: string)
    requires WellEscaped(s)
    ensures forall c :: c in Unescape(s) ==> c in s
  {
    if s == [] {
    } else if s[0] != BACKSLASH {
      UnescapeChars(s[1..]);
      assert forall c :: c in s[1..] ==> c in s;
    } else if |s| > 1 {
      UnescapeChars(s[2..]);
      assert forall c :: c in s[2..] ==> c in s;
    }
  }

  // ----- names that are read take up room -----

  /** The length of a list of names, with a separator behind each. */
  function Len(names: seq<string>): nat {
    if names == [] then 0 else |names[0]| + 1 + Len(names[1..])
  }

  lemma LenCons(n: string, names: seq<string>)
    ensures Len([n] + names) == |n| + 1 + Len(names)
  {
    ConsDrop(n, names);
  }

  /** A word at the front of the list. */
  lemma WordInFront(v: string, more: Stream)
    requires v != [] && Undelimited(v)
    ensures var r := ParseNameList(Cut(v, DELIMITERS) + more);
      r.Good? ==>
        && v != "("
        && (v[0] == ')' ==> r.value == [])
        && (v[0] != ')' ==> ParseNameList(more).Good? && r.value == [v] + ParseNameList(more).value)
  {
    NameCuts(v);
    ConsDrop(v, more);
  }

  /** The end of the text cannot be part of a name. */
  lemma BracketInWord(v: string, more: Stream)
    requires Region(v)
    ensures var r := ParseNameList(Cut(v, DELIMITERS) + more); r.Good? ==> r.value == []
  {
    assert !Acceptable(v) by { assert v[|v| - 1] in DELIMITERS; }
    RefusedName(v, more);
  }

  lemma NoBlanksAtEnd(r: string)
    requires Region(r)
    ensures Trimmed(r) && BlankRun(r) < |r| && !IsBlank(r[BlankRun(r)])
    ensures BlankRun(r) > 0 <==> IsBlank(r[0])
  {
  }

  /** Whatever names are read from a text, with a separator behind each they are no longer
      than the text without the blanks it begins with. */
  lemma {:induction false} NamesTakeRoom(r: string, k: nat)
    requires Region(r) && Trimmed(r) && k > |r| && ListOf(r, k).Some? && ParseNameList(ListOf(r, k).value).Good?
    ensures var names := ParseNameList(ListOf(r, k).value).value;
      Len(names) + BlankRun(r) + 1 <= |r|
    decreases |r|
  {
    hide ListOf, LexTok, Region, Len, HasClose, AtomRun, ParseNameList;
    NoBlanksAtEnd(r);
    if IsBlank(r[0]) {
      assert |r| > 1 by { RegionLong(r); }
      BlankSkipped(r, k);
      RegionTail(r, 1);
      NamesTakeRoom(r[1..], k);
      BlankRunTail(r);
    } else {
      FirstToken(r, k);
      ListStep(r, k);
      if r[0] == QUOTE && HasClose(r) {
        AfterQuoted(r, k);
      } else if r[0] == '(' || r[0] == ')' {
        AfterParen(r, k);
      } else {
        AfterAtom(r, k);
      }
    }
  }

  lemma RegionLong(r: string)
    requires Region(r) && IsBlank(r[0])
    ensures |r| > 1
  {
  }

  lemma BlankRunTail(r: string)
    requires r != [] && IsBlank(r[0])
    ensures BlankRun(r) == 1 + BlankRun(r[1..])
  {
  }

  lemma ParenWord(r: string)
    requires Region(r) && (r[0] == '(' || r[0] == ')')
    ensures |r| > 1 && Undelimited([r[0]]) && BlankRun(r) == 0
  {
    assert r[|r| - 1] == ']';
  }

  lemma AfterParen(r: string, k: nat)
    requires Region(r) && Trimmed(r) && k > |r| && ListOf(r, k).Some? && ParseNameList(ListOf(r, k).value).Good?
    requires r[0] == '(' || r[0] == ')'
    requires LexTok(r, Nuls(k)) == Tok([r[0]], r[1..], Grown(r[1..]))
    ensures ParseNameList(ListOf(r, k).value).value == [] && |r| > 1
    ensures Len([]) == 0 && BlankRun(r) == 0
  {
    hide ListOf, LexTok, ParseNameList, Region, Cut, Undelimited, Nuls, BlankRun;
    ParenWord(r);
    ListStep(r, k);
    WordInFront([r[0]], ListOf(r[1..], k - Grown(r[1..])).value);
    assert [r[0]] == "(" <==> r[0] == '(';
  }

  /** A quoted string is shorter than it was on the line. */
  lemma {:induction false} AfterQuoted(r: string, k: nat)
    requires Region(r) && Trimmed(r) && k > |r| && ListOf(r, k).Some? && ParseNameList(ListOf(r, k).value).Good?
    requires !IsBlank(r[0]) && r[0] == QUOTE && HasClose(r)
    ensures Len(ParseNameList(ListOf(r, k).value).value) + 1 < |r| && BlankRun(r) == 0
    decreases |r|, 0
  {
    hide ListOf, LexTok, Region, Len, HasClose, ParseNameList, Cut;
    NoBlanksAtEnd(r);
    FirstToken(r, k);
    ListStep(r, k);
    var t := LexTok(r, Nuls(k));
    var list := ListOf(t.rest, k).value;
    NoBlanksAtEnd(t.rest);
    var names := ParseNameList(ListOf(r, k).value).value;
    NoNames();
    if t.value == [] {
      NothingCut(list);
      NamesTakeRoom(t.rest, k);
    } else {
      WordInFront(t.value, list);
      if t.value[0] != ')' {
        NamesTakeRoom(t.rest, k);
        LenCons(t.value, ParseNameList(list).value);
      }
    }
  }

  lemma NoNames()
    ensures Len([]) == 0
  {
  }

  lemma NothingCut(list: Stream)
    ensures Cut([], DELIMITERS) + list == list
  {
    EmptyConcat(list);
  }

  lemma AtomShape(r: string)
    requires Region(r) && !IsBlank(r[0]) && r[0] != '(' && r[0] != ')'
    ensures 1 <= AtomRun(r) <= |r| && PlainName(r[..AtomRun(r)])
    ensures AtomRun(r) < |r| ==>
      && Region(r[AtomRun(r)..]) && |r[AtomRun(r)..]| > 1 && Undelimited(r[..AtomRun(r)])
      && (IsBlank(r[AtomRun(r)]) || r[AtomRun(r)] == '(' || r[AtomRun(r)] == ')')
  {
    var n := AtomRun(r);
    assert r[0] != NUL by { assert r[0] in r; }
    assert n >= 1;
    forall i | 0 <= i < n ensures PlainChar(r[..n][i]) { assert r[i] in r; }
    if n < |r| {
      assert r[n] in r;
      RegionTail(r, n);
      assert n < |r| - 1;
    }
  }

  /** A word up to the next blank or parenthesis. */
  lemma {:induction false} AfterAtom(r: string, k: nat)
    requires Region(r) && Trimmed(r) && k > |r| && ListOf(r, k).Some? && ParseNameList(ListOf(r, k).value).Good?
    requires !IsBlank(r[0]) && !(r[0] == QUOTE && HasClose(r)) && r[0] != '(' && r[0] != ')'
    ensures var names := ParseNameList(ListOf(r, k).value).value;
      Len(names) + 1 <= |r| && BlankRun(r) == 0
    decreases |r|, 0
  {
    hide ListOf, LexTok, Region, Len, HasClose, AtomRun, ParseNameList, Cut;
    NoBlanksAtEnd(r);
    FirstToken(r, k);
    ListStep(r, k);
    AtomShape(r);
    var n := AtomRun(r);
    var v, rest := r[..n], r[n..];
    var k' := k - Grown(rest);
    var list := ListOf(rest, k').value;
    if n == |r| {
      assert v == r;
      BracketInWord(v, list);
      NoNames();
    } else {
      NoBlanksAtEnd(rest);
      assert v[0] == r[0];
      WordInFront(v, list);
      var more := ParseNameList(list).value;
      LenCons(v, more);
      assert r == v + rest;
      if IsBlank(rest[0]) {
        BlankSkipped(rest, k');
        RegionTail(rest, 1);
        NamesTakeRoom(rest[1..], k');
      } else {
        FirstToken(rest, k');
        AfterParen(rest, k');
      }
    }
  }

  // ----- the names of a text, read from it again -----

  lemma {:induction false} TextLength(names: seq<string>, blanks: string)
    requires names != [] && |blanks| <= 1
    ensures |NamesText(names, blanks)| + 1 == Len(names) + |blanks|
    decreases |names|
  {
    if |names| > 1 {
      TextLength(names[1..], BLANK);
    } else {
      assert names[1..] == [];
    }
  }

  /** The text behind the first name. */
  function TextAfter(names: seq<string>): string
    requires names != []
  {
    if |names| == 1 then ")]" else BLANK + (NamesText(names[1..], []) + ")]")
  }

  lemma TextBehind(names: seq<string>)
    requires names != []
    ensures NamesText(names, []) + ")]" == names[0] + TextAfter(names)
  {
    var more := NamesText(names[1..], BLANK);
    EmptyConcat(names[0] + more);
    ConcatAssoc(names[0], more, ")]");
    if |names| > 1 {
      var x := names[1] + NamesText(names[1..][1..], BLANK);
      EmptyConcat(x);
      ConcatAssoc(BLANK, x, ")]");
    } else {
      assert names[1..] == [];
      EmptyConcat(")]");
    }
  }

  lemma BehindShape(names: seq<string>)
    requires names != []
    ensures var rest := TextAfter(names);
      && |rest| > 1 && (rest[0] == ' ' || rest[0] == ')')
      && (|names| > 1 ==> rest[0] == ' ' && rest[1..] == NamesText(names[1..], []) + ")]")
  {
    hide NamesText;
    if |names| > 1 {
      var x := NamesText(names[1..], []) + ")]";
      ConsDrop(' ', x);
    }
  }

  lemma Split(r: string, v: string, rest: string)
    requires r == v + rest
    ensures r[..|v|] == v && r[|v|..] == rest
  {
  }

  lemma CloseInText(text: string)
    ensures HasClose(text + ")]") <==> HasClose(text)
  {
    var r := text + ")]";
    if q :| 1 <= q < |r| && r[q] == QUOTE && r[q - 1] != BACKSLASH { assert text[q] == QUOTE && text[q - 1] != BACKSLASH; }
    if q :| 1 <= q < |text| && text[q] == QUOTE && text[q - 1] != BACKSLASH { assert r[q] == QUOTE && r[q - 1] != BACKSLASH; }
  }

  /** If names are read again from their own text, they are legible: names that are not
      read as plain words leave too little room for the others. */
  lemma {:induction false} ReadAgain(names: seq<string>, k: nat)
    requires var r := NamesText(names, []) + ")]";
      && Region(r) && Trimmed(r) && k > |r| && ListOf(r, k).Some?
      && ParseNameList(ListOf(r, k).value).Good? && ParseNameList(ListOf(r, k).value).value == names
    ensures Legible(names)
    decreases |names|
  {
    hide ListOf, LexTok, Region, Len, HasClose, AtomRun, ParseNameList, Cut, NamesText;
    if names != [] {
      var r := NamesText(names, []) + ")]";
      TextLength(names, []);
      NoBlanksAtEnd(r);
      NamesTakeRoom(r, k);
      if r[0] == QUOTE && HasClose(r) { AfterQuoted(r, k); }
      FirstToken(r, k);
      if r[0] == '(' || r[0] == ')' { AfterParen(r, k); }
      ListStep(r, k);
      AtomShape(r);
      CloseInText(NamesText(names, []));
      var n := AtomRun(r);
      var v, rest := r[..n], r[n..];
      var list := ListOf(rest, k - Grown(rest)).value;
      if n == |r| {
        assert v == r;
        BracketInWord(v, list);
      } else {
        WordInFront(v, list);
        ConsDrop(v, ParseNameList(list).value);
        assert v == names[0];
        TextBehind(names);
        Split(r, v, TextAfter(names));
        if |names| > 1 {
          BehindShape(names);
          NoBlanksAtEnd(rest);
          BlankSkipped(rest, k - Grown(rest));
          RegionTail(rest, 1);
          ReadAgain(names[1..], k - Grown(rest));
        } else {
          assert names[1..] == [];
        }
      }
    }
  }

  /** Legible names are read as they are. */
  lemma {:induction false} LegibleReads(names: seq<string>, k: nat)
    requires Legible(names) && AllAcceptable(names) && k > |NamesText(names, [])| + 2
    ensures var r := NamesText(names, []) + ")]";
      Region(r) && Trimmed(r) && ListOf(r, k) == Some(names + ([")"] + ["]"]))
    decreases |names|
  {
    hide ListOf, NamesText, Region, HasClose, PlainName, Acceptable;
    if names == [] {
      NoText();
      CloseReads(k);
      EmptyConcat(")]");
      EmptyConcat([")"] + ["]"]);
    } else {
      var rest := TextAfter(names);
      TextBehind(names);
      BehindShape(names);
      assert AllAcceptable(names[1..]);
      if |names| > 1 {
        TextShorter(names);
        LegibleReads(names[1..], k - 1);
        BlankRegion(rest);
        BlankSkipped(rest, k - 1);
      } else {
        assert names[1..] == [];
        CloseReads(k - 1);
        EmptyConcat([")"] + ["]"]);
      }
      CloseInText(NamesText(names, []));
      NameReads(names[0], rest, k, names[1..] + ([")"] + ["]"]));
      HeadTail(names);
      ConcatAssoc([names[0]], names[1..], [")"] + ["]"]);
    }
  }

  lemma NameReads(n: string, rest: string, k: nat, list: Stream)
    requires PlainName(n) && Acceptable(n) && Region(rest) && Trimmed(rest) && |rest| > 1 && k > 1
    requires (rest[0] == ' ' || rest[0] == ')') && ListOf(rest, k - 1) == Some(list)
    requires n[0] == QUOTE ==> !HasClose(n + rest)
    ensures Region(n + rest) && Trimmed(n + rest) && ListOf(n + rest, k) == Some([n] + list)
  {
    hide ListOf, LexTok, HasClose, AtomRun, Cut, Region;
    NameInFront(n, rest);
    FirstToken(n + rest, k);
    ListStep(n + rest, k);
    WordRun(n, rest);
    NameCuts(n);
  }

  lemma NoText()
    ensures NamesText([], []) == []
  {
  }

  lemma TextShorter(names: seq<string>)
    requires |names| > 1
    ensures |NamesText(names[1..], [])| < |NamesText(names, [])|
  {
  }

  lemma BlankRegion(rest: string)
    requires |rest| > 1 && rest[0] == ' ' && Region(rest[1..])
    ensures Region(rest) && Trimmed(rest)
  {
    var t := rest[1..];
    assert forall i :: 1 <= i < |rest| ==> rest[i] == t[i - 1];
  }

  lemma NameInFront(n: string, rest: string)
    requires PlainName(n) && Acceptable(n) && Region(rest)
    ensures Region(n + rest) && !IsBlank((n + rest)[0]) && (n + rest)[0] == n[0] && n[0] != '(' && n[0] != ')'
  {
    assert PlainChar(n[0]);
    var r := n + rest;
    forall i | 0 <= i < |r| - 1 ensures r[i] !in DELIMITERS && r[i] != NUL && r[i] != LF {
      if i < |n| { assert PlainChar(n[i]); } else { assert r[i] == rest[i - |n|] && rest[i - |n|] in rest; }
    }
  }

  lemma WordRun(n: string, rest: string)
    requires PlainName(n) && rest != [] && (rest[0] == ' ' || rest[0] == ')')
    ensures AtomRun(n + rest) == |n| && (n + rest)[..|n|] == n && (n + rest)[|n|..] == rest
  {
    var r := n + rest;
    forall i | 0 <= i < |n| ensures !IsBlank(r[i]) && !IsDelim(r[i]) { assert PlainChar(n[i]); }
    AtomRunIs(r, |n|);
  }

  lemma CloseReads(k: nat)
    requires k > 1
    ensures Region(")]") && Trimmed(")]") && ListOf(")]", k) == Some([")"] + ["]"])
  {
    hide ListOf, LexTok, HasClose, AtomRun, Cut;
    var r := ")]";
    assert r[1..] == "]";
    FirstToken(r, k);
    ListStep(r, k);
    BracketReads(k - 1);
    NameCuts(")");
  }

  lemma BracketReads(k: nat)
    requires k > 0
    ensures Region("]") && Trimmed("]") && ListOf("]", k) == Some(["]"])
  {
    BracketIsWord();
    hide ListOf, LexTok, HasClose, AtomRun, Cut;
    FirstToken("]", k);
    ListStep("]", k);
    NothingListed(k);
    EmptyConcat(["]"]);
  }

  lemma BracketIsWord()
    ensures AtomRun("]") == 1 && "]"[..1] == "]" && "]"[1..] == []
    ensures Cut("]", DELIMITERS) == ["]"]
  {
    AtomRunIs("]", 1);
    EmptyConcat("]");
    assert Flat(["]"]) == "]" by { assert ["]"][1..] == []; }
    CutIsUnique(["]"], DELIMITERS);
  }

  lemma NothingListed(k: nat)
    ensures Trimmed([]) && ListOf([], k) == Some([])
  {
  }
}
