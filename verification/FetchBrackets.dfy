/** Which FETCH requests are answered under the name of another section, seen from the
    request itself. */
module FetchBrackets {
  import opened Text
  import opened Pieces
  import opened FetchSyntax
  import opened FetchParser
  import opened FetchTheorems
  import opened FetchResponse
  import opened NameLists
  import opened FetchNames

  // ----- streams of pieces -----

  /** What the tokenizer makes of arguments: delimiters stand alone, and there is no NUL
      in a string. */
  predicate AllPieces(ts: Stream) {
    forall i :: 0 <= i < |ts| ==> IsPiece(ts[i], DELIMITERS) && NUL !in ts[i]
  }

  lemma {:induction false} MaximalPieces(ps: seq<string>, delim: string)
    requires Maximal(ps, delim)
    ensures forall i :: 0 <= i < |ps| ==> IsPiece(ps[i], delim)
  {
    if ps != [] { MaximalPieces(ps[1..], delim); }
  }

  lemma {:induction false} PiecesOfText(ps: seq<string>, c: char)
    requires c !in Flat(ps)
    ensures forall i :: 0 <= i < |ps| ==> c !in ps[i]
  {
    if ps != [] { PiecesOfText(ps[1..], c); }
  }

  /** Every stream a command can give rise to is of that kind. */
  lemma {:induction false} CutGivesPieces(args: seq<string>)
    requires NulFree(args)
    ensures AllPieces(CutAll(args, Some(DELIMITERS)))
  {
    if args != [] {
      CutIsFaithful(args[0], DELIMITERS);
      MaximalPieces(Cut(args[0], DELIMITERS), DELIMITERS);
      PiecesOfText(Cut(args[0], DELIMITERS), NUL);
      CutGivesPieces(args[1..]);
    }
  }

  /** Names that have been parsed are names the parser accepts. */
  lemma {:induction false} ParsedNames(ts: Stream)
    requires ts != [] && AllPieces(ts) && ParseNames(ts).Good?
    ensures AllAcceptable(ParseNames(ts).value) && NulFree(ParseNames(ts).value)
    decreases |ts|
  {
    if !At(ts, ')') {
      ParsedNames(ts[1..]);
      var n, more := ts[0], ParseNames(ts[1..]).value;
      assert IsPiece(n, DELIMITERS) && Acceptable(n);
      var names := [n] + more;
      forall i | 0 <= i < |names| ensures Acceptable(names[i]) && NUL !in names[i] {
        if i > 0 { assert names[i] == more[i - 1]; }
      }
    }
  }

  // ----- the first closing bracket -----

  predicate Starts(t: string, c: char) {
    t != [] && t[0] == c
  }

  /** The place of the first closing bracket. */
  function Bracket(ts: Stream): (k: nat)
    ensures k <= |ts| && (k < |ts| ==> Starts(ts[k], ']'))
    ensures forall i :: 0 <= i < k ==> !Starts(ts[i], ']')
  {
    if ts == [] || Starts(ts[0], ']') then 0 else 1 + Bracket(ts[1..])
  }

  /** A dot stands in front of it. */
  predicate DotInFront(ts: Stream) {
    var k := Bracket(ts);
    0 < k < |ts| && Starts(ts[k - 1], '.')
  }

  /** The parser has come from `ts` to `rest` without meeting a closing bracket. */
  predicate Clear(ts: Stream, rest: Stream) {
    && |rest| < |ts| && rest == ts[|ts| - |rest|..]
    && (forall i :: 0 <= i < |ts| - |rest| ==> !Starts(ts[i], ']'))
  }

  /** The last piece it has passed is a dot. */
  predicate LastIsDot(ts: Stream, rest: Stream)
    requires |rest| < |ts|
  {
    Starts(ts[|ts| - |rest| - 1], '.')
  }

  predicate Passed(ts: Stream, rest: Stream) {
    Clear(ts, rest) && !LastIsDot(ts, rest)
  }

  lemma OneStep(ts: Stream)
    requires ts != [] && !Starts(ts[0], ']')
    ensures Clear(ts, ts[1..]) && (LastIsDot(ts, ts[1..]) <==> Starts(ts[0], '.'))
  {
  }

  lemma Steps(ts: Stream, mid: Stream, rest: Stream)
    requires Clear(ts, mid) && Clear(mid, rest)
    ensures Clear(ts, rest) && (LastIsDot(ts, rest) <==> LastIsDot(mid, rest))
  {
    var a, b := |ts| - |mid|, |mid| - |rest|;
    assert forall i :: 0 <= i < |mid| ==> mid[i] == ts[a + i];
    SliceSlice(ts, a, |ts|, b, |mid|);
    forall i | 0 <= i < a + b ensures !Starts(ts[i], ']') {
      if i >= a { assert ts[i] == mid[i - a]; }
    }
  }

  lemma {:induction false} BracketIs(ts: Stream, k: nat)
    requires k < |ts| && Starts(ts[k], ']') && forall i :: 0 <= i < k ==> !Starts(ts[i], ']')
    ensures Bracket(ts) == k
  {
    if k > 0 { BracketIs(ts[1..], k - 1); }
  }

  lemma BracketAhead(ts: Stream, rest: Stream)
    requires Clear(ts, rest) && At(rest, ']')
    ensures DotInFront(ts) <==> LastIsDot(ts, rest)
  {
    var k := |ts| - |rest|;
    assert ts[k] == rest[0];
    BracketIs(ts, k);
  }

  // ----- what each parser passes -----

  lemma Keywords(t: string)
    requires KeywordOf(t) != Other
    ensures !Starts(t, ']') && !Starts(t, '.')
  {
    if Starts(t, ']') || Starts(t, '.') { NoKeyword(t); }
  }

  lemma NumberPiece(t: string)
    requires t != [] && GetNumber(t).Some?
    ensures !Starts(t, ']') && !Starts(t, '.')
  {
  }

  lemma {:induction false} NamesPass(ts: Stream)
    requires ts != [] && AllPieces(ts) && ParseNames(ts).Good?
    ensures Passed(ts, ParseNames(ts).rest)
    decreases |ts|
  {
    var p := ts[0];
    assert IsPiece(p, DELIMITERS);
    OneStep(ts);
    if !At(ts, ')') {
      NamesPass(ts[1..]);
      Steps(ts, ts[1..], ParseNames(ts[1..]).rest);
    }
  }

  lemma {:induction false} PartsPass(ts: Stream)
    requires ts != [] && AllPieces(ts) && ParseParts(ts).Good?
    ensures Passed(ts, ParseParts(ts).rest)
    decreases |ts|
  {
    assert IsPiece(ts[0], DELIMITERS);
    NumberPiece(ts[0]);
    OneStep(ts);
    var t1 := ts[1..];
    if At(t1, '.') && |t1| > 1 && t1[1] != [] && IsDigit(t1[1][0]) {
      OneStep(t1);
      Steps(ts, t1, t1[1..]);
      PartsPass(t1[1..]);
      Steps(ts, t1[1..], ParseParts(t1[1..]).rest);
    }
  }

  lemma NotPasses(ts: Stream)
    requires ts != [] && AllPieces(ts) && ParseNot(ts).Good?
    ensures ParseNot(ts).rest == ts || Passed(ts, ParseNot(ts).rest)
  {
    hide KeywordOf;
    if At(ts, '.') {
      var t1 := ts[1..];
      OneStep(ts);
      Keywords(t1[0]);
      OneStep(t1);
      Steps(ts, t1, t1[1..]);
    }
  }

  lemma FieldsPass(ts: Stream, c: Closure)
    requires ts != [] && AllPieces(ts) && ParseFields(ts, c).Good?
    ensures Passed(ts, ParseFields(ts, c).rest)
  {
    hide KeywordOf, ParseNames, ParseNot;
    Keywords(ts[0]);
    OneStep(ts);
    var t1 := ts[1..];
    NotPasses(t1);
    var t2 := ParseNot(t1).rest;
    if t2 != t1 { Steps(ts, t1, t2); }
    OneStep(t2);
    Steps(ts, t2, t2[1..]);
    NamesPass(t2[1..]);
    Steps(ts, t2[1..], ParseNames(t2[1..]).rest);
  }

  lemma TextPasses(ts: Stream, c: Closure, mime: bool)
    requires ts != [] && AllPieces(ts) && c.fun == BodyText
    ensures var r := ParseSectionText(ts, c, mime);
      && (r.Good? && r.value.Some? ==> Passed(ts, r.rest) && !Dangling(r.value.value))
      && (r.Good? && r.value.Some? && c.headers == [] ==> CleanNames(r.value.value))
      && (r.Good? && r.value.None? ==> r.rest == ts)
  {
    hide KeywordOf, ParseFields;
    if ParseSectionText(ts, c, mime).Good? && ParseSectionText(ts, c, mime).value.Some? {
      Keywords(ts[0]);
      OneStep(ts);
      var t1 := ts[1..];
      if KeyOf(ts) == HEADER && At(t1, '.') {
        OneStep(t1);
        Steps(ts, t1, t1[1..]);
        FieldsPass(t1[1..], c);
        Steps(ts, t1[1..], ParseFields(t1[1..], c).rest);
        FieldsAreNamed(t1[1..], c);
      }
    }
  }

  predicate CleanNames(c: Closure) {
    AllAcceptable(c.headers) && NulFree(c.headers)
  }

  lemma FieldsAreNamed(ts: Stream, c: Closure)
    requires ts != [] && AllPieces(ts) && ParseFields(ts, c).Good?
    ensures !Dangling(ParseFields(ts, c).value) && CleanNames(ParseFields(ts, c).value)
  {
    hide KeywordOf, ParseNames, ParseNot, Acceptable;
    var t1 := ts[1..];
    NotPasses(t1);
    var t2 := ParseNot(t1).rest;
    assert AllPieces(t2[1..]);
    ParsedNames(t2[1..]);
  }

  /** Between the brackets: a dot comes last exactly if it dangles. */
  lemma PartSectionPasses(ts: Stream, c: Closure)
    requires ts != [] && AllPieces(ts) && ParsePartSection(ts, c).Good? && c == Fresh(BodyText, Name.Section)
    ensures var r := ParsePartSection(ts, c);
      Clear(ts, r.rest) && (LastIsDot(ts, r.rest) <==> Dangling(r.value)) && CleanNames(r.value)
  {
    hide ParseParts, ParseSectionText;
    PartsPass(ts);
    var p := ParseParts(ts);
    if At(p.rest, '.') {
      OneStep(p.rest);
      var t2 := p.rest[1..];
      Steps(ts, p.rest, t2);
      TextPasses(t2, c.(parts := p.value), true);
      var r := ParseSectionText(t2, c.(parts := p.value), true);
      if r.value.Some? { Steps(ts, t2, r.rest); }
    }
  }

  lemma SpecPasses(ts: Stream, c: Closure)
    requires ts != [] && AllPieces(ts) && ParseSpec(ts, c).Good? && c == Fresh(BodyText, Name.Section)
    ensures var r := ParseSpec(ts, c);
      && CleanNames(r.value)
      && (if r.rest == ts then !Dangling(r.value)
          else Clear(ts, r.rest) && (LastIsDot(ts, r.rest) <==> Dangling(r.value)))
  {
    hide ParseSectionText, ParsePartSection;
    TextPasses(ts, c, false);
    var r := ParseSectionText(ts, c, false);
    if r.value.None? && !At(ts, ']') { PartSectionPasses(ts, c); }
  }

  /** A section is taken to end in a dangling dot exactly if a dot stands in front of the
      first closing bracket of the request. */
  lemma DotDangles(ts: Stream)
    requires ts != [] && AllPieces(ts) && ParseSection(ts).Good? && ParseSection(ts).value.Some?
    ensures Dangling(ParseSection(ts).value.value) <==> DotInFront(ts)
    ensures CleanNames(ParseSection(ts).value.value)
  {
    hide ParseSpec;
    var t1, c := ts[1..], Fresh(BodyText, Name.Section);
    OneStep(ts);
    SpecPasses(t1, c);
    var r := ParseSpec(t1, c);
    if r.rest != t1 { Steps(ts, t1, r.rest); }
    BracketAhead(ts, r.rest);
  }

  lemma ShapedIsGood(c: Closure)
    requires Shaped(c) && CleanNames(c)
    ensures var s := SectionOf(c);
      && GoodSection(s) && CleanSection(s) && SectionClosure(s) == c && !Dangling(c)
      && (LegibleSection(s) <==> Legible(c.headers))
  {
    hide Legible, Acceptable;
    assert forall i :: 0 <= i < |c.headers| ==> Acceptable(c.headers[i]);
    forall i | 0 <= i < |c.headers| ensures c.headers[i] != [] { NotEmpty(c.headers[i]); }
    NoneLegible();
  }

  lemma NotEmpty(n: string)
    requires Acceptable(n)
    ensures n != []
  {
  }

  lemma NoneLegible()
    ensures Legible([])
  {
  }

  lemma DanglingName(c: Closure)
    requires DanglingShape(c)
    ensures ResponseName(c) == ResponseName(SectionClosure(Part(c.parts))) && GoodSection(Part(c.parts))
    ensures CleanSection(Part(c.parts)) && LegibleSection(Part(c.parts)) && SectionClosure(Part(c.parts)) != c
  {
  }

  /** For every section the server accepts, however its header names were sent: the name
      in the response is read back as the section that was parsed if and only if the
      request has no dot in front of its first closing bracket and its header names are
      legible. */
  lemma ResponseIdentifiesSection(ts: Stream)
    requires ts != [] && AllPieces(ts) && ParseSection(ts).Good? && ParseSection(ts).value.Some?
    ensures var c := ParseSection(ts).value.value;
      ReadName(ResponseName(c)) == Good([c], []) <==> !DotInFront(ts) && Legible(c.headers)
  {
    hide ParseSection, ReadName, ResponseName, DotInFront, CleanNames, GoodSection, CleanSection, LegibleSection,
      SectionOf, SectionClosure, Legible;
    var c := ParseSection(ts).value.value;
    ParsedShapes(ts);
    DotDangles(ts);
    if Shaped(c) {
      ShapedIsGood(c);
      NameReadsBack(SectionOf(c));
    } else {
      DanglingName(c);
      NameReadsBack(Part(c.parts));
    }
  }
}
