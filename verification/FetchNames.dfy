/** Reading the name of a section back from a response: which sections it identifies. */
module FetchNames {
  import opened Text
  import opened Numbers
  import opened Lexer
  import opened Pieces
  import opened CommandWriter
  import opened FetchSyntax
  import opened FetchParser
  import opened FetchTheorems
  import opened FetchText
  import opened FetchResponse
  import opened NameLists

  /** The server's own tokenizers and parser, on a name that stands on a line by itself,
      with NULs behind. */
  function ReadName(text: string): Parsed<seq<Closure>> {
    if !Trimmed(text) || LF in text then Bad(Syntax)
    else
      var l := Lex(text, Nuls(|text| + 1));
      if l.Args? then ParseMacro(CutAll(l.values, Some(DELIMITERS)), false, false) else Bad(Syntax)
  }

  lemma DefaultClosure(s: Section)
    ensures ItemClosures(Data(s, false, None), false) == [SectionClosure(s)]
  {
    assert SectionClosure(s).(peek := false) == SectionClosure(s);
  }

  // ----- sections without header names -----

  lemma PlainNameReads(s: Section)
    requires GoodSection(s) && !s.FieldsOf?
    ensures ReadName(ResponseName(SectionClosure(s))) == Good([SectionClosure(s)], [])
  {
    hide LinePart, ItemArgs, Lex, CutAll, ItemPieces, ResponseName, SectionClosure, GoodSection, Writable, ParseMacro,
      OnLine, Lexes, Nuls, Values, LineValues, LineGrown;
    var item := Data(s, false, None);
    var ps := ItemArgs(item, []);
    NameLine(s);
    NothingWritten();
    NoNamesToWrite(item);
    ItemWritten(item, [], []);
    ItemCut(item, []);
    EmptyConcat(ps);
    LexLine(ps);
    WithoutLiterals(ps);
    OnLineText(LinePart(ps), LineValues(ps), LineGrown(ps), Nuls(|LinePart(ps)| + 1));
    SingleCompiles(item, false, false);
    DefaultClosure(s);
  }

  lemma NoNamesToWrite(item: Request)
    requires item.Data? && !item.section.FieldsOf?
    ensures Unquoted(item) && ItemTaken(item) && NoLiterals(ItemArgs(item, []))
  {
  }

  lemma OnLineText(text: string, vs: seq<string>, n: nat, beyond: string)
    requires OnLine(text) && Lexes(text, vs, n)
    ensures Trimmed(text) && LF !in text && Lex(text, beyond) == Args(vs, n)
  {
  }

  // ----- header names -----

  /** Names as C strings hold them. */
  predicate NulFree(names: seq<string>) {
    forall i :: 0 <= i < |names| ==> NUL !in names[i]
  }

  function FieldsRegion(names: seq<string>): string {
    NamesText(names, []) + ")]"
  }

  lemma {:induction false} TextChars(names: seq<string>, blanks: string)
    requires AllAcceptable(names) && NulFree(names) && (blanks == [] || blanks == BLANK)
    ensures NUL !in NamesText(names, blanks) && forall c :: c in NamesText(names, blanks) ==> c !in DELIMITERS
    decreases |names|
  {
    if names != [] {
      TextChars(names[1..], BLANK);
      assert Acceptable(names[0]) && NUL !in names[0];
      var n, more := names[0], NamesText(names[1..], BLANK);
      forall c | c in blanks + (n + more) ensures c != NUL && c !in DELIMITERS {
        if c in n {
          var i :| 0 <= i < |n| && n[i] == c;
        }
      }
    }
  }

  lemma {:induction false} LegibleText(names: seq<string>, blanks: string)
    requires Legible(names) && (blanks == [] || blanks == BLANK)
    ensures LF !in NamesText(names, blanks)
    decreases |names|
  {
    if names != [] {
      LegibleText(names[1..], BLANK);
      assert forall i :: 0 <= i < |names[0]| ==> PlainChar(names[0][i]);
    }
  }

  lemma RegionOfNames(names: seq<string>)
    requires AllAcceptable(names) && NulFree(names) && LF !in NamesText(names, [])
    ensures Region(FieldsRegion(names)) && Trimmed(FieldsRegion(names))
  {
    TextChars(names, []);
    var t, r := NamesText(names, []), FieldsRegion(names);
    hide NamesText;
    forall i | 0 <= i < |r| - 1 ensures r[i] !in DELIMITERS {
      if i < |t| { assert r[i] == t[i] && t[i] in t; }
    }
  }

  /** The response name of a section with header names, in three parts. */
  lemma FieldsName(s: Section)
    requires s.FieldsOf?
    ensures ResponseName(SectionClosure(s))
      == Flat(FieldsHead(s, false)) + (BLANK + (['('] + FieldsRegion(s.names)))
  {
    hide Flat, FieldsHead, SectionPart, NamesText;
    var head := Flat(FieldsHead(s, false));
    FieldsFlat(s);
    NamesJoined(s.names);
    assert " (" == BLANK + ['('];
    var j := JoinNames(s.names);
    ConcatAssoc(BLANK, ['('], j + ")]");
    ConcatAssoc(head, " (", j + ")]");
    ConcatAssoc(head + " (", j, ")]");
  }

  lemma OpenLex(r: string, k: nat)
    requires Region(r) && Trimmed(r) && k > 0
    ensures Trimmed(BLANK + (['('] + r)) && Lex(BLANK + (['('] + r), Nuls(k)) == Consed("(", 1, Lex(r, Nuls(k - 1)))
  {
    assert !IsBlank('(');
    hide *;
    RegionOnLine(r);
    OpenOnLine(r);
    ParenReads('(', r, Nuls(k));
    LexCons(BLANK, ['('], "(", 1, r, Nuls(k));
    ShrinkNuls(k, 1);
  }

  lemma HeadLex(head: string, open: string, k: nat)
    requires GoodAtom(head) && OnLine(open) && Trimmed(open) && open != [] && IsBlank(open[0]) && k > 0
    ensures Trimmed(head + open) && OnLine(head + open)
    ensures Lex(head + open, Nuls(k)) == Consed(head, 1, Lex(open, Nuls(k - 1)))
  {
    assert Grown(open) == 1 && AllBlank([]);
    hide *;
    AtomReads(head, open, Nuls(k));
    AtomStarts(head);
    OnLineConcat([], head, open);
    EmptyConcat(head + open);
    LexCons([], head, head, 1, open, Nuls(k));
    ShrinkNuls(k, 1);
  }

  /** Lexing the name: its head, the parenthesis, and what comes of the rest. */
  lemma FieldsLex(s: Section, k: nat)
    requires s.FieldsOf? && Region(FieldsRegion(s.names)) && Trimmed(FieldsRegion(s.names)) && k > 2
    ensures var text, list := ResponseName(SectionClosure(s)), ListOf(FieldsRegion(s.names), k - 2);
      && Trimmed(text) && OnLine(text)
      && (Lex(text, Nuls(k)).Args? <==> list.Some?)
      && (list.Some? ==>
        CutAll(Lex(text, Nuls(k)).values, Some(DELIMITERS)) == FieldsHead(s, false) + (["("] + list.value))
  {
    var head, r := Flat(FieldsHead(s, false)), FieldsRegion(s.names);
    ListIs(r, k - 2);
    hide *;
    FieldsName(s);
    HeadChain(s, false);
    ChainCuts(FieldsHead(s, false));
    OpenOnLine(r);
    OpenLex(r, k - 1);
    HeadLex(head, BLANK + (['('] + r), k);
    ParenCuts('(');
    CutTwo(head, Lex(r, Nuls(k - 2)));
  }

  lemma ListIs(r: string, k: nat)
    requires Trimmed(r)
    ensures var l := Lex(r, Nuls(k));
      ListOf(r, k) == if l.Args? then Some(CutAll(l.values, Some(DELIMITERS))) else None
  {
  }

  lemma RegionOnLine(r: string)
    requires Region(r)
    ensures OnLine(r) && r != [] && Grown(r) == 1
  {
  }

  lemma OpenOnLine(r: string)
    requires Region(r) && Trimmed(r)
    ensures var open := BLANK + (['('] + r);
      && OnLine(open) && Trimmed(open) && open != [] && IsBlank(open[0]) && Grown(open) == 1
      && Trimmed(['('] + r) && AllBlank(BLANK)
  {
    var open := BLANK + (['('] + r);
    assert open[|open| - 1] == r[|r| - 1];
  }

  lemma AtomStarts(t: string)
    requires GoodAtom(t)
    ensures t != [] && !IsBlank(t[0]) && OnLine(t)
  {
  }

  lemma CutTwo(head: string, l: LexedLine)
    ensures var c := Consed(head, 1, Consed("(", 1, l));
      && (c.Args? <==> l.Args?)
      && (l.Args? ==>
        CutAll(c.values, Some(DELIMITERS))
        == Cut(head, DELIMITERS) + (Cut("(", DELIMITERS) + CutAll(l.values, Some(DELIMITERS))))
  {
    hide Cut;
    if l.Args? {
      ConsDrop("(", l.values);
      ConsDrop(head, ["("] + l.values);
    }
  }

  /** What the parser makes of the pieces, in terms of the names it finds. */
  lemma FieldsMacro(s: Section, list: Stream)
    requires s.FieldsOf? && GoodSection(s)
    ensures var r, found := ParseMacro(FieldsHead(s, false) + (["("] + list), false, false), ParseNameList(list);
      && (r == Good([SectionClosure(s)], []) ==> found.Good? && found.value == s.names)
      && (found == Good(s.names, ["]"]) ==> r == Good([SectionClosure(s)], []))
  {
    hide Spell, KeywordOf, Dotted, FieldsWord, ParseSection, ParseNameList, ParseSubstring, FindMacro;
    var spec := Dotted(s.parts) + (FieldsWord(s.negate) + (["("] + list));
    var args := ["["] + spec;
    var ts := FieldsHead(s, false) + (["("] + list);
    HeadShape(s, list);
    BodyIsNoMacro();
    SpellReads(BODY);
    Cons(Spell(BODY), args);
    NotKeyword('[');
    FieldsSection(s.parts, s.negate, list);
    var sec := ParseSection(args);
    if sec.Good? {
      SubstringKeeps(sec.rest, sec.value.value);
      NoSubstring(sec.value.value);
    }
  }

  lemma HeadShape(s: Section, list: Stream)
    requires s.FieldsOf?
    ensures FieldsHead(s, false) + (["("] + list)
      == [Spell(BODY)] + (["["] + (Dotted(s.parts) + (FieldsWord(s.negate) + (["("] + list))))
  {
    hide Spell, Dotted, FieldsWord;
    var b, d, w := [Spell(BODY)], Dotted(s.parts), FieldsWord(s.negate);
    EmptyConcat(b);
    assert (b + (["["] + (d + w))) + (["("] + list) == b + (["["] + (d + (w + (["("] + list))));
  }

  lemma BodyIsNoMacro()
    ensures FindMacro(Spell(BODY)) == None && Spell(BODY)[0] != '('
  {
    UpperSpelling(BODY);
  }

  lemma NoSubstring(c: Closure)
    ensures ParseSubstring([], c) == Good(c, [])
  {
  }

  /** A bracketed `HEADER.FIELDS` and whatever stands behind its parenthesis. */
  lemma FieldsSection(parts: seq<nat>, negate: bool, list: Stream)
    requires GoodParts(parts)
    ensures var r, found := ParseSection(["["] + (Dotted(parts) + (FieldsWord(negate) + (["("] + list)))), ParseNameList(list);
      && (r.Good? ==> r.value.Some? && found.Good? && r.value.value.headers == found.value)
      && (found.Good? && found.rest == ["]"] ==>
        r == Good(Some(Fresh(HeaderFields, Name.Section).(parts := parts, negate := negate, headers := found.value)), []))
  {
    hide ParseSpec, Dotted, FieldsWord, ParseNameList;
    var spec := Dotted(parts) + (FieldsWord(negate) + (["("] + list));
    assert spec != [];
    Cons("[", spec);
    FieldsSpec(parts, negate, list);
    EmptyConcat(["]"]);
    Cons("]", []);
  }

  /** The name of a section with header names is read back as that section if and only if
      its header names are legible. */
  lemma FieldsNameReads(s: Section)
    requires s.FieldsOf? && GoodSection(s) && AllAcceptable(s.names) && NulFree(s.names)
    ensures ReadName(ResponseName(SectionClosure(s))) == Good([SectionClosure(s)], []) <==> Legible(s.names)
  {
    hide ResponseName, SectionClosure, GoodSection, AllAcceptable, NulFree, Legible, NamesText, ParseMacro, ListOf,
      ParseNameList, FieldsHead, Lex, CutAll, Nuls, Region, OnLine;
    var names, text := s.names, ResponseName(SectionClosure(s));
    var k := |text| + 1;
    if LF in NamesText(names, []) {
      if Legible(names) { LegibleText(names, []); }
      BreakInName(s);
    } else {
      var r := FieldsRegion(names);
      RegionOfNames(names);
      NameIsLonger(s);
      FieldsLex(s, k);
      OnLineHasNoBreak(text);
      if Legible(names) {
        LegibleReads(names, k - 2);
        NamesParseAgain(names);
        FieldsMacro(s, names + ([")"] + ["]"]));
      } else if ListOf(r, k - 2).Some? {
        FieldsMacro(s, ListOf(r, k - 2).value);
        if ReadName(text) == Good([SectionClosure(s)], []) { ReadAgain(names, k - 2); }
      }
    }
  }

  lemma OnLineHasNoBreak(t: string)
    requires OnLine(t)
    ensures LF !in t
  {
  }

  lemma BreakInName(s: Section)
    requires s.FieldsOf? && LF in NamesText(s.names, [])
    ensures LF in ResponseName(SectionClosure(s))
  {
    hide Flat, FieldsHead, ResponseName, NamesText;
    FieldsName(s);
  }

  lemma NameIsLonger(s: Section)
    requires s.FieldsOf?
    ensures |ResponseName(SectionClosure(s))| >= |FieldsRegion(s.names)| + 2
    ensures |FieldsRegion(s.names)| == |NamesText(s.names, [])| + 2
  {
    hide Flat, FieldsHead, ResponseName, NamesText;
    FieldsName(s);
  }

  lemma NamesParseAgain(names: seq<string>)
    requires AllAcceptable(names)
    ensures ParseNameList(names + ([")"] + ["]"])) == Good(names, ["]"])
  {
    NamesParse(names, ["]"]);
    PlainPieces(names);
  }

  lemma {:induction false} PlainPieces(names: seq<string>)
    requires AllAcceptable(names)
    ensures NamePieces(names) == names
    decreases |names|
  {
    hide Cut;
    if names != [] {
      assert Acceptable(names[0]);
      PlainPieces(names[1..]);
      NameCuts(names[0]);
      HeadTail(names);
    }
  }

  // ----- all sections -----

  /** The header names of a section are legible, if it has any. */
  predicate LegibleSection(s: Section) {
    s.FieldsOf? ==> Legible(s.names)
  }

  predicate CleanSection(s: Section) {
    s.FieldsOf? ==> AllAcceptable(s.names) && NulFree(s.names)
  }

  /** For every section the parser accepts, the name printed in the response, read by the
      tokenizers and the parser, gives back handler, parts, tag, negation and header names,
      if and only if its header names are legible. */
  lemma NameReadsBack(s: Section)
    requires GoodSection(s) && CleanSection(s)
    ensures ReadName(ResponseName(SectionClosure(s))) == Good([SectionClosure(s)], []) <==> LegibleSection(s)
  {
    if s.FieldsOf? { FieldsNameReads(s); } else { PlainNameReads(s); }
  }

  /** Different sections with legible names never share a name. */
  lemma NamesAreUnique(s1: Section, s2: Section)
    requires GoodSection(s1) && CleanSection(s1) && LegibleSection(s1)
    requires GoodSection(s2) && CleanSection(s2) && LegibleSection(s2)
    requires ResponseName(SectionClosure(s1)) == ResponseName(SectionClosure(s2))
    ensures SectionClosure(s1) == SectionClosure(s2)
  {
    hide ResponseName, SectionClosure, GoodSection, CleanSection, LegibleSection, ReadName;
    NameReadsBack(s1);
    NameReadsBack(s2);
  }

  /** One name with a blank in it, and two names: the same response name. */
  lemma NamesCollide(parts: seq<nat>, negate: bool)
    ensures var s1, s2 := FieldsOf(parts, negate, ["X Y"]), FieldsOf(parts, negate, ["X", "Y"]);
      && CleanSection(s1) && CleanSection(s2) && SectionClosure(s1) != SectionClosure(s2)
      && ResponseName(SectionClosure(s1)) == ResponseName(SectionClosure(s2))
  {
    hide SectionPart;
    var one, two := ["X Y"], ["X", "Y"];
    assert two[..1] == ["X"];
    assert JoinNames(two) == "X" + BLANK + "Y" == "X Y" == JoinNames(one);
  }

  /** The first of them is accepted by the server, written as a quoted string. */
  lemma BlankInNameIsAccepted()
    ensures ParseSection(["["] + (FieldsWord(false) + (["("] + ["X Y", ")", "]"])))
      == Good(Some(SectionClosure(FieldsOf([], false, ["X Y"]))), [])
  {
    hide FieldsWord, ParseSection;
    var list := ["X Y", ")", "]"];
    assert list == ["X Y"] + ([")"] + ["]"]);
    NamesParseAgain(["X Y"]);
    EmptyConcat(FieldsWord(false) + (["("] + list));
    FieldsSection([], false, list);
  }
}
