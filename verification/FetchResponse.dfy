/** What a FETCH response calls a section, and whether that names the section the
    client asked for. */
module FetchResponse {
  import opened Text
  import opened Numbers
  import opened Lexer
  import opened Pieces
  import opened CommandWriter
  import opened FetchSyntax
  import opened FetchParser
  import opened FetchTheorems
  import opened FetchText

  // ----- printing -----

  /** Numbers separated by dots. */
  function DotText(parts: seq<nat>): string {
    if parts == [] then []
    else if |parts| == 1 then Dec(parts[0])
    else DotText(parts[..|parts| - 1]) + "." + Dec(parts[|parts| - 1])
  }

  function JoinNames(names: seq<string>): string {
    if names == [] then []
    else if |names| == 1 then names[0]
    else JoinNames(names[..|names| - 1]) + BLANK + names[|names| - 1]
  }

  /** What `fetch_send_section_part` sends. */
  function SectionPart(parts: seq<nat>, suffix: Option<string>, close: bool): string {
    "BODY[" + DotText(parts)
    + (if suffix.Some? then (if parts != [] then "." else "") + suffix.value else "")
    + (if close then "]" else "")
  }

  const FIELDS_TEXT: string := "HEADER.FIELDS"

  /** The name of a section in the response. */
  function ResponseName(c: Closure): string {
    if c.fun == HeaderFields then
      SectionPart(c.parts, Some(FIELDS_TEXT), false) + (if c.negate then ".NOT" else "")
      + " (" + JoinNames(c.headers) + ")]"
    else if c.fun == Body || c.tag.None? then SectionPart(c.parts, None, true)
    else SectionPart(c.parts, Some(Spell(c.tag.value)), true)
  }

  method SendSectionPart(parts: seq<nat>, suffix: Option<string>, close: bool) returns (out: string)
    ensures out == SectionPart(parts, suffix, close)
  {
    out := "BODY[";
    var i := 0;
    EmptyConcat(out);
    while i < |parts|
      invariant 0 <= i <= |parts| && out == "BODY[" + DotText(parts[..i])
    {
      assert parts[..i + 1][..i] == parts[..i];
      if i > 0 {
        ConcatAssoc("BODY[", DotText(parts[..i]), ".");
        ConcatAssoc("BODY[", DotText(parts[..i]) + ".", Dec(parts[i]));
        out := out + ".";
      }
      out := out + Dec(parts[i]);
      i := i + 1;
    }
    assert parts[..i] == parts;
    if suffix.Some? {
      if i > 0 {
        ConcatAssoc(out, ".", suffix.value);
        out := out + ".";
      } else {
        EmptyConcat(suffix.value);
      }
      out := out + suffix.value;
    } else {
      EmptyConcat(out);
    }
    if close { out := out + "]"; } else { EmptyConcat(out); }
  }

  method SendNames(names: seq<string>) returns (out: string)
    ensures out == JoinNames(names)
  {
    out := "";
    var i := 0;
    while i < |names|
      invariant 0 <= i <= |names| && out == JoinNames(names[..i])
    {
      assert names[..i + 1][..i] == names[..i];
      if i > 0 { out := out + " "; }
      EmptyConcat(names[i]);
      out := out + names[i];
      i := i + 1;
    }
    assert names[..i] == names;
  }

  /** The first part of the `_frt_` functions for sections. */
  method SendName(c: Closure) returns (out: string)
    ensures out == ResponseName(c)
  {
    if c.fun == HeaderFields {
      out := SendSectionPart(c.parts, Some(FIELDS_TEXT), false);
      if c.negate { out := out + ".NOT"; } else { EmptyConcat(out); }
      out := out + " (";
      var names := SendNames(c.headers);
      out := out + names;
      out := out + ")]";
    } else if c.fun == Body {
      out := SendSectionPart(c.parts, None, true);
    } else {
      out := SendSectionPart(c.parts, if c.tag.Some? then Some(Spell(c.tag.value)) else None, true);
    }
  }

  // ----- the printed name is a request -----

  lemma {:induction false} DotTextIsFlat(parts: seq<nat>, rest: seq<string>)
    requires parts != []
    ensures Flat(PartPieces(parts) + rest) == DotText(parts) + Flat(rest)
    decreases |parts|
  {
    hide Dec;
    if |parts| == 1 {
      ConsDrop(Dec(parts[0]), rest);
    } else {
      var front, last := parts[..|parts| - 1], parts[|parts| - 1];
      PartsSnoc(parts);
      var more := ["."] + ([Dec(last)] + rest);
      assert PartPieces(parts) + rest == PartPieces(front) + more;
      DotTextIsFlat(front, more);
      ConsDrop(".", [Dec(last)] + rest);
      ConsDrop(Dec(last), rest);
      ConcatAssoc(".", Dec(last), Flat(rest));
      ConcatAssoc(DotText(front), "." + Dec(last), Flat(rest));
      ConcatAssoc(DotText(front), ".", Dec(last));
    }
  }

  lemma {:induction false} PartsSnoc(parts: seq<nat>)
    requires |parts| > 1
    ensures PartPieces(parts) == PartPieces(parts[..|parts| - 1]) + [".", Dec(parts[|parts| - 1])]
    decreases |parts|
  {
    hide Dec;
    var t := parts[1..];
    if |parts| == 2 {
      assert t == [parts[1]] && parts[..1] == [parts[0]];
    } else {
      PartsSnoc(t);
      assert t[..|t| - 1] == parts[..|parts| - 1][1..] && t[|t| - 1] == parts[|parts| - 1];
      ConcatAssoc([Dec(parts[0]), "."], PartPieces(t[..|t| - 1]), [".", Dec(t[|t| - 1])]);
    }
  }

  lemma {:induction false} FlatConcat(a: seq<string>, b: seq<string>)
    ensures Flat(a + b) == Flat(a) + Flat(b)
  {
    if a == [] {
      EmptyConcat(b);
      EmptyConcat(Flat(b));
    } else {
      assert (a + b)[0] == a[0] && (a + b)[1..] == a[1..] + b;
      FlatConcat(a[1..], b);
      ConcatAssoc(a[0], Flat(a[1..]), Flat(b));
    }
  }

  lemma FlatOne(p: string)
    ensures Flat([p]) == p
  {
    assert [p][1..] == [];
    EmptyConcat(p);
  }

  /** The dotted part numbers in front of a word. */
  lemma DottedFlat(parts: seq<nat>, ps: seq<string>)
    ensures Flat(Dotted(parts) + ps) == DotText(parts) + ((if parts != [] then "." else "") + Flat(ps))
  {
    hide PartPieces, DotText, Flat;
    if parts == [] {
      EmptyConcat(ps);
      EmptyConcat(Flat(ps));
      NoDots();
    } else {
      ConcatAssoc(PartPieces(parts), ["."], ps);
      DotTextIsFlat(parts, ["."] + ps);
      FlatConcat(["."], ps);
      FlatOne(".");
    }
  }

  lemma NoDots()
    ensures DotText([]) == []
  {
  }

  lemma BodyFlat(ps: seq<string>)
    ensures Flat(BodyPieces(false) + (["["] + ps)) == "BODY[" + Flat(ps)
  {
    hide Flat;
    EmptyConcat([Spell(BODY)]);
    FlatConcat([Spell(BODY)], ["["] + ps);
    FlatConcat(["["], ps);
    FlatOne(Spell(BODY));
    FlatOne("[");
    ConcatAssoc(Spell(BODY), "[", Flat(ps));
    assert Spell(BODY) + "[" == "BODY[";
  }

  /** The suffix of a section without header names. */
  function Suffix(s: Section): Option<string> {
    if s.TextOf? then Some(Spell(TEXT))
    else if s.HeaderOf? then Some(Spell(HEADER))
    else if s.MimeOf? then Some(Spell(MIME))
    else None
  }

  function PartsOf(s: Section): seq<nat> {
    if s.Whole? then [] else s.parts
  }

  lemma SectionFlat(s: Section)
    requires !s.FieldsOf? && GoodSection(s)
    ensures Flat(SectionPieces(s) + ["]"]) == DotText(PartsOf(s))
      + ((if Suffix(s).Some? then (if PartsOf(s) != [] then "." else "") + Suffix(s).value else "") + "]")
  {
    hide Flat, Dotted, PartPieces, DotText, Spell;
    FlatOne("]");
    NoDots();
    match s
    case Whole => EmptyConcat(["]"]); EmptyConcat("]");
    case Part(ps) =>
      DotTextIsFlat(ps, ["]"]);
      EmptyConcat("]");
    case TextOf(ps) => SuffixFlat(ps, Spell(TEXT));
    case HeaderOf(ps) => SuffixFlat(ps, Spell(HEADER));
    case MimeOf(ps) => SuffixFlat(ps, Spell(MIME));
  }

  lemma SuffixFlat(parts: seq<nat>, word: string)
    ensures Flat(Dotted(parts) + [word] + ["]"]) == DotText(parts) + ((if parts != [] then "." else "") + word + "]")
  {
    hide Flat, Dotted, DotText;
    ConcatAssoc(Dotted(parts), [word], ["]"]);
    DottedFlat(parts, [word] + ["]"]);
    FlatConcat([word], ["]"]);
    FlatOne(word);
    FlatOne("]");
    ConcatAssoc(if parts != [] then "." else "", word, "]");
  }

  lemma PlainName(s: Section)
    requires !s.FieldsOf? && GoodSection(s)
    ensures Flat(ItemPieces(Data(s, false, None))) == ResponseName(SectionClosure(s))
  {
    hide Flat, SectionPieces, DotText, Spell, BodyPieces;
    DataPieces(s, false, None);
    EmptyConcat(["]"]);
    BodyFlat(SectionPieces(s) + ["]"]);
    SectionFlat(s);
    var suffix := if Suffix(s).Some? then (if PartsOf(s) != [] then "." else "") + Suffix(s).value else "";
    ConcatAssoc("BODY[", DotText(PartsOf(s)), suffix + "]");
    ConcatAssoc("BODY[" + DotText(PartsOf(s)), suffix, "]");
  }

  // ----- header names -----

  /** Names with a blank in front of all but the first. */
  function NamesText(names: seq<string>, blanks: string): string {
    if names == [] then [] else blanks + (names[0] + NamesText(names[1..], BLANK))
  }

  lemma {:induction false} NamesSnoc(names: seq<string>, blanks: string)
    requires |names| > 1
    ensures NamesText(names, blanks)
      == NamesText(names[..|names| - 1], blanks) + (BLANK + names[|names| - 1])
    decreases |names|
  {
    var t, last := names[1..], names[|names| - 1];
    var front := names[..|names| - 1];
    assert front[1..] == t[..|t| - 1] && front[0] == names[0] && t[|t| - 1] == last;
    if |names| == 2 {
      assert t == [last] && front[1..] == [];
      OneName(last, BLANK);
      assert NamesText(front, blanks) == blanks + (names[0] + []);
      EmptyConcat(names[0]);
      ConcatAssoc(blanks, names[0], BLANK + last);
    } else {
      NamesSnoc(t, BLANK);
      ConcatAssoc(names[0], NamesText(front[1..], BLANK), BLANK + last);
      ConcatAssoc(blanks, names[0] + NamesText(front[1..], BLANK), BLANK + last);
    }
  }

  lemma OneName(n: string, blanks: string)
    ensures NamesText([n], blanks) == blanks + n
  {
    assert [n][1..] == [];
    EmptyConcat(n);
  }

  lemma {:induction false} NamesJoined(names: seq<string>)
    ensures NamesText(names, []) == JoinNames(names)
    decreases |names|
  {
    if |names| == 1 {
      assert names == [names[0]];
      OneName(names[0], []);
      EmptyConcat(names[0]);
    } else if |names| > 1 {
      NamesSnoc(names, []);
      NamesJoined(names[..|names| - 1]);
      ConcatAssoc(JoinNames(names[..|names| - 1]), BLANK, names[|names| - 1]);
    }
  }

  lemma {:induction false} NamesLine(names: seq<string>, blanks: string, more: seq<Piece>)
    ensures LinePart(NameArgs(names, blanks) + more) == NamesText(names, blanks) + LinePart(more)
    decreases |names|
  {
    if names == [] {
      EmptyConcat(more);
      EmptyConcat(LinePart(more));
    } else {
      var p, rest := Piece(blanks, Atom(names[0])), NameArgs(names[1..], BLANK) + more;
      ConcatAssoc([p], NameArgs(names[1..], BLANK), more);
      LinePartCons(p, rest);
      NamesLine(names[1..], BLANK, more);
      ConcatAssoc(names[0], NamesText(names[1..], BLANK), LinePart(more));
      ConcatAssoc(blanks, names[0] + NamesText(names[1..], BLANK), LinePart(more));
    }
  }

  lemma LinePartCons(p: Piece, ps: seq<Piece>)
    requires !p.item.Literal?
    ensures LinePart([p] + ps) == p.blanks + (Head(p.item) + LinePart(ps))
  {
    hide Head;
    ConsDrop(p, ps);
  }

  lemma LineOne(blanks: string, t: string)
    ensures LinePart([Piece(blanks, Atom(t))]) == blanks + t
  {
    var p := Piece(blanks, Atom(t));
    EmptyConcat([p]);
    LinePartCons(p, []);
    EmptyConcat(t);
  }

  lemma FieldsFlat(s: Section)
    requires s.FieldsOf?
    ensures Flat(FieldsHead(s, false))
      == SectionPart(s.parts, Some(FIELDS_TEXT), false) + (if s.negate then ".NOT" else "")
  {
    hide Flat, DotText, Dotted, BodyPieces, FieldsWord;
    var w := Flat(FieldsWord(s.negate));
    var dot, not := if s.parts != [] then "." else "", if s.negate then ".NOT" else "";
    BodyFlat(Dotted(s.parts) + FieldsWord(s.negate));
    DottedFlat(s.parts, FieldsWord(s.negate));
    FieldsWordText(s.negate);
    ConcatAssoc(dot, FIELDS_TEXT, not);
    ConcatAssoc(DotText(s.parts), dot + FIELDS_TEXT, not);
    ConcatAssoc("BODY[", DotText(s.parts) + (dot + FIELDS_TEXT), not);
    ConcatAssoc("BODY[", DotText(s.parts), dot + FIELDS_TEXT);
    EmptyConcat("BODY[" + DotText(s.parts) + (dot + FIELDS_TEXT));
  }

  lemma FieldsWordText(negate: bool)
    ensures Flat(FieldsWord(negate)) == FIELDS_TEXT + (if negate then ".NOT" else "")
  {
    hide Flat;
    var hf := [Spell(HEADER), ".", Spell(FIELDS)];
    assert hf == [Spell(HEADER)] + (["."] + [Spell(FIELDS)]);
    FlatConcat([Spell(HEADER)], ["."] + [Spell(FIELDS)]);
    FlatConcat(["."], [Spell(FIELDS)]);
    FlatOne(Spell(HEADER));
    FlatOne(".");
    FlatOne(Spell(FIELDS));
    assert Spell(HEADER) + ("." + Spell(FIELDS)) == FIELDS_TEXT;
    if negate {
      assert [".", Spell(NOT)] == ["."] + [Spell(NOT)];
      FlatConcat(["."], [Spell(NOT)]);
      FlatOne(Spell(NOT));
      FlatConcat(hf, [".", Spell(NOT)]);
      assert "." + Spell(NOT) == ".NOT";
    } else {
      EmptyConcat(hf);
      EmptyConcat(FIELDS_TEXT);
    }
  }

  lemma FieldsLine(s: Section)
    requires s.FieldsOf?
    ensures LinePart(ItemArgs(Data(s, false, None), [])) == ResponseName(SectionClosure(s))
  {
    hide Flat, LinePart, DotText, FieldsHead, SectionPart;
    var head, last := Flat(FieldsHead(s, false)), Flat(["]"] + RangePieces(None));
    var p0, p1 := Piece([], Atom(head)), Piece(BLANK, Open);
    var p3, p4 := Piece([], Close), Piece([], Atom(last));
    var names := NameArgs(s.names, []);
    EmptyConcat(["]"]);
    FlatOne("]");
    EmptyConcat([p4]);
    EmptyConcat([p0, p1] + (names + [p3, p4]));
    ArgsShape(p0, p1, names, p3, p4, []);
    LinePartCons(p0, [p1] + (names + ([p3] + [p4])));
    LinePartCons(p1, names + ([p3] + [p4]));
    NamesLine(s.names, [], [p3] + [p4]);
    NamesJoined(s.names);
    LinePartCons(p3, [p4]);
    LineOne([], last);
    FieldsFlat(s);
    TextShape(head, JoinNames(s.names));
  }

  lemma TextShape(head: string, names: string)
    ensures [] + (head + (BLANK + (['('] + (names + ([] + ([')'] + ([] + "]"))))))) == head + " (" + names + ")]"
  {
    assert [')'] + "]" == ")]" && BLANK + ['('] == " (";
    ConcatAssoc(BLANK, ['('], names + ")]");
    ConcatAssoc(head, " (", names + ")]");
    ConcatAssoc(head + " (", names, ")]");
    EmptyConcat("]");
    EmptyConcat(")]");
    EmptyConcat(head + (" (" + (names + ")]")));
  }

  lemma NameLine(s: Section)
    requires GoodSection(s)
    ensures LinePart(ItemArgs(Data(s, false, None), [])) == ResponseName(SectionClosure(s))
  {
    hide LinePart, Flat, ItemPieces, ResponseName, SectionClosure, GoodSection;
    if s.FieldsOf? {
      FieldsLine(s);
    } else {
      PlainName(s);
      LineOne([], Flat(ItemPieces(Data(s, false, None))));
      EmptyConcat(Flat(ItemPieces(Data(s, false, None))));
    }
  }

  // ----- what the parser can produce -----

  /** A section whose last dot has nothing behind it: `BODY[1.]`. */
  predicate Dangling(c: Closure) {
    c.fun == BodyText && c.tag.None?
  }

  function SectionOf(c: Closure): Section {
    match c.fun
    case BodyN => Part(c.parts)
    case BodyText => TextOf(c.parts)
    case Header => HeaderOf(c.parts)
    case Mime => MimeOf(c.parts)
    case HeaderFields => FieldsOf(c.parts, c.negate, c.headers)
    case Body => Whole
    case Size => Whole
    case BodyStructure => Whole
    case BodyStructure0 => Whole
    case Attribute(_) => Whole
  }

  /** Closures of sections, except for what their header names look like. */
  predicate Shaped(c: Closure) {
    && c == SectionClosure(SectionOf(c))
    && GoodParts(c.parts)
    && (c.fun == BodyN || c.fun == Mime ==> c.parts != [])
    && c.fun in {Body, BodyN, BodyText, Header, Mime, HeaderFields}
  }

  predicate DanglingShape(c: Closure) {
    Dangling(c) && c.parts != [] && GoodParts(c.parts) && c == Fresh(BodyText, Name.Section).(parts := c.parts)
  }

  lemma {:induction false} PartsAreGood(ts: Stream)
    requires ts != []
    ensures ParseParts(ts).Good? ==> GoodParts(ParseParts(ts).value) && ParseParts(ts).value != []
    decreases |ts|
  {
    if GetNumber(ts[0]).Some? && Need(ts).Good? {
      var t1 := ts[1..];
      if At(t1, '.') && |t1| > 1 && t1[1] != [] && IsDigit(t1[1][0]) { PartsAreGood(t1[1..]); }
    }
  }

  lemma TextShapes(ts: Stream, parts: seq<nat>, mime: bool)
    requires ts != [] && GoodParts(parts) && (mime ==> parts != [])
    ensures var r := ParseSectionText(ts, Fresh(BodyText, Name.Section).(parts := parts), mime);
      r.Good? && r.value.Some? ==> Shaped(r.value.value)
  {
    hide KeywordOf, ParseNames;
  }

  /** Every section the parser accepts is well formed, or ends in a dot. */
  lemma ParsedShapes(ts: Stream)
    requires ts != []
    ensures ParseSection(ts).Good? && ParseSection(ts).value.Some? ==>
      Shaped(ParseSection(ts).value.value) || DanglingShape(ParseSection(ts).value.value)
  {
    hide KeywordOf, ParseSectionText, ParseParts, GetNumber;
    if At(ts, '[') && |ts| > 1 {
      var t1, c := ts[1..], Fresh(BodyText, Name.Section);
      TextShapes(t1, [], false);
      assert c.(parts := []) == c;
      PartsAreGood(t1);
      var p := ParseParts(t1);
      if p.Good? && |p.rest| > 1 { TextShapes(p.rest[1..], p.value, true); }
    }
  }

  /** The family that fails is not empty: `BODY[1.]`. */
  lemma DanglingIsAccepted()
    ensures ParseSection(["[", "1", ".", "]"])
      == Good(Some(Fresh(BodyText, Name.Section).(parts := [1])), [])
  {
    hide KeywordOf, ParseParts, ParsePartSection;
    var rest := ["1"] + (["."] + ["]"]);
    assert ["[", "1", ".", "]"] == ["["] + rest;
    Cons("[", rest);
    Cons("1", ["."] + ["]"]);
    DanglingPart();
    NoKeyword("1");
    EmptyConcat(["]"]);
    Cons("]", []);
  }

  lemma DanglingPart()
    ensures ParsePartSection(["1"] + (["."] + ["]"]), Fresh(BodyText, Name.Section))
      == Good(Fresh(BodyText, Name.Section).(parts := [1]), ["]"])
  {
    hide KeywordOf, ParseParts;
    OneIsOne();
    NotKeyword(']');
    PartsParse([1], ["."] + ["]"]);
    assert PartPieces([1]) == [Dec(1)];
    Cons(".", ["]"]);
  }

  lemma OneIsOne()
    ensures Dec(1) == "1"
  {
  }
}
