/** What a client asks for is what the server parses, item by item and for whole
    lists. */
module FetchTheorems {
  import opened Text
  import opened Numbers
  import opened Pieces
  import opened FetchSyntax
  import opened FetchParser

  // ----- streams -----

  lemma Cons(t: string, ts: Stream)
    ensures ([t] + ts)[0] == t && ([t] + ts)[1..] == ts
    ensures ts != [] ==> Need([t] + ts) == Good((), ts)
    ensures Skip([t] + ts) == ts
  {
    ConsDrop(t, ts);
  }

  lemma Two(a: string, b: string, ts: Stream)
    ensures [a, b] + ts == [a] + ([b] + ts)
  {
  }

  lemma Number(n: nat)
    requires n <= ULONG_MAX
    ensures GetNumber(Dec(n)) == Some(n) && KeywordOf(Dec(n)) == Other
  {
    EmptyConcat(Dec(n));
    UlongRoundTrip(n, []);
    NoKeyword(Dec(n));
  }

  lemma NotKeyword(c: char)
    requires c in "()[]<>."
    ensures KeywordOf([c]) == Other
  {
    NoKeyword([c]);
  }

  // ----- numbers -----

  /** No further part number follows. */
  predicate PartsEnd(rest: Stream) {
    rest != [] && !(At(rest, '.') && |rest| > 1 && rest[1] != [] && IsDigit(rest[1][0]))
  }

  lemma {:induction false} PartsParse(parts: seq<nat>, rest: Stream)
    requires parts != [] && GoodParts(parts) && PartsEnd(rest)
    ensures ParseParts(PartPieces(parts) + rest) == Good(parts, rest)
    decreases |parts|
  {
    hide KeywordOf, GetNumber;
    var n := parts[0];
    Number(n);
    HeadTail(parts);
    if |parts| == 1 {
      Cons(Dec(n), rest);
      assert parts == [n];
    } else {
      var more := PartPieces(parts[1..]) + rest;
      PartsParse(parts[1..], rest);
      PartsStart(parts[1..], rest);
      assert PartPieces(parts) + rest == [Dec(n)] + (["."] + more);
      Cons(Dec(n), ["."] + more);
      Cons(".", more);
    }
  }

  lemma PartsStart(parts: seq<nat>, rest: Stream)
    requires parts != []
    ensures PartPieces(parts) != [] && PartPieces(parts)[0] == Dec(parts[0])
    ensures (PartPieces(parts) + rest)[0] == Dec(parts[0])
  {
  }

  // ----- header names -----

  lemma NameCuts(n: string)
    requires n != [] && Undelimited(n)
    ensures Cut(n, DELIMITERS) == [n]
  {
    EmptyConcat(n);
    assert Flat([n]) == n by { assert [n][1..] == []; }
    CutIsUnique([n], DELIMITERS);
  }

  /** A name that is not accepted comes in pieces of which one of the first two is a
      delimiter, or it is taken for the end of the list. */
  lemma RefusedName(n: string, more: Stream)
    requires n != [] && !Acceptable(n)
    ensures var ts := Cut(n, DELIMITERS) + more;
      ts != [] && (ParseNames(ts).Good? ==> ParseNames(ts).value == [])
  {
    var ps := Cut(n, DELIMITERS);
    CutIsFaithful(n, DELIMITERS);
    assert ps[0][0] == n[0] by { assert Flat(ps)[0] == ps[0][0]; }
    var ts := ps + more;
    if n[0] != ')' {
      if |ps| == 1 {
        assert n == ps[0] by { assert ps[1..] == []; EmptyConcat(ps[0]); }
      } else if ps[0][0] !in DELIMITERS {
        assert ts[1..][0] == ps[1];
      }
    }
  }

  /** A list of names is parsed to these names if and only if each of them is accepted. */
  lemma {:induction false} NamesParse(names: seq<string>, rest: Stream)
    requires (forall i :: 0 <= i < |names| ==> names[i] != []) && rest != []
    ensures var r := ParseNames(NamePieces(names) + ([")"] + rest));
      && (AllAcceptable(names) ==> r == Good(names, rest))
      && (!AllAcceptable(names) && r.Good? ==> |r.value| < |names|)
    decreases |names|
  {
    hide Acceptable, Cut;
    if names == [] {
      EmptyConcat([")"] + rest);
      Cons(")", rest);
    } else {
      var n, more := names[0], NamePieces(names[1..]) + ([")"] + rest);
      ConcatAssoc(Cut(n, DELIMITERS), NamePieces(names[1..]), [")"] + rest);
      assert AllAcceptable(names) <==> Acceptable(n) && AllAcceptable(names[1..]) by {
        assert forall i :: 0 <= i < |names| - 1 ==> names[1..][i] == names[i + 1];
        if Acceptable(n) && AllAcceptable(names[1..]) {
          forall i | 0 <= i < |names| ensures Acceptable(names[i]) {
            if i > 0 { assert names[i] == names[1..][i - 1]; }
          }
        }
      }
      NamesParse(names[1..], rest);
      if Acceptable(n) {
        AcceptedName(n, more);
        HeadTail(names);
      } else {
        RefusedName(n, more);
      }
    }
  }

  lemma AcceptedName(n: string, more: Stream)
    requires Acceptable(n) && more != []
    ensures var r := ParseNames(more);
      ParseNames(Cut(n, DELIMITERS) + more) == if r.Good? then Good([n] + r.value, r.rest) else r
  {
    NameCuts(n);
    Cons(n, more);
  }

  // ----- section texts -----

  /** The list of header names behind its opening parenthesis. */
  function ParseNameList(list: Stream): Parsed<seq<string>> {
    if list == [] then Bad(TooFew) else ParseNames(list)
  }

  /** What becomes of a closure when its header names have been parsed. */
  function WithNames(c: Closure, negate: bool, r: Parsed<seq<string>>): Parsed<Closure> {
    match r
    case Bad(e) => Bad(e)
    case Good(names, rest) => Good(c.(fun := HeaderFields, negate := negate, headers := names), rest)
  }

  /** The pieces behind the part numbers, for sections without header names. */
  function TextPieces(s: Section): seq<string>
    requires s.TextOf? || s.HeaderOf? || s.MimeOf?
  {
    match s
    case TextOf(_) => [Spell(TEXT)]
    case HeaderOf(_) => [Spell(HEADER)]
    case MimeOf(_) => [Spell(MIME)]
  }

  function TextClosure(s: Section, c: Closure): Closure
    requires s.TextOf? || s.HeaderOf? || s.MimeOf?
  {
    match s
    case TextOf(_) => c.(fun := BodyText, tag := Some(TEXT))
    case HeaderOf(_) => c.(fun := Header, tag := Some(HEADER))
    case MimeOf(_) => c.(fun := Mime, tag := Some(MIME))
  }

  lemma FieldsShape(negate: bool, open: Stream)
    ensures FieldsWord(negate) + open
      == [Spell(HEADER)] + (["."] + ([Spell(FIELDS)] + (if negate then ["."] + ([Spell(NOT)] + open) else open)))
  {
    hide Spell;
    if negate {
      assert [Spell(HEADER), ".", Spell(FIELDS)] + [".", Spell(NOT)] + open
        == [Spell(HEADER)] + (["."] + ([Spell(FIELDS)] + (["."] + ([Spell(NOT)] + open))));
    } else {
      assert [Spell(HEADER), ".", Spell(FIELDS)] + [] + open == [Spell(HEADER)] + (["."] + ([Spell(FIELDS)] + open));
    }
  }

  lemma OpenList(list: Stream)
    ensures ParseHeaderList(["("] + list) == ParseNameList(list)
  {
    if list == [] { EmptyConcat(["("]); } else { Cons("(", list); }
  }

  lemma FieldsParse(negate: bool, list: Stream, c: Closure)
    ensures var open := ["("] + list;
      ParseFields([Spell(FIELDS)] + (if negate then ["."] + ([Spell(NOT)] + open) else open), c)
      == WithNames(c, negate, ParseNameList(list))
  {
    hide Spell, KeywordOf, ParseNameList, ParseHeaderList;
    var open := ["("] + list;
    OpenList(list);
    SpellReads(FIELDS);
    if negate {
      SpellReads(NOT);
      Cons(Spell(FIELDS), ["."] + ([Spell(NOT)] + open));
      Cons(".", [Spell(NOT)] + open);
      Cons(Spell(NOT), open);
    } else {
      Cons(Spell(FIELDS), open);
    }
  }

  /** The result of `parse_section_text` on `HEADER.FIELDS` and whatever follows. */
  lemma FieldsText(negate: bool, list: Stream, c: Closure, allowMime: bool)
    ensures var ts, r := FieldsWord(negate) + (["("] + list), WithNames(c, negate, ParseNameList(list));
      && ts != []
      && ParseSectionText(ts, c, allowMime) == if r.Good? then Good(Some(r.value), r.rest) else Bad(r.error)
  {
    hide Spell, KeywordOf, ParseFields, ParseNameList;
    var open := ["("] + list;
    var fields := [Spell(FIELDS)] + (if negate then ["."] + ([Spell(NOT)] + open) else open);
    FieldsShape(negate, open);
    FieldsParse(negate, list, c);
    SpellReads(HEADER);
    Cons(Spell(HEADER), ["."] + fields);
    Cons(".", fields);
  }

  lemma TextParses(s: Section, rest: Stream, c: Closure, allowMime: bool)
    requires (s.TextOf? || s.HeaderOf? || s.MimeOf?) && GoodSection(s) && (s.MimeOf? ==> allowMime)
    requires rest != [] && !At(rest, '.')
    ensures ParseSectionText(TextPieces(s) + rest, c, allowMime)
      == Good(Some(TextClosure(s, c)), rest)
  {
    hide Spell, KeywordOf, ParseFields;
    match s
    case TextOf(_) =>
      SpellReads(TEXT);
      Cons(Spell(TEXT), rest);
    case HeaderOf(_) =>
      SpellReads(HEADER);
      Cons(Spell(HEADER), rest);
    case MimeOf(_) =>
      SpellReads(MIME);
      Cons(Spell(MIME), rest);
  }

  lemma TextStarts(s: Section, rest: Stream)
    requires s.TextOf? || s.HeaderOf? || s.MimeOf?
    ensures TextPieces(s) + rest != [] && (TextPieces(s) + rest)[0] != []
    ensures IsLetter((TextPieces(s) + rest)[0][0])
  {
    hide Spell;
    SpellingShape(TEXT);
    SpellingShape(HEADER);
    SpellingShape(MIME);
  }

  lemma DottedShape(parts: seq<nat>, text: Stream)
    ensures parts == [] ==> Dotted(parts) + text == text
    ensures parts != [] ==> Dotted(parts) + text == PartPieces(parts) + (["."] + text)
  {
    hide PartPieces;
    if parts == [] { EmptyConcat(text); } else { ConcatAssoc(PartPieces(parts), ["."], text); }
  }

  /** Part numbers come first, and are no keywords. */
  lemma PartsLead(parts: seq<nat>, rest: Stream)
    requires parts != [] && GoodParts(parts)
    ensures PartPieces(parts) + rest != [] && (PartPieces(parts) + rest)[0] == Dec(parts[0])
    ensures KeywordOf(Dec(parts[0])) == Other
  {
    hide KeywordOf;
    PartsStart(parts, rest);
    Number(parts[0]);
  }

  /** A section text behind its part numbers: what `parse_section_text` gives. */
  lemma DottedSpec(parts: seq<nat>, text: Stream, r: Parsed<Option<Closure>>)
    requires GoodParts(parts) && text != [] && text[0] != [] && IsLetter(text[0][0])
    requires r == ParseSectionText(text, Fresh(BodyText, Name.Section).(parts := parts), parts != [])
    requires r.Good? ==> r.value.Some?
    ensures ParseSpec(Dotted(parts) + text, Fresh(BodyText, Name.Section))
      == if r.Good? then Good(r.value.value, r.rest) else Bad(r.error)
  {
    hide Spell, PartPieces, ParseParts, ParseSectionText, KeywordOf;
    var c := Fresh(BodyText, Name.Section);
    DottedShape(parts, text);
    if parts == [] {
      assert c.(parts := []) == c;
    } else {
      Cons(".", text);
      PartsParse(parts, ["."] + text);
      PartsLead(parts, ["."] + text);
      NoText(PartPieces(parts) + (["."] + text), c);
    }
  }

  lemma NoText(ts: Stream, c: Closure)
    requires ts != [] && KeyOf(ts) == Other
    ensures ParseSectionText(ts, c, false) == Good(None, ts)
  {
  }

  /** `HEADER.FIELDS` between brackets, with whatever stands behind its parenthesis. */
  lemma FieldsSpec(parts: seq<nat>, negate: bool, list: Stream)
    requires GoodParts(parts)
    ensures ParseSpec(Dotted(parts) + (FieldsWord(negate) + (["("] + list)), Fresh(BodyText, Name.Section))
      == WithNames(Fresh(BodyText, Name.Section).(parts := parts), negate, ParseNameList(list))
  {
    hide Spell, ParseSectionText, ParseNameList, Dotted;
    var text, c := FieldsWord(negate) + (["("] + list), Fresh(BodyText, Name.Section).(parts := parts);
    FieldsText(negate, list, c, parts != []);
    SpellingShape(HEADER);
    assert text[0] == Spell(HEADER);
    DottedSpec(parts, text, ParseSectionText(text, c, parts != []));
  }

  lemma FieldsEnd(s: Section, end: Stream)
    requires s.FieldsOf?
    ensures SectionPieces(s) + end
      == Dotted(s.parts) + (FieldsWord(s.negate) + (["("] + (NamePieces(s.names) + ([")"] + end))))
  {
    hide Dotted, FieldsWord, NamePieces;
    var d, w, ns := Dotted(s.parts), FieldsWord(s.negate), NamePieces(s.names);
    ConcatAssoc(ns, [")"], end);
    ConcatAssoc(["("], ns + [")"], end);
    ConcatAssoc(w, ["("] + (ns + [")"]), end);
    ConcatAssoc(d, w + (["("] + (ns + [")"])), end);
  }

  /** Between the brackets: the closure of the section, exactly if its names are taken. */
  lemma SpecParses(s: Section, end: Stream)
    requires GoodSection(s) && At(end, ']') && end[0] == "]"
    ensures var r := ParseSpec(SectionPieces(s) + end, Fresh(BodyText, Name.Section));
      && (NamesTaken(s) ==> r == Good(SectionClosure(s), end))
      && (!NamesTaken(s) && r.Good? ==> |r.value.headers| < |SectionClosure(s).headers|)
  {
    hide Spell, PartPieces, ParsePartSection, ParseSpec, KeywordOf, Dotted, FieldsWord, NamePieces, AllAcceptable;
    var c := Fresh(BodyText, Name.Section);
    match s
    case Whole => WholeParses(end);
    case Part(ps) => PartParses(ps, end);
    case FieldsOf(ps, negate, names) =>
      FieldsEnd(s, end);
      FieldsSpec(ps, negate, NamePieces(names) + ([")"] + end));
      NamesParse(names, end);
    case TextOf(ps) => TextSpec(s, end);
    case HeaderOf(ps) => TextSpec(s, end);
    case MimeOf(ps) => TextSpec(s, end);
  }

  lemma TextSpec(s: Section, end: Stream)
    requires (s.TextOf? || s.HeaderOf? || s.MimeOf?) && GoodSection(s) && end != [] && !At(end, '.')
    ensures ParseSpec(SectionPieces(s) + end, Fresh(BodyText, Name.Section)) == Good(SectionClosure(s), end)
  {
    hide Spell, ParseSectionText, Dotted;
    var c := Fresh(BodyText, Name.Section).(parts := s.parts);
    ConcatAssoc(Dotted(s.parts), TextPieces(s), end);
    TextStarts(s, end);
    TextParses(s, end, c, s.parts != []);
    DottedSpec(s.parts, TextPieces(s) + end, ParseSectionText(TextPieces(s) + end, c, s.parts != []));
  }

  lemma WholeParses(end: Stream)
    requires At(end, ']') && end[0] == "]"
    ensures ParseSpec([] + end, Fresh(BodyText, Name.Section)) == Good(SectionClosure(Whole), end)
  {
    hide KeywordOf;
    EmptyConcat(end);
    NotKeyword(']');
  }

  lemma PartParses(parts: seq<nat>, end: Stream)
    requires GoodParts(parts) && parts != [] && At(end, ']')
    ensures ParseSpec(PartPieces(parts) + end, Fresh(BodyText, Name.Section)) == Good(SectionClosure(Part(parts)), end)
  {
    hide PartPieces, ParseParts, ParseSectionText, KeywordOf;
    var c := Fresh(BodyText, Name.Section);
    PartsParse(parts, end);
    PartsLead(parts, end);
    NoText(PartPieces(parts) + end, c);
  }

  // ----- items -----

  /** A section is parsed to its closure if and only if its header names are accepted. */
  lemma SectionParses(s: Section, rest: Stream)
    requires GoodSection(s)
    ensures var r := ParseSection(["["] + (SectionPieces(s) + (["]"] + rest)));
      && (NamesTaken(s) ==> r == Good(Some(SectionClosure(s)), rest))
      && (!NamesTaken(s) && r.Good? && r.value.Some? ==> |r.value.value.headers| < |SectionClosure(s).headers|)
      && (r.Good? ==> r.value.Some?)
  {
    hide ParseSpec, SectionPieces, NamesTaken, SectionClosure;
    Cons("]", rest);
    SpecParses(s, ["]"] + rest);
    Cons("[", SectionPieces(s) + (["]"] + rest));
  }

  lemma RangeParses(r: Range, rest: Stream, c: Closure)
    requires r.start <= ULONG_MAX && r.size <= ULONG_MAX
    ensures ParseSubstring(RangePieces(Some(r)) + rest, c) == Good(c.(start := r.start, size := r.size), rest)
  {
    hide GetNumber;
    Number(r.start);
    Number(r.size);
    var ts := RangePieces(Some(r)) + rest;
    assert ts[0] == "<" && ts[1] == Dec(r.start) && ts[2] == "." && ts[3] == Dec(r.size) && ts[4] == ">";
    assert ts[5..] == rest;
  }

  lemma BodyArgsParse(s: Section, peek: bool, range: Option<Range>, rest: Stream)
    requires GoodRequest(Data(s, peek, range)) && (range.None? ==> !At(rest, '<'))
    ensures var end := RangePieces(range) + rest;
      var r := ParseBodyArgs(["["] + (SectionPieces(s) + (["]"] + end)), peek);
      && (NamesTaken(s) ==> r == Good(Some(ItemClosures(Data(s, peek, range), false)[0]), rest))
      && (!NamesTaken(s) && r.Good? ==> r.value.Some? && |r.value.value.headers| < |SectionClosure(s).headers|)
  {
    hide ParseSection, SectionPieces, SectionClosure, GoodSection, NamesTaken, ParseSubstring, RangePieces;
    var end := RangePieces(range) + rest;
    SectionParses(s, end);
    SubstringParses(range, rest, SectionClosure(s));
    var r := ParseSection(["["] + (SectionPieces(s) + (["]"] + end)));
    if r.Good? { SubstringKeeps(r.rest, r.value.value); }
  }

  lemma SubstringParses(range: Option<Range>, rest: Stream, c: Closure)
    requires range.Some? ==> range.value.start <= ULONG_MAX && range.value.size <= ULONG_MAX
    requires range.None? ==> !At(rest, '<')
    ensures ParseSubstring(RangePieces(range) + rest, c)
      == Good(if range.None? then c else c.(start := range.value.start, size := range.value.size), rest)
  {
    if range.Some? { RangeParses(range.value, rest, c); } else { EmptyConcat(rest); }
  }

  lemma SubstringKeeps(ts: Stream, c: Closure)
    ensures ParseSubstring(ts, c).Good? ==> ParseSubstring(ts, c).value.headers == c.headers
  {
  }

  lemma DataShape(s: Section, peek: bool, range: Option<Range>, rest: Stream)
    ensures var args := ["["] + (SectionPieces(s) + (["]"] + (RangePieces(range) + rest)));
      ItemPieces(Data(s, peek, range)) + rest
      == [Spell(BODY)] + (if peek then ["."] + ([Spell(PEEK)] + args) else args)
  {
    hide Spell, SectionPieces, RangePieces;
    var b, p, r := Spell(BODY), Spell(PEEK), RangePieces(range);
    var sp := SectionPieces(s);
    if peek {
      assert [b] + [".", p] + ["["] + sp + ["]"] + r + rest == [b] + (["."] + ([p] + (["["] + (sp + (["]"] + (r + rest))))));
    } else {
      assert [b] + [] + ["["] + sp + ["]"] + r + rest == [b] + (["["] + (sp + (["]"] + (r + rest))));
    }
  }

  /** An item whose header names are not accepted is refused, or parsed to something else. */
  predicate Differs(r: Parsed<Option<seq<Closure>>>, item: FetchSyntax.Item) {
    r.Good? ==>
      && r.value.Some? && |r.value.value| == 1 && item.Data?
      && |r.value.value[0].headers| < |SectionClosure(item.section).headers|
  }

  predicate ItemTaken(item: FetchSyntax.Item) {
    item.Data? ==> NamesTaken(item.section)
  }

  lemma DataParses(s: Section, peek: bool, range: Option<Range>, rest: Stream, isuid: bool)
    requires GoodRequest(Data(s, peek, range)) && (range.None? ==> !At(rest, '<'))
    ensures var ts := ItemPieces(Data(s, peek, range)) + rest;
      && ts != []
      && (NamesTaken(s) ==> ParseAtt(ts, isuid) == Good(Some(ItemClosures(Data(s, peek, range), isuid)), rest))
      && (!NamesTaken(s) ==> Differs(ParseAtt(ts, isuid), Data(s, peek, range)))
  {
    hide Spell, KeywordOf, SectionPieces, RangePieces, GoodSection, ParseBodyArgs, SectionClosure, NamesTaken;
    var args := ["["] + (SectionPieces(s) + (["]"] + (RangePieces(range) + rest)));
    DataShape(s, peek, range, rest);
    BodyArgsParse(s, peek, range, rest);
    SpellReads(BODY);
    if peek {
      SpellReads(PEEK);
      Cons(Spell(BODY), ["."] + ([Spell(PEEK)] + args));
      Cons(".", [Spell(PEEK)] + args);
      Cons(Spell(PEEK), args);
    } else {
      Cons(Spell(BODY), args);
      NotKeyword('[');
    }
  }

  /** What may stand behind an item. */
  predicate EndsBefore(item: FetchSyntax.Item, rest: Stream) {
    match item
    case Rfc822 => rest == [] || At(rest, ')')
    case BareBody => rest == [] || (!At(rest, '.') && !At(rest, '[') && KeyOf(rest) != STRUCTURE)
    case Data(_, _, range) => range.Some? || !At(rest, '<')
    case Simple(_) => true
    case Structure => true
    case Rfc822Part(_) => true
  }

  lemma ItemParses(item: FetchSyntax.Item, rest: Stream, isuid: bool)
    requires GoodRequest(item) && EndsBefore(item, rest)
    ensures ItemPieces(item) + rest != []
    ensures ItemTaken(item) ==> ParseAtt(ItemPieces(item) + rest, isuid) == Good(Some(ItemClosures(item, isuid)), rest)
    ensures !ItemTaken(item) ==> Differs(ParseAtt(ItemPieces(item) + rest, isuid), item)
  {
    if item.Data? {
      hide *;
      DataIsTaken(item);
      DataParses(item.section, item.peek, item.range, rest, isuid);
    } else {
      PlainItemParses(item, rest, isuid);
    }
  }

  lemma DataIsTaken(item: FetchSyntax.Item)
    requires item.Data?
    ensures ItemTaken(item) <==> NamesTaken(item.section)
    ensures forall rest :: EndsBefore(item, rest) && item.range.None? ==> !At(rest, '<')
  {
  }

  lemma PlainItemParses(item: FetchSyntax.Item, rest: Stream, isuid: bool)
    requires GoodRequest(item) && EndsBefore(item, rest) && !item.Data?
    ensures ItemPieces(item) + rest != []
    ensures ParseAtt(ItemPieces(item) + rest, isuid) == Good(Some(ItemClosures(item, isuid)), rest)
  {
    hide Spell, KeywordOf, ParseBodyArgs;
    match item
    case Simple(k) =>
      SpellReads(k);
      Cons(Spell(k), rest);
    case BareBody =>
      SpellReads(BODY);
      Cons(Spell(BODY), rest);
      if rest != [] { NoBodyArgs(rest); }
    case Structure =>
      SpellReads(BODYSTRUCTURE);
      Cons(Spell(BODYSTRUCTURE), rest);
    case Rfc822 =>
      SpellReads(RFC822);
      Cons(Spell(RFC822), rest);
    case Rfc822Part(k) =>
      SpellReads(RFC822);
      SpellReads(k);
      assert ItemPieces(item) + rest == [Spell(RFC822)] + (["."] + ([Spell(k)] + rest));
      Cons(Spell(RFC822), ["."] + ([Spell(k)] + rest));
      Cons(".", [Spell(k)] + rest);
      Cons(Spell(k), rest);
  }

  lemma NoBodyArgs(ts: Stream)
    requires ts != [] && !At(ts, '[')
    ensures ParseBodyArgs(ts, false) == Good(None, ts)
  {
  }

  // ----- lists -----

  function ListPieces(items: seq<FetchSyntax.Item>): Stream {
    if items == [] then [] else ItemPieces(items[0]) + ListPieces(items[1..])
  }

  function ListClosures(items: seq<FetchSyntax.Item>, isuid: bool): seq<Closure> {
    if items == [] then [] else ItemClosures(items[0], isuid) + ListClosures(items[1..], isuid)
  }

  predicate GoodList(items: seq<FetchSyntax.Item>) {
    forall i :: 0 <= i < |items| ==> GoodRequest(items[i])
  }

  /** Plain `RFC822` is read only as the last item. */
  predicate Rfc822Last(items: seq<FetchSyntax.Item>) {
    forall i :: 0 <= i < |items| - 1 ==> items[i] != Rfc822
  }

  predicate ListEnds(rest: Stream) {
    rest == [] || (At(rest, ')') && rest[0] == ")")
  }

  lemma ItemStarts(item: FetchSyntax.Item, rest: Stream)
    requires GoodRequest(item)
    ensures ItemPieces(item) + rest != [] && (ItemPieces(item) + rest)[0] != []
    ensures IsLetter((ItemPieces(item) + rest)[0][0]) && KeyOf(ItemPieces(item) + rest) != STRUCTURE
  {
    hide Spell, KeywordOf;
    var k := match item
      case Simple(k) => k
      case BareBody => BODY
      case Structure => BODYSTRUCTURE
      case Rfc822 => RFC822
      case Rfc822Part(_) => RFC822
      case Data(_, _, _) => BODY;
    SpellingShape(k);
    SpellReads(k);
    assert ItemPieces(item)[0] == Spell(k);
  }

  predicate AllTaken(items: seq<FetchSyntax.Item>) {
    forall i :: 0 <= i < |items| ==> ItemTaken(items[i])
  }

  lemma TakenSplit(items: seq<FetchSyntax.Item>)
    requires items != []
    ensures AllTaken(items) <==> ItemTaken(items[0]) && AllTaken(items[1..])
  {
    var t := items[1..];
    assert forall i :: 0 <= i < |t| ==> t[i] == items[i + 1];
    if ItemTaken(items[0]) && AllTaken(t) {
      forall i | 0 <= i < |items| ensures ItemTaken(items[i]) {
        if i > 0 { assert t[i - 1] == items[i]; }
      }
    }
  }

  /** A list of data items is parsed to the closures it asks for if and only if plain
      `RFC822` stands nowhere but at its end and all header names are accepted. */
  lemma {:induction false} ListParses(items: seq<FetchSyntax.Item>, rest: Stream, isuid: bool)
    requires GoodList(items) && ListEnds(rest)
    ensures ParseAttList(ListPieces(items) + rest, isuid) == Good(ListClosures(items, isuid), rest)
      <==> Rfc822Last(items) && AllTaken(items)
    decreases |items|
  {
    hide ItemPieces, ItemClosures, GoodRequest, KeywordOf, ParseAtt, ItemTaken, AllTaken, Differs;
    if items == [] {
      EmptyConcat(rest);
      NoAtt(rest, isuid);
      assert AllTaken(items) by { NoneTaken(); }
    } else {
      var more := ListPieces(items[1..]) + rest;
      ConcatAssoc(ItemPieces(items[0]), ListPieces(items[1..]), rest);
      ListParses(items[1..], rest, isuid);
      if |items| > 1 {
        ConcatAssoc(ItemPieces(items[1]), ListPieces(items[1..][1..]), rest);
        ItemStarts(items[1], ListPieces(items[1..][1..]) + rest);
      } else {
        EmptyConcat(rest);
        CloseIsPlain(rest);
      }
      Rfc822Split(items);
      TakenSplit(items);
      ItemStarts(items[0], more);
      if items[0] == Rfc822 && |items| > 1 {
        Rfc822Stops(more, isuid);
      } else {
        ItemParses(items[0], more, isuid);
        ListStep(items, more, rest, isuid);
      }
    }
  }

  lemma NoneTaken()
    ensures AllTaken([])
  {
  }

  lemma ListStep(items: seq<FetchSyntax.Item>, more: Stream, rest: Stream, isuid: bool)
    requires items != [] && ItemPieces(items[0]) + more != []
    requires var r := ParseAtt(ItemPieces(items[0]) + more, isuid);
      && (ItemTaken(items[0]) ==> r == Good(Some(ItemClosures(items[0], isuid)), more))
      && (!ItemTaken(items[0]) ==> Differs(r, items[0]))
    ensures ParseAttList(ItemPieces(items[0]) + more, isuid) == Good(ListClosures(items, isuid), rest)
      <==> ItemTaken(items[0]) && ParseAttList(more, isuid) == Good(ListClosures(items[1..], isuid), rest)
  {
    hide ItemPieces, ParseAtt, ItemTaken;
    var want := ListClosures(items, isuid);
    if ItemTaken(items[0]) {
      var q := ParseAttList(more, isuid);
      if q.Good? { SamePrefix(ItemClosures(items[0], isuid), q.value, ListClosures(items[1..], isuid)); }
    } else {
      var r := ParseAtt(ItemPieces(items[0]) + more, isuid);
      if r.Good? {
        var q := ParseAttList(r.rest, isuid);
        if q.Good? { assert (r.value.value + q.value)[0] == r.value.value[0]; }
        assert want[0] == ItemClosures(items[0], isuid)[0];
      }
    }
  }

  lemma SamePrefix<T>(a: seq<T>, b: seq<T>, c: seq<T>)
    ensures a + b == a + c <==> b == c
  {
    if a + b == a + c {
      assert (a + b)[|a|..] == b;
      assert (a + c)[|a|..] == c;
    }
  }

  lemma Rfc822Split(items: seq<FetchSyntax.Item>)
    requires items != []
    ensures Rfc822Last(items) <==> (|items| > 1 ==> items[0] != Rfc822) && Rfc822Last(items[1..])
  {
    var t := items[1..];
    assert forall i :: 0 <= i < |t| ==> t[i] == items[i + 1];
    if (|items| > 1 ==> items[0] != Rfc822) && Rfc822Last(t) {
      forall i | 0 <= i < |items| - 1 ensures items[i] != Rfc822 {
        if i > 0 { assert t[i - 1] == items[i]; }
      }
    }
  }

  lemma NoAtt(rest: Stream, isuid: bool)
    requires ListEnds(rest)
    ensures ParseAttList(rest, isuid) == Good([], rest)
  {
    if rest != [] { NotKeyword(')'); }
  }

  lemma CloseIsPlain(rest: Stream)
    requires ListEnds(rest)
    ensures rest != [] ==> KeyOf(rest) == Other
  {
    if rest != [] { NotKeyword(')'); }
  }

  lemma Rfc822Stops(more: Stream, isuid: bool)
    requires more != [] && !At(more, ')') && !At(more, '.')
    ensures ItemPieces(Rfc822) + more != [] && ParseAtt(ItemPieces(Rfc822) + more, isuid) == Bad(AfterRfc822)
  {
    SpellReads(RFC822);
    Cons(Spell(RFC822), more);
  }
}
