/** FETCH requests as text: the two tokenizers and the parser together invert what a
    client writes. */
module FetchText {
  import opened Text
  import opened Numbers
  import opened Lexer
  import opened Reader
  import opened Pieces
  import opened CommandWriter
  import opened FetchSyntax
  import opened FetchParser
  import opened FetchTheorems

  type Request = FetchSyntax.Item

  // ----- pieces that make an atom -----

  predicate AtomChar(c: char) {
    c != NUL && c != LF && c != QUOTE && !IsBlank(c) && !IsDelim(c)
  }

  predicate AtomPiece(p: string) {
    IsPiece(p, DELIMITERS) && forall i :: 0 <= i < |p| ==> AtomChar(p[i])
  }

  predicate Cuts(p: string) {
    p != [] && p[0] in DELIMITERS
  }

  /** Pieces that can be written side by side and cut apart again. */
  predicate Chain(ps: seq<string>) {
    ps != [] && AtomPiece(ps[0]) && (|ps| > 1 ==> Chain(ps[1..]) && (Cuts(ps[0]) || Cuts(ps[1])))
  }

  lemma {:induction false} ChainFlat(ps: seq<string>)
    requires Chain(ps)
    ensures GoodAtom(Flat(ps)) && Maximal(ps, DELIMITERS)
    ensures forall i :: 0 <= i < |Flat(ps)| ==> AtomChar(Flat(ps)[i])
  {
    if |ps| == 1 {
      EmptyConcat(ps[0]);
      assert ps[1..] == [];
    } else {
      ChainFlat(ps[1..]);
    }
  }

  lemma ChainCuts(ps: seq<string>)
    requires Chain(ps)
    ensures GoodAtom(Flat(ps)) && Cut(Flat(ps), DELIMITERS) == ps
  {
    ChainFlat(ps);
    CutIsUnique(ps, DELIMITERS);
  }

  lemma ChainCons(p: string, ps: seq<string>)
    requires AtomPiece(p) && Chain(ps) && (Cuts(p) || Cuts(ps[0]))
    ensures Chain([p] + ps)
  {
    ConsDrop(p, ps);
  }

  lemma ChainOne(p: string)
    requires AtomPiece(p)
    ensures Chain([p])
  {
  }

  lemma PunctuationPieces(c: char)
    requires c in DELIMITERS
    ensures AtomPiece([c]) && Cuts([c])
  {
  }

  lemma WordPieces(p: string)
    requires p != [] && forall i :: 0 <= i < |p| ==> IsLetter(p[i]) || IsDigit(p[i])
    ensures AtomPiece(p)
  {
  }

  lemma KeywordPiece(k: Keyword)
    requires k != Other
    ensures AtomPiece(Spell(k))
  {
    hide Spell, AtomPiece;
    SpellingShape(k);
    WordPieces(Spell(k));
  }

  lemma NumberPiece(n: nat)
    ensures AtomPiece(Dec(n))
  {
    hide AtomPiece;
    WordPieces(Dec(n));
  }

  // ----- chains of section pieces -----

  lemma {:induction false} PartsChain(parts: seq<nat>, rest: seq<string>)
    requires parts != [] && Chain(rest) && Cuts(rest[0])
    ensures Chain(PartPieces(parts) + rest)
    decreases |parts|
  {
    hide Chain, AtomPiece, Dec;
    NumberPiece(parts[0]);
    if |parts| == 1 {
      ChainCons(Dec(parts[0]), rest);
    } else {
      var more := PartPieces(parts[1..]) + rest;
      PartsChain(parts[1..], rest);
      PunctuationPieces('.');
      ChainCons(".", more);
      ConsDrop(".", more);
      ChainCons(Dec(parts[0]), ["."] + more);
      ConcatAssoc([Dec(parts[0]), "."], PartPieces(parts[1..]), rest);
      Two(Dec(parts[0]), ".", more);
    }
  }

  /** Part numbers and the dot behind them. */
  lemma DottedChain(parts: seq<nat>, rest: seq<string>)
    requires Chain(rest)
    ensures Chain(Dotted(parts) + rest)
  {
    hide Chain, AtomPiece;
    if parts == [] {
      EmptyConcat(rest);
    } else {
      PunctuationPieces('.');
      ChainCons(".", rest);
      ConsDrop(".", rest);
      PartsChain(parts, ["."] + rest);
      ConcatAssoc(PartPieces(parts), ["."], rest);
    }
  }

  lemma RangeChain(range: Option<Range>)
    ensures Chain(["]"] + RangePieces(range))
  {
    hide Chain, AtomPiece;
    PunctuationPieces(']');
    if range.None? {
      ChainOne("]");
      EmptyConcat(["]"]);
    } else {
      PunctuationPieces('>');
      PunctuationPieces('<');
      PunctuationPieces('.');
      NumberPiece(range.value.start);
      NumberPiece(range.value.size);
      var a, b := Dec(range.value.start), Dec(range.value.size);
      ChainOne(">");
      ChainCons(b, [">"]);
      ChainCons(".", [b] + [">"]);
      ChainCons(a, ["."] + ([b] + [">"]));
      ChainCons("<", [a] + (["."] + ([b] + [">"])));
      ChainCons("]", ["<"] + ([a] + (["."] + ([b] + [">"]))));
      assert ["]"] + ["<", a, ".", b, ">"] == ["]"] + (["<"] + ([a] + (["."] + ([b] + [">"]))));
    }
  }

  /** `BODY` or `BODY.PEEK` in front of a bracket. */
  function BodyPieces(peek: bool): seq<string> {
    [Spell(BODY)] + if peek then [".", Spell(PEEK)] else []
  }

  lemma BodyChain(peek: bool, rest: seq<string>)
    requires Chain(rest)
    ensures Chain(BodyPieces(peek) + (["["] + rest))
  {
    hide Chain, AtomPiece, Spell;
    PunctuationPieces('[');
    PunctuationPieces('.');
    KeywordPiece(BODY);
    KeywordPiece(PEEK);
    var b, p := Spell(BODY), Spell(PEEK);
    var open := ["["] + rest;
    ChainCons("[", rest);
    ConsDrop("[", rest);
    if peek {
      ChainCons(p, open);
      ConsDrop(p, open);
      ChainCons(".", [p] + open);
      ConsDrop(".", [p] + open);
      ChainCons(b, ["."] + ([p] + open));
      assert BodyPieces(peek) + open == [b] + (["."] + ([p] + open));
    } else {
      ChainCons(b, open);
      assert BodyPieces(peek) + open == [b] + open;
    }
  }

  lemma FieldsChain(negate: bool)
    ensures Chain(FieldsWord(negate))
  {
    hide Chain, AtomPiece, Spell;
    PunctuationPieces('.');
    KeywordPiece(HEADER);
    KeywordPiece(FIELDS);
    KeywordPiece(NOT);
    var h, f, n := Spell(HEADER), Spell(FIELDS), Spell(NOT);
    if negate {
      ChainOne(n);
      ChainCons(".", [n]);
      ChainCons(f, ["."] + [n]);
      ChainCons(".", [f] + (["."] + [n]));
      ChainCons(h, ["."] + ([f] + (["."] + [n])));
      assert FieldsWord(negate) == [h] + (["."] + ([f] + (["."] + [n])));
    } else {
      ChainOne(f);
      ChainCons(".", [f]);
      ChainCons(h, ["."] + [f]);
      assert FieldsWord(negate) == [h] + (["."] + [f]);
    }
  }

  // ----- requests as arguments -----

  const BLANK: string := [' ']

  /** Up to the header list. */
  function FieldsHead(s: Section, peek: bool): seq<string>
    requires s.FieldsOf?
  {
    BodyPieces(peek) + (["["] + (Dotted(s.parts) + FieldsWord(s.negate)))
  }

  predicate HasNames(item: Request) {
    item.Data? && item.section.FieldsOf?
  }

  function NameArgs(names: seq<string>, blanks: string): seq<Piece> {
    if names == [] then [] else [Piece(blanks, Atom(names[0]))] + NameArgs(names[1..], BLANK)
  }

  /** How a client writes a data item: one atom, or an atom, a list of names and
      the rest of the bracket. */
  function ItemArgs(item: Request, blanks: string): seq<Piece> {
    if HasNames(item) then
      [Piece(blanks, Atom(Flat(FieldsHead(item.section, item.peek)))), Piece(BLANK, Open)]
      + (NameArgs(item.section.names, []) + [Piece([], Close), Piece([], Atom(Flat(["]"] + RangePieces(item.range))))])
    else [Piece(blanks, Atom(Flat(ItemPieces(item))))]
  }

  function ListArgs(items: seq<Request>, blanks: string): seq<Piece> {
    if items == [] then [] else ItemArgs(items[0], blanks) + ListArgs(items[1..], BLANK)
  }

  /** What the two tokenizers make of arguments. */
  function PiecesOf(ps: seq<Piece>): Stream {
    CutAll(Values(ps), Some(DELIMITERS))
  }

  lemma PiecesCons(p: Piece, ps: seq<Piece>)
    ensures PiecesOf([p] + ps) == Cut(ValueOf(p.item), DELIMITERS) + PiecesOf(ps)
  {
    hide Cut;
    ConsDrop(p, ps);
    ConsDrop(ValueOf(p.item), Values(ps));
  }

  lemma {:induction false} PiecesConcat(a: seq<Piece>, b: seq<Piece>)
    ensures PiecesOf(a + b) == PiecesOf(a) + PiecesOf(b)
    decreases |a|
  {
    hide PiecesOf, Cut;
    if a == [] {
      NoPieces();
      EmptyConcat(b);
      EmptyConcat(PiecesOf(b));
    } else {
      HeadTail(a);
      ConcatAssoc([a[0]], a[1..], b);
      PiecesCons(a[0], a[1..]);
      PiecesCons(a[0], a[1..] + b);
      PiecesConcat(a[1..], b);
      ConcatAssoc(Cut(ValueOf(a[0].item), DELIMITERS), PiecesOf(a[1..]), PiecesOf(b));
    }
  }

  lemma NoPieces()
    ensures PiecesOf([]) == []
  {
  }

  lemma OnePiece(p: Piece)
    ensures PiecesOf([p]) == Cut(ValueOf(p.item), DELIMITERS)
  {
    hide PiecesOf, Cut;
    NoPieces();
    EmptyConcat([p]);
    PiecesCons(p, []);
    EmptyConcat(Cut(ValueOf(p.item), DELIMITERS));
  }

  lemma ParenCuts(c: char)
    requires c == '(' || c == ')'
    ensures Cut([c], DELIMITERS) == [[c]]
  {
    EmptyConcat([c]);
    assert Flat([[c]]) == [c] by { assert [[c]][1..] == []; }
    CutIsUnique([[c]], DELIMITERS);
  }

  lemma {:induction false} NamesCut(names: seq<string>, blanks: string)
    ensures PiecesOf(NameArgs(names, blanks)) == NamePieces(names)
    decreases |names|
  {
    hide Cut;
    if names != [] {
      NamesCut(names[1..], BLANK);
      PiecesCons(Piece(blanks, Atom(names[0])), NameArgs(names[1..], BLANK));
    }
  }

  /** An atom made of pieces. */
  lemma AtomCut(ps: seq<string>, blanks: string)
    requires Chain(ps)
    ensures PiecesOf([Piece(blanks, Atom(Flat(ps)))]) == ps
  {
    ChainCuts(ps);
    OnePiece(Piece(blanks, Atom(Flat(ps))));
  }

  lemma ParenCut(blanks: string, open: bool)
    ensures PiecesOf([Piece(blanks, if open then Open else Close)]) == [if open then "(" else ")"]
  {
    ParenCuts('(');
    ParenCuts(')');
    OnePiece(Piece(blanks, if open then Open else Close));
  }

  lemma FieldsCut(s: Section, peek: bool, range: Option<Range>, blanks: string)
    requires s.FieldsOf?
    ensures PiecesOf(ItemArgs(Data(s, peek, range), blanks))
      == FieldsHead(s, peek) + (["("] + (NamePieces(s.names) + ([")"] + (["]"] + RangePieces(range)))))
  {
    hide PiecesOf, Chain, Flat, FieldsHead, RangePieces, NamePieces;
    var last, head := ["]"] + RangePieces(range), FieldsHead(s, peek);
    var p0, p1 := Piece(blanks, Atom(Flat(head))), Piece(BLANK, Open);
    var p3, p4 := Piece([], Close), Piece([], Atom(Flat(last)));
    var ns := NameArgs(s.names, []);
    ArgsShape(p0, p1, ns, p3, p4, []);
    EmptyConcat([p4]);
    EmptyConcat([p0, p1] + (ns + [p3, p4]));
    HeadChain(s, peek);
    AtomCut(head, blanks);
    ParenCut(BLANK, true);
    NamesCut(s.names, []);
    ParenCut([], false);
    RangeChain(range);
    AtomCut(last, []);
    PiecesConcat([p3], [p4]);
    PiecesConcat(ns, [p3] + [p4]);
    PiecesConcat([p1], ns + ([p3] + [p4]));
    PiecesConcat([p0], [p1] + (ns + ([p3] + [p4])));
  }

  lemma ItemCut(item: Request, blanks: string)
    requires GoodRequest(item)
    ensures PiecesOf(ItemArgs(item, blanks)) == ItemPieces(item)
  {
    hide PiecesOf, Chain, Flat, ItemPieces, GoodSection;
    if HasNames(item) {
      FieldsCut(item.section, item.peek, item.range, blanks);
      FieldsRegroup(item.section, item.peek, item.range);
    } else {
      if item.Data? {
        DataChain(item.section, item.peek, item.range);
      } else {
        SimpleChain(item);
      }
      AtomCut(ItemPieces(item), blanks);
    }
  }

  lemma {:induction false} ListCut(items: seq<Request>, blanks: string)
    requires GoodList(items)
    ensures PiecesOf(ListArgs(items, blanks)) == ListPieces(items)
    decreases |items|
  {
    hide PiecesOf, ItemPieces, GoodRequest, ItemArgs;
    if items == [] {
      NoPieces();
    } else {
      ListCut(items[1..], BLANK);
      ItemCut(items[0], blanks);
      PiecesConcat(ItemArgs(items[0], blanks), ListArgs(items[1..], BLANK));
    }
  }

  // ----- requests that can be written without quoting -----

  lemma GoodCons(p: Piece, ps: seq<Piece>)
    requires AllBlank(p.blanks) && GoodItem(p.item) && Writable(ps)
    requires p.item.Atom? && ps != [] ==> ps[0].blanks != [] || IsParen(ps[0].item)
    ensures Writable([p] + ps)
  {
    ConsDrop(p, ps);
  }

  /** Arguments that stand before `more`. */
  predicate Fits(more: seq<Piece>) {
    Writable(more) && (more != [] ==> more[0].blanks != [] || IsParen(more[0].item))
  }

  predicate AtomNames(names: seq<string>) {
    forall i :: 0 <= i < |names| ==> AtomName(names[i])
  }

  lemma {:induction false} NamesWritten(names: seq<string>, blanks: string, more: seq<Piece>)
    requires AtomNames(names) && AllBlank(blanks) && Fits(more)
    ensures Writable(NameArgs(names, blanks) + more)
    decreases |names|
  {
    hide AtomName, Writable;
    if names == [] {
      EmptyConcat(more);
    } else {
      var p, rest := Piece(blanks, Atom(names[0])), NameArgs(names[1..], BLANK) + more;
      NamesWritten(names[1..], BLANK, more);
      ConcatAssoc([p], NameArgs(names[1..], BLANK), more);
      NamesLead(names[1..], more);
      NameIsAtom(names[0]);
      GoodCons(p, rest);
    }
  }

  lemma NameIsAtom(n: string)
    requires AtomName(n)
    ensures GoodAtom(n)
  {
  }

  lemma NamesLead(names: seq<string>, more: seq<Piece>)
    requires Fits(more)
    ensures var all := NameArgs(names, BLANK) + more;
      all != [] ==> all[0].blanks != [] || IsParen(all[0].item)
  {
    hide Writable;
    if names == [] { EmptyConcat(more); }
  }

  /** An atom made of pieces, in front of `more`. */
  lemma AtomWritten(ps: seq<string>, blanks: string, more: seq<Piece>)
    requires Chain(ps) && AllBlank(blanks) && Fits(more)
    ensures Writable([Piece(blanks, Atom(Flat(ps)))] + more)
  {
    hide Cut, Chain, Writable, GoodAtom;
    ChainCuts(ps);
    GoodCons(Piece(blanks, Atom(Flat(ps))), more);
  }

  lemma ParenWritten(blanks: string, open: bool, more: seq<Piece>)
    requires AllBlank(blanks) && Writable(more)
    ensures Writable([Piece(blanks, if open then Open else Close)] + more)
  {
    GoodCons(Piece(blanks, if open then Open else Close), more);
  }

  // ----- items -----

  lemma FieldsWritten(s: Section, peek: bool, range: Option<Range>, blanks: string, more: seq<Piece>)
    requires s.FieldsOf? && AtomNames(s.names) && AllBlank(blanks) && Fits(more)
    ensures Writable(ItemArgs(Data(s, peek, range), blanks) + more)
  {
    hide Chain, Writable, Flat, FieldsHead, AtomNames, RangePieces;
    var last, head := ["]"] + RangePieces(range), FieldsHead(s, peek);
    var a4 := [Piece([], Atom(Flat(last)))] + more;
    var a3 := [Piece([], Close)] + a4;
    var a2 := NameArgs(s.names, []) + a3;
    var a1 := [Piece(BLANK, Open)] + a2;
    RangeChain(range);
    AtomWritten(last, [], more);
    ParenWritten([], false, a4);
    NamesWritten(s.names, [], a3);
    ParenWritten(BLANK, true, a2);
    HeadChain(s, peek);
    AtomWritten(head, blanks, a1);
    ArgsShape(Piece(blanks, Atom(Flat(head))), Piece(BLANK, Open), NameArgs(s.names, []),
              Piece([], Close), Piece([], Atom(Flat(last))), more);
  }

  lemma ArgsShape(a: Piece, b: Piece, ns: seq<Piece>, c: Piece, d: Piece, more: seq<Piece>)
    ensures [a, b] + (ns + [c, d]) + more == [a] + ([b] + (ns + ([c] + ([d] + more))))
  {
  }

  lemma HeadChain(s: Section, peek: bool)
    requires s.FieldsOf?
    ensures Chain(FieldsHead(s, peek))
  {
    hide Chain, FieldsWord, Dotted, BodyPieces;
    FieldsChain(s.negate);
    DottedChain(s.parts, FieldsWord(s.negate));
    BodyChain(peek, Dotted(s.parts) + FieldsWord(s.negate));
  }

  /** Sections without header names. */
  lemma SectionChain(s: Section, rest: seq<string>)
    requires !s.FieldsOf? && GoodSection(s) && Chain(rest) && Cuts(rest[0])
    ensures Chain(SectionPieces(s) + rest)
  {
    hide Chain, Dotted, PartPieces, Spell, Cuts;
    match s
    case Whole => EmptyConcat(rest);
    case Part(ps) => PartsChain(ps, rest);
    case TextOf(ps) => WordChain(ps, TEXT, rest);
    case HeaderOf(ps) => WordChain(ps, HEADER, rest);
    case MimeOf(ps) => WordChain(ps, MIME, rest);
  }

  lemma WordChain(parts: seq<nat>, k: Keyword, rest: seq<string>)
    requires k != Other && Chain(rest) && Cuts(rest[0])
    ensures Chain(Dotted(parts) + [Spell(k)] + rest)
  {
    hide Chain, Dotted, Spell, Cuts, AtomPiece;
    KeywordPiece(k);
    ChainCons(Spell(k), rest);
    DottedChain(parts, [Spell(k)] + rest);
    ConcatAssoc(Dotted(parts), [Spell(k)], rest);
  }

  lemma DataChain(s: Section, peek: bool, range: Option<Range>)
    requires !s.FieldsOf? && GoodSection(s)
    ensures Chain(ItemPieces(Data(s, peek, range)))
  {
    hide Chain, SectionPieces, BodyPieces, GoodSection, RangePieces;
    var end := ["]"] + RangePieces(range);
    RangeChain(range);
    PunctuationPieces(']');
    SectionChain(s, end);
    BodyChain(peek, SectionPieces(s) + end);
    DataPieces(s, peek, range);
  }

  lemma DataPieces(s: Section, peek: bool, range: Option<Range>)
    ensures ItemPieces(Data(s, peek, range))
      == BodyPieces(peek) + (["["] + (SectionPieces(s) + (["]"] + RangePieces(range))))
  {
    hide SectionPieces, RangePieces, Spell;
    var b, sp, r := BodyPieces(peek), SectionPieces(s), RangePieces(range);
    assert b + ["["] + sp + ["]"] + r == b + (["["] + (sp + (["]"] + r)));
  }

  lemma SimpleChain(item: Request)
    requires GoodRequest(item) && !item.Data?
    ensures Chain(ItemPieces(item))
  {
    hide Chain, Spell, AtomPiece;
    match item
    case Simple(k) => KeywordPiece(k); ChainOne(Spell(k));
    case BareBody => KeywordPiece(BODY); ChainOne(Spell(BODY));
    case Structure => KeywordPiece(BODYSTRUCTURE); ChainOne(Spell(BODYSTRUCTURE));
    case Rfc822 => KeywordPiece(RFC822); ChainOne(Spell(RFC822));
    case Rfc822Part(k) =>
      KeywordPiece(k);
      KeywordPiece(RFC822);
      PunctuationPieces('.');
      ChainOne(Spell(k));
      ChainCons(".", [Spell(k)]);
      ChainCons(Spell(RFC822), ["."] + [Spell(k)]);
      assert ItemPieces(item) == [Spell(RFC822)] + (["."] + [Spell(k)]);
  }

  /** Header names that need no quoting. */
  predicate Unquoted(item: Request) {
    HasNames(item) ==> AtomNames(item.section.names)
  }

  lemma ItemWritten(item: Request, blanks: string, more: seq<Piece>)
    requires GoodRequest(item) && Unquoted(item) && AllBlank(blanks) && Fits(more)
    ensures Writable(ItemArgs(item, blanks) + more)
  {
    hide Chain, Writable, Flat, ItemPieces, GoodSection, Fits, AtomNames;
    if HasNames(item) {
      FieldsWritten(item.section, item.peek, item.range, blanks, more);
    } else {
      if item.Data? {
        DataChain(item.section, item.peek, item.range);
      } else {
        SimpleChain(item);
      }
      AtomWritten(ItemPieces(item), blanks, more);
    }
  }

  lemma FieldsRegroup(s: Section, peek: bool, range: Option<Range>)
    requires s.FieldsOf?
    ensures FieldsHead(s, peek) + (["("] + (NamePieces(s.names) + ([")"] + (["]"] + RangePieces(range)))))
      == ItemPieces(Data(s, peek, range))
  {
    hide RangePieces, Spell, BodyPieces, Dotted, FieldsWord, NamePieces;
    DataPieces(s, peek, range);
    var b, d, w, r := BodyPieces(peek), Dotted(s.parts), FieldsWord(s.negate), RangePieces(range);
    var ns := NamePieces(s.names);
    assert (b + (["["] + (d + w))) + (["("] + (ns + ([")"] + (["]"] + r))))
      == b + (["["] + ((d + (w + (["("] + (ns + [")"])))) + (["]"] + r)));
  }

  // ----- lists -----

  predicate AllUnquoted(items: seq<Request>) {
    forall i :: 0 <= i < |items| ==> Unquoted(items[i])
  }

  lemma {:induction false} ListWritten(items: seq<Request>, blanks: string, more: seq<Piece>)
    requires GoodList(items) && AllUnquoted(items) && AllBlank(blanks) && Fits(more)
    ensures Writable(ListArgs(items, blanks) + more)
    decreases |items|
  {
    hide Writable, ItemPieces, GoodRequest, ItemArgs, Unquoted;
    if items == [] {
      EmptyConcat(more);
    } else {
      var rest := ListArgs(items[1..], BLANK) + more;
      ListWritten(items[1..], BLANK, more);
      ListLeads(items[1..], more);
      ItemWritten(items[0], blanks, rest);
      ConcatAssoc(ItemArgs(items[0], blanks), ListArgs(items[1..], BLANK), more);
    }
  }

  lemma ListLeads(items: seq<Request>, more: seq<Piece>)
    requires Fits(more)
    ensures var all := ListArgs(items, BLANK) + more;
      all != [] ==> all[0].blanks != [] || IsParen(all[0].item)
  {
    hide Writable, ItemPieces, FieldsHead, Flat;
    if items == [] {
      EmptyConcat(more);
    } else {
      assert ItemArgs(items[0], BLANK)[0].blanks == BLANK;
    }
  }

  lemma {:induction false} ListHasNoLiterals(items: seq<Request>, blanks: string)
    ensures NoLiterals(ListArgs(items, blanks))
  {
    if items != [] {
      ListHasNoLiterals(items[1..], BLANK);
      if HasNames(items[0]) { NamesHaveNoLiterals(items[0].section.names, []); }
    }
  }

  lemma {:induction false} NamesHaveNoLiterals(names: seq<string>, blanks: string)
    ensures NoLiterals(NameArgs(names, blanks))
  {
    if names != [] { NamesHaveNoLiterals(names[1..], BLANK); }
  }

  /** A parenthesized list, as it stands behind the message set. */
  function ListRequest(items: seq<Request>): seq<Piece> {
    [Piece(BLANK, Open)] + (ListArgs(items, []) + [Piece([], Close)])
  }

  lemma RequestPieces(items: seq<Request>)
    requires GoodList(items)
    ensures PiecesOf(ListRequest(items)) == ["("] + (ListPieces(items) + [")"])
  {
    hide PiecesOf, ListArgs, ListPieces, GoodList;
    var open, args, close := [Piece(BLANK, Open)], ListArgs(items, []), [Piece([], Close)];
    ListCut(items, []);
    ParenCut(BLANK, true);
    ParenCut([], false);
    PiecesConcat(args, close);
    PiecesConcat(open, args + close);
  }

  lemma NothingWritten()
    ensures Writable([])
  {
  }

  /** A request whose header names need no quoting can be written just so. */
  lemma RequestWritten(items: seq<Request>)
    requires GoodList(items) && AllUnquoted(items)
    ensures Writable(ListRequest(items)) && NoLiterals(ListRequest(items))
  {
    hide Writable, ListArgs, GoodList, AllUnquoted;
    var close := [Piece([], Close)];
    NothingWritten();
    ParenWritten([], false, []);
    EmptyConcat(close);
    ListWritten(items, [], close);
    ParenWritten(BLANK, true, ListArgs(items, []) + close);
    ListHasNoLiterals(items, []);
  }

  /** However the arguments of a request are written on a line, in atoms and quoted
      strings, the server reads them back as its pieces. */
  lemma RequestLexes(items: seq<Request>, ps: seq<Piece>, beyond: string)
    requires GoodList(items) && Writable(ps) && NoLiterals(ps) && Values(ps) == Values(ListRequest(items))
    ensures Trimmed(LinePart(ps)) && Lex(LinePart(ps), beyond).Args?
    ensures CutAll(Lex(LinePart(ps), beyond).values, Some(DELIMITERS)) == ["("] + (ListPieces(items) + [")"])
  {
    hide ListRequest, Writable, LinePart, Lex, ListPieces, CutAll, Values;
    RequestPieces(items);
    LexLine(ps);
    WithoutLiterals(ps);
  }

  // ----- what follows the message set -----

  datatype MacroName = ALL | FULL | FAST

  function MacroText(m: MacroName): string {
    match m
    case ALL => "FLAGS INTERNALDATE RFC822.SIZE ENVELOPE"
    case FULL => "FLAGS INTERNALDATE RFC822.SIZE ENVELOPE BODY"
    case FAST => "FLAGS INTERNALDATE RFC822.SIZE"
  }

  function FindMacro(t: string): Option<MacroName> {
    if Upper(t) == "ALL" then Some(ALL)
    else if Upper(t) == "FULL" then Some(FULL)
    else if Upper(t) == "FAST" then Some(FAST)
    else None
  }

  /** `imap4d_tokbuf_from_string` and the second tokenizer, on the macro's text. */
  function MacroPieces(m: MacroName): Stream {
    var line := if Trimmed(MacroText(m)) then Lex(MacroText(m), [NUL]) else LineSpin;
    if line.Args? then CutAll(line.values, Some(DELIMITERS)) else []
  }

  /** `parse_macro`.  `glued` says that the second piece belongs to the same
      argument as the first: the swap of token buffers does not drop it. */
  function ParseMacro(ts: Stream, glued: bool, isuid: bool): Parsed<seq<Closure>> {
    if ts == [] then Bad(TooFew)
    else if At(ts, '(') then
      match Need(ts)
      case Bad(e) => Bad(e)
      case Good(_, t1) =>
        match ParseAttList(t1, isuid)
        case Bad(e) => Bad(e)
        case Good(cs, rest) => if At(rest, ')') then Good(cs, rest) else Bad(UnknownToken)
    else
      match FindMacro(ts[0])
      case Some(m) =>
        if glued then if |ts| > 2 then Bad(TooMany) else Good([], [])
        else
          (match ParseAttList(MacroPieces(m), isuid)
           case Bad(e) => Bad(e)
           case Good(cs, _) => if |ts| > 1 then Bad(TooMany) else Good(cs, []))
      case None =>
        match ParseAtt(ts, isuid)
        case Bad(e) => Bad(e)
        case Good(None, _) => Bad(TooMany)
        case Good(Some(cs), rest) => if rest != [] then Bad(TooMany) else Good(cs, [])
  }

  /** A written list is compiled to exactly the closures it asks for, in order, if and
      only if plain `RFC822` stands nowhere but at its end and all header names are
      accepted. */
  lemma RequestCompiles(items: seq<Request>, isuid: bool)
    requires GoodList(items)
    ensures ParseMacro(PiecesOf(ListRequest(items)), false, isuid) == Good(ListClosures(items, isuid), [")"])
      <==> Rfc822Last(items) && AllTaken(items)
  {
    hide PiecesOf, ListRequest, ListPieces, ListClosures, ParseAttList, Rfc822Last, GoodList, AllTaken;
    var inner := ListPieces(items) + [")"];
    RequestPieces(items);
    Cons("(", inner);
    ListParses(items, [")"], isuid);
  }

  /** The smallest list that fails. */
  lemma Rfc822InFront(isuid: bool)
    ensures GoodList([Rfc822, Simple(FLAGS)])
    ensures ParseMacro(PiecesOf(ListRequest([Rfc822, Simple(FLAGS)])), false, isuid)
      != Good(ListClosures([Rfc822, Simple(FLAGS)], isuid), [")"])
  {
    var items := [Rfc822, Simple(FLAGS)];
    assert items[0] == Rfc822;
    RequestCompiles(items, isuid);
  }

  /** Header names with a dot in them, which RFC 5322 allows, are refused. */
  lemma DottedNameIsRefused(isuid: bool)
    ensures var items := [Data(FieldsOf([], false, ["X.Y"]), false, None)];
      GoodList(items) && ParseMacro(PiecesOf(ListRequest(items)), false, isuid) != Good(ListClosures(items, isuid), [")"])
  {
    var item := Data(FieldsOf([], false, ["X.Y"]), false, None);
    var items := [item];
    assert "X.Y"[1] == '.' && '.' in DELIMITERS;
    assert !Acceptable(item.section.names[0]);
    assert !ItemTaken(items[0]);
    RequestCompiles(items, isuid);
  }

  /** A single item needs no parentheses. */
  lemma SingleCompiles(item: Request, isuid: bool, glued: bool)
    requires GoodRequest(item)
    ensures ParseMacro(ItemPieces(item), glued, isuid) == Good(ItemClosures(item, isuid), []) <==> ItemTaken(item)
  {
    hide ItemPieces, ItemClosures, ParseAtt, KeywordOf, GoodRequest, ItemTaken, Differs;
    EmptyConcat(ItemPieces(item));
    ItemParses(item, [], isuid);
    ItemStarts(item, []);
    NoMacro(item);
    if !ItemTaken(item) { NotTaken(item, isuid, ParseAtt(ItemPieces(item), isuid)); }
  }

  lemma NotTaken(item: Request, isuid: bool, r: Parsed<Option<seq<Closure>>>)
    requires Differs(r, item)
    ensures r.Good? ==> r.value.Some? && r.value.value != ItemClosures(item, isuid)
  {
    if r.Good? { assert ItemClosures(item, isuid)[0].headers == SectionClosure(item.section).headers; }
  }

  lemma NoMacro(item: Request)
    requires GoodRequest(item)
    ensures ItemPieces(item) != [] && FindMacro(ItemPieces(item)[0]) == None
  {
    var k := match item
      case Simple(k) => k
      case BareBody => BODY
      case Structure => BODYSTRUCTURE
      case Rfc822 => RFC822
      case Rfc822Part(_) => RFC822
      case Data(_, _, _) => BODY;
    assert ItemPieces(item)[0] == Spell(k) by { hide Spell; }
    UpperSpelling(k);
  }

  // ----- macros -----

  function FastItems(): seq<Request> {
    [Simple(FLAGS), Simple(INTERNALDATE), Rfc822Part(SIZE)]
  }

  function MacroItems(m: MacroName): seq<Request> {
    match m
    case FAST => FastItems()
    case ALL => FastItems() + [Simple(ENVELOPE)]
    case FULL => FastItems() + [Simple(ENVELOPE), BareBody]
  }

  lemma LineCons(item: Request, rest: seq<Request>, blanks: string)
    requires !HasNames(item)
    ensures LinePart(ListArgs([item] + rest, blanks))
      == blanks + (Flat(ItemPieces(item)) + LinePart(ListArgs(rest, BLANK)))
  {
    hide Flat, ItemPieces;
    ConsDrop(item, rest);
    var p := Piece(blanks, Atom(Flat(ItemPieces(item))));
    ConsDrop(p, ListArgs(rest, BLANK));
  }

  lemma LineNone()
    ensures LinePart(ListArgs([], BLANK)) == []
  {
  }

  lemma WordFlat(k: Keyword)
    ensures Flat([Spell(k)]) == Spell(k)
  {
    hide Spell;
    assert [Spell(k)][1..] == [];
    EmptyConcat(Spell(k));
  }

  lemma SizeFlat()
    ensures Flat(ItemPieces(Rfc822Part(SIZE))) == "RFC822.SIZE"
  {
    var ps := [Spell(RFC822), ".", Spell(SIZE)];
    assert ps[1..] == [".", Spell(SIZE)] && ps[1..][1..] == [Spell(SIZE)];
    WordFlat(SIZE);
  }

  /** The last words of the macros. */
  function TailText(m: MacroName): string {
    match m
    case FAST => ""
    case ALL => " ENVELOPE"
    case FULL => " ENVELOPE BODY"
  }

  function TailItems(m: MacroName): seq<Request> {
    match m
    case FAST => []
    case ALL => [Simple(ENVELOPE)]
    case FULL => [Simple(ENVELOPE), BareBody]
  }

  lemma TailLine(m: MacroName)
    ensures LinePart(ListArgs(TailItems(m), BLANK)) == TailText(m)
  {
    hide ListArgs, LinePart, Flat;
    LineNone();
    WordFlat(ENVELOPE);
    WordFlat(BODY);
    match m
    case FAST =>
    case ALL =>
      EmptyConcat([Simple(ENVELOPE)]);
      LineCons(Simple(ENVELOPE), [], BLANK);
      EmptyConcat("ENVELOPE");
      assert BLANK + "ENVELOPE" == " ENVELOPE";
    case FULL =>
      EmptyConcat([BareBody]);
      LineCons(BareBody, [], BLANK);
      EmptyConcat("BODY");
      assert [Simple(ENVELOPE)] + [BareBody] == TailItems(FULL);
      LineCons(Simple(ENVELOPE), [BareBody], BLANK);
      assert BLANK + ("ENVELOPE" + (BLANK + "BODY")) == " ENVELOPE BODY";
  }

  lemma FastWords(tail: string)
    ensures "FLAGS" + (BLANK + ("INTERNALDATE" + (BLANK + ("RFC822.SIZE" + tail))))
      == "FLAGS INTERNALDATE RFC822.SIZE" + tail
  {
    assert "FLAGS" + (BLANK + ("INTERNALDATE" + (BLANK + "RFC822.SIZE"))) == "FLAGS INTERNALDATE RFC822.SIZE";
    ConcatAssoc(BLANK, "RFC822.SIZE", tail);
    ConcatAssoc("INTERNALDATE", BLANK + "RFC822.SIZE", tail);
    ConcatAssoc(BLANK, "INTERNALDATE" + (BLANK + "RFC822.SIZE"), tail);
    ConcatAssoc("FLAGS", BLANK + ("INTERNALDATE" + (BLANK + "RFC822.SIZE")), tail);
  }

  lemma MacroWords(m: MacroName)
    ensures MacroText(m) == "FLAGS INTERNALDATE RFC822.SIZE" + TailText(m)
  {
    match m
    case FAST => EmptyConcat(MacroText(FAST));
    case ALL =>
    case FULL =>
  }

  lemma MacroLine(m: MacroName)
    ensures LinePart(ListArgs(MacroItems(m), [])) == MacroText(m)
  {
    hide ListArgs, LinePart, Flat, MacroText, TailText;
    var t := TailItems(m);
    TailLine(m);
    SizeFlat();
    WordFlat(FLAGS);
    WordFlat(INTERNALDATE);
    LineCons(Rfc822Part(SIZE), t, BLANK);
    LineCons(Simple(INTERNALDATE), [Rfc822Part(SIZE)] + t, BLANK);
    LineCons(Simple(FLAGS), [Simple(INTERNALDATE)] + ([Rfc822Part(SIZE)] + t), []);
    assert MacroItems(m) == [Simple(FLAGS)] + ([Simple(INTERNALDATE)] + ([Rfc822Part(SIZE)] + t));
    EmptyConcat("FLAGS" + (BLANK + ("INTERNALDATE" + (BLANK + ("RFC822.SIZE" + TailText(m))))));
    FastWords(TailText(m));
    MacroWords(m);
  }

  lemma MacroIsGood(m: MacroName)
    ensures GoodList(MacroItems(m)) && Rfc822Last(MacroItems(m))
    ensures AllUnquoted(MacroItems(m)) && AllTaken(MacroItems(m))
  {
  }

  /** The tokens of a macro's text are the pieces of the items it stands for. */
  lemma MacroCuts(m: MacroName)
    ensures MacroPieces(m) == ListPieces(MacroItems(m))
  {
    hide ListArgs, LinePart, MacroItems, MacroText, Lex, CutAll, ListPieces, Writable, GoodList;
    var ps := ListArgs(MacroItems(m), []);
    MacroIsGood(m);
    MacroLine(m);
    NothingWritten();
    ListWritten(MacroItems(m), [], []);
    ListCut(MacroItems(m), []);
    EmptyConcat(ps);
    ListHasNoLiterals(MacroItems(m), []);
    LexLine(ps);
    WithoutLiterals(ps);
  }

  lemma MacroIsWord(t: string)
    requires FindMacro(t).Some?
    ensures t != [] && t[0] != '('
  {
    assert UpperChar(t[0]) == Upper(t)[0];
  }

  /** ALL, FULL and FAST mean exactly the lists they abbreviate. */
  lemma MacrosAreLists(t: string, isuid: bool)
    requires FindMacro(t).Some?
    ensures var m := FindMacro(t).value;
      && ParseMacro([t], false, isuid) == Good(ListClosures(MacroItems(m), isuid), [])
      && ParseMacro(PiecesOf(ListRequest(MacroItems(m))), false, isuid)
         == Good(ListClosures(MacroItems(m), isuid), [")"])
  {
    hide MacroItems, MacroPieces, ListClosures, ListPieces, ParseAttList, PiecesOf, ListRequest, GoodList, FindMacro;
    var m := FindMacro(t).value;
    MacroIsWord(t);
    MacroIsGood(m);
    MacroCuts(m);
    ListParses(MacroItems(m), [], isuid);
    EmptyConcat(ListPieces(MacroItems(m)));
    RequestCompiles(MacroItems(m), isuid);
  }
}
