/** The vocabulary of the FETCH command: its keywords, the closures the server
    builds, and the data items a client can ask for (section 6.4.5 of RFC 3501). */
module FetchSyntax {
  import opened Text
  import opened Numbers
  import opened Pieces
  import opened CommandWriter

  // ----- keywords -----

  datatype Keyword =
    | ENVELOPE | FLAGS | INTERNALDATE | UID | RFC822 | BODY | BODYSTRUCTURE
    | STRUCTURE | PEEK | HEADER | SIZE | TEXT | MIME | FIELDS | NOT | Other

  function Spell(k: Keyword): string {
    match k
    case ENVELOPE => "ENVELOPE"
    case FLAGS => "FLAGS"
    case INTERNALDATE => "INTERNALDATE"
    case UID => "UID"
    case RFC822 => "RFC822"
    case BODY => "BODY"
    case BODYSTRUCTURE => "BODYSTRUCTURE"
    case STRUCTURE => "STRUCTURE"
    case PEEK => "PEEK"
    case HEADER => "HEADER"
    case SIZE => "SIZE"
    case TEXT => "TEXT"
    case MIME => "MIME"
    case FIELDS => "FIELDS"
    case NOT => "NOT"
    case Other => ""
  }

  function FindAtt(u: string): Option<Keyword> {
    if u == Spell(ENVELOPE) then Some(ENVELOPE)
    else if u == Spell(FLAGS) then Some(FLAGS)
    else if u == Spell(INTERNALDATE) then Some(INTERNALDATE)
    else if u == Spell(UID) then Some(UID)
    else if u == Spell(RFC822) then Some(RFC822)
    else if u == Spell(BODY) then Some(BODY)
    else if u == Spell(BODYSTRUCTURE) then Some(BODYSTRUCTURE)
    else None
  }

  function FindWord(u: string): Keyword {
    if u == Spell(STRUCTURE) then STRUCTURE
    else if u == Spell(PEEK) then PEEK
    else if u == Spell(HEADER) then HEADER
    else if u == Spell(SIZE) then SIZE
    else if u == Spell(TEXT) then TEXT
    else if u == Spell(MIME) then MIME
    else if u == Spell(FIELDS) then FIELDS
    else if u == Spell(NOT) then NOT
    else Other
  }

  /** The comparisons with `mu_c_strcasecmp`; the spellings are distinct, so their
      order does not matter. */
  function KeywordOf(t: string): Keyword {
    match FindAtt(Upper(t))
    case Some(k) => k
    case None => FindWord(Upper(t))
  }

  predicate IsLetter(c: char) {
    'A' <= c <= 'Z'
  }

  lemma SpellingShape(k: Keyword)
    requires k != Other
    ensures Spell(k) != [] && IsLetter(Spell(k)[0])
    ensures forall i :: 0 <= i < |Spell(k)| ==> IsLetter(Spell(k)[i]) || IsDigit(Spell(k)[i])
  {
  }

  lemma UpperSpelling(k: Keyword)
    requires k != Other
    ensures Upper(Spell(k)) == Spell(k)
  {
    SpellingShape(k);
    hide Spell;
  }

  lemma AttSpelling(k: Keyword)
    requires k in {ENVELOPE, FLAGS, INTERNALDATE, UID, RFC822, BODY, BODYSTRUCTURE}
    ensures FindAtt(Spell(k)) == Some(k)
  {
  }

  lemma NoAttSpelling(k: Keyword)
    requires k in {STRUCTURE, PEEK, HEADER, SIZE, TEXT, MIME, FIELDS, NOT}
    ensures FindAtt(Spell(k)) == None
  {
  }

  lemma WordSpelling(k: Keyword)
    requires k in {STRUCTURE, PEEK, HEADER, SIZE, TEXT, MIME, FIELDS, NOT}
    ensures FindWord(Spell(k)) == k
  {
  }

  lemma SpellReads(k: Keyword)
    requires k != Other
    ensures KeywordOf(Spell(k)) == k
  {
    UpperSpelling(k);
    if k in {ENVELOPE, FLAGS, INTERNALDATE, UID, RFC822, BODY, BODYSTRUCTURE} {
      AttSpelling(k);
    } else {
      NoAttSpelling(k);
      WordSpelling(k);
    }
  }

  /** Keywords begin with a letter. */
  lemma NoKeyword(t: string)
    requires t == [] || !IsLetter(UpperChar(t[0]))
    ensures KeywordOf(t) == Other
  {
    Spelled(t);
    if KeywordOf(t) != Other { SpellingShape(KeywordOf(t)); }
  }

  lemma Spelled(t: string)
    ensures KeywordOf(t) != Other ==> Upper(t) == Spell(KeywordOf(t))
  {
  }

  // ----- closures -----

  /** The handlers a closure can name: `_frt_body` and the others. */
  datatype Handler =
    | Body | BodyN | BodyText | Header | HeaderFields | Mime | Size
    | BodyStructure | BodyStructure0 | Attribute(att: Keyword)

  /** What the response calls the item: a fixed name (an attribute, `RFC822` and
      its suffix), or the section. */
  datatype Name = Section | Named(word: Keyword, suffix: Option<Keyword>)

  /** `struct fetch_function_closure`. */
  datatype Closure = Closure(
    fun: Handler,
    name: Name,
    tag: Option<Keyword>,
    parts: seq<nat>,
    peek: bool,
    negate: bool,
    headers: seq<string>,
    start: nat,
    size: nat)

  /** `ffc_init`, and the handler and name that are set next. */
  function Fresh(fun: Handler, name: Name): Closure {
    Closure(fun, name, None, [], false, false, [], 0, SIZE_MAX)
  }

  datatype Error =
    | TooFew | TooMany | Syntax | MissingBracket | ExpectedFields | ExpectedNot | ExpectedOpen
    | UnexpectedDelimiter | ExpectedNumber | ExpectedDot | ExpectedGreater | ExpectedPeek
    | AfterRfc822 | AfterRfc822Dot | UnknownToken

  // ----- what a client asks for -----

  datatype Section =
    | Whole
    | Part(parts: seq<nat>)
    | TextOf(parts: seq<nat>)
    | HeaderOf(parts: seq<nat>)
    | MimeOf(parts: seq<nat>)
    | FieldsOf(parts: seq<nat>, negate: bool, names: seq<string>)

  datatype Range = Range(start: nat, size: nat)

  datatype Item =
    | Simple(att: Keyword)
    | BareBody
    | Structure
    | Rfc822
    | Rfc822Part(part: Keyword)
    | Data(section: Section, peek: bool, range: Option<Range>)

  const DELIMITERS: string := ".[]<>"

  predicate Undelimited(n: string) {
    forall i :: 0 <= i < |n| ==> n[i] !in DELIMITERS
  }

  /** Header names that can be sent without quoting. */
  predicate AtomName(n: string) {
    GoodAtom(n) && Undelimited(n)
  }

  /** Header names the parser takes: whole, and not for the end of the list. */
  predicate Acceptable(n: string) {
    n != [] && Undelimited(n) && n[0] != ')' && n != "("
  }

  predicate AllAcceptable(names: seq<string>) {
    forall i :: 0 <= i < |names| ==> Acceptable(names[i])
  }

  predicate GoodParts(parts: seq<nat>) {
    forall i :: 0 <= i < |parts| ==> parts[i] <= ULONG_MAX
  }

  predicate GoodSection(s: Section) {
    match s
    case Whole => true
    case Part(ps) => GoodParts(ps) && ps != []
    case TextOf(ps) => GoodParts(ps)
    case HeaderOf(ps) => GoodParts(ps)
    case MimeOf(ps) => GoodParts(ps) && ps != []
    case FieldsOf(ps, _, names) => GoodParts(ps) && forall i :: 0 <= i < |names| ==> names[i] != []
  }

  /** The header names of a section are accepted, if it has any. */
  predicate NamesTaken(s: Section) {
    s.FieldsOf? ==> AllAcceptable(s.names)
  }

  predicate GoodRequest(item: Item) {
    match item
    case Simple(k) => k in {ENVELOPE, FLAGS, INTERNALDATE, UID}
    case BareBody => true
    case Structure => true
    case Rfc822 => true
    case Rfc822Part(k) => k in {HEADER, SIZE, TEXT}
    case Data(s, _, range) => GoodSection(s) && (range.Some? ==> range.value.start <= ULONG_MAX && range.value.size <= ULONG_MAX)
  }

  // ----- how it is written, piece by piece -----

  function PartPieces(parts: seq<nat>): seq<string> {
    if parts == [] then []
    else if |parts| == 1 then [Dec(parts[0])]
    else [Dec(parts[0]), "."] + PartPieces(parts[1..])
  }

  function Dotted(parts: seq<nat>): seq<string> {
    if parts == [] then [] else PartPieces(parts) + ["."]
  }

  function SectionPieces(s: Section): seq<string> {
    match s
    case Whole => []
    case Part(ps) => PartPieces(ps)
    case TextOf(ps) => Dotted(ps) + [Spell(TEXT)]
    case HeaderOf(ps) => Dotted(ps) + [Spell(HEADER)]
    case MimeOf(ps) => Dotted(ps) + [Spell(MIME)]
    case FieldsOf(ps, negate, names) =>
      Dotted(ps) + (FieldsWord(negate) + (["("] + (NamePieces(names) + [")"])))
  }

  /** `HEADER.FIELDS` and `HEADER.FIELDS.NOT`. */
  function FieldsWord(negate: bool): seq<string> {
    [Spell(HEADER), ".", Spell(FIELDS)] + if negate then [".", Spell(NOT)] else []
  }

  /** Each name is an argument of its own, however it is written. */
  function NamePieces(names: seq<string>): seq<string> {
    CutAll(names, Some(DELIMITERS))
  }

  function RangePieces(r: Option<Range>): seq<string> {
    if r.None? then [] else ["<", Dec(r.value.start), ".", Dec(r.value.size), ">"]
  }

  function ItemPieces(item: Item): seq<string> {
    match item
    case Simple(k) => [Spell(k)]
    case BareBody => [Spell(BODY)]
    case Structure => [Spell(BODYSTRUCTURE)]
    case Rfc822 => [Spell(RFC822)]
    case Rfc822Part(k) => [Spell(RFC822), ".", Spell(k)]
    case Data(s, peek, range) =>
      [Spell(BODY)] + (if peek then [".", Spell(PEEK)] else []) + ["["] + SectionPieces(s) + ["]"] + RangePieces(range)
  }

  // ----- what it means -----

  function SectionClosure(s: Section): Closure {
    match s
    case Whole => Fresh(Body, Name.Section)
    case Part(ps) => Fresh(BodyN, Name.Section).(parts := ps)
    case TextOf(ps) => Fresh(BodyText, Name.Section).(parts := ps, tag := Some(TEXT))
    case HeaderOf(ps) => Fresh(Header, Name.Section).(parts := ps, tag := Some(HEADER))
    case MimeOf(ps) => Fresh(Mime, Name.Section).(parts := ps, tag := Some(MIME))
    case FieldsOf(ps, negate, names) =>
      Fresh(HeaderFields, Name.Section).(parts := ps, negate := negate, headers := names)
  }

  /** The closures an item adds to the list: none for UID in a UID command, where
      it has been added already. */
  function ItemClosures(item: Item, isuid: bool): seq<Closure> {
    match item
    case Simple(k) => if k == UID && isuid then [] else [Fresh(Attribute(k), Named(k, None))]
    case BareBody => [Fresh(BodyStructure0, Named(BODY, None))]
    case Structure => [Fresh(BodyStructure, Named(BODYSTRUCTURE, None))]
    case Rfc822 => [Fresh(Body, Named(RFC822, None))]
    case Rfc822Part(k) =>
      if k == HEADER then [Fresh(Header, Named(RFC822, Some(HEADER))).(peek := true)]
      else if k == SIZE then [Fresh(Size, Named(RFC822, Some(SIZE)))]
      else [Fresh(BodyText, Named(RFC822, Some(TEXT)))]
    case Data(s, peek, range) =>
      var c := SectionClosure(s).(peek := peek);
      [if range.None? then c else c.(start := range.value.start, size := range.value.size)]
  }
}
