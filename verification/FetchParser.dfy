/** The parser of the FETCH command over its stream of pieces.  The first piece is
    the current token; an empty stream is the null token. */
module FetchParser {
  import opened Text
  import opened Numbers
  import opened FetchSyntax

  type Stream = seq<string>

  datatype Parsed<+T> = Good(value: T, rest: Stream) | Bad(error: Error)

  /** The first character of the current token (pieces are never empty). */
  predicate At(ts: Stream, c: char) {
    ts != [] && ts[0] != [] && ts[0][0] == c
  }

  function KeyOf(ts: Stream): Keyword
    requires ts != []
  {
    KeywordOf(ts[0])
  }

  /** `imap4d_parsebuf_next (p, 1)`. */
  function Need(ts: Stream): (r: Parsed<()>)
    ensures r.Good? ==> |ts| > 1 && r.rest == ts[1..]
  {
    if |ts| < 2 then Bad(TooFew) else Good((), ts[1..])
  }

  /** `imap4d_parsebuf_next (p, 0)`. */
  function Skip(ts: Stream): Stream {
    if ts == [] then [] else ts[1..]
  }

  /** `parsebuf_get_number`. */
  function GetNumber(t: string): Option<nat> {
    var r := ParseUlong(t);
    if r.length == |t| then Some(r.value) else None
  }

  /** The loop of `parse_header_list`. */
  function ParseNames(ts: Stream): (r: Parsed<seq<string>>)
    requires ts != []
    ensures r.Good? ==> |r.rest| < |ts|
    decreases |ts|
  {
    if At(ts, ')') then (match Need(ts) case Bad(e) => Bad(e) case Good(_, rest) => Good([], rest))
    else if |ts[0]| == 1 && ts[0][0] in "()[]<>." then Bad(UnexpectedDelimiter)
    else
      match Need(ts)
      case Bad(e) => Bad(e)
      case Good(_, rest) =>
        match ParseNames(rest)
        case Bad(e) => Bad(e)
        case Good(names, rest') => Good([ts[0]] + names, rest')
  }

  function ParseHeaderList(ts: Stream): (r: Parsed<seq<string>>)
    requires ts != []
    ensures r.Good? ==> |r.rest| < |ts|
  {
    if !At(ts, '(') then Bad(ExpectedOpen)
    else match Need(ts) case Bad(e) => Bad(e) case Good(_, rest) => ParseNames(rest)
  }

  /** `[".NOT"]` after `HEADER.FIELDS`. */
  function ParseNot(ts: Stream): (r: Parsed<bool>)
    requires ts != []
    ensures r.Good? ==> r.rest != [] && |r.rest| <= |ts|
  {
    if !At(ts, '.') then Good(false, ts)
    else
      match Need(ts)
      case Bad(e) => Bad(e)
      case Good(_, t1) =>
        if KeyOf(t1) != NOT then Bad(ExpectedNot)
        else match Need(t1) case Bad(e) => Bad(e) case Good(_, t2) => Good(true, t2)
  }

  /** After the dot of `HEADER.FIELDS`. */
  function ParseFields(ts: Stream, c: Closure): (r: Parsed<Closure>)
    requires ts != []
    ensures r.Good? ==> |r.rest| < |ts|
  {
    if KeyOf(ts) != FIELDS then Bad(ExpectedFields)
    else
      match Need(ts)
      case Bad(e) => Bad(e)
      case Good(_, t1) =>
        match ParseNot(t1)
        case Bad(e) => Bad(e)
        case Good(negate, t2) =>
          match ParseHeaderList(t2)
          case Bad(e) => Bad(e)
          case Good(names, t3) => Good(c.(fun := HeaderFields, negate := negate, headers := names), t3)
  }

  /** `parse_section_text`: no closure if the token is no section keyword. */
  function ParseSectionText(ts: Stream, c: Closure, allowMime: bool): (r: Parsed<Option<Closure>>)
    requires ts != []
    ensures r.Good? ==> |r.rest| <= |ts|
  {
    if KeyOf(ts) == HEADER then
      match Need(ts)
      case Bad(e) => Bad(e)
      case Good(_, t1) =>
        if !At(t1, '.') then Good(Some(c.(fun := Header, tag := Some(HEADER))), t1)
        else
          match Need(t1)
          case Bad(e) => Bad(e)
          case Good(_, t2) =>
            match ParseFields(t2, c)
            case Bad(e) => Bad(e)
            case Good(c', t3) => Good(Some(c'), t3)
    else if KeyOf(ts) == TEXT then
      match Need(ts)
      case Bad(e) => Bad(e)
      case Good(_, t1) => Good(Some(c.(fun := BodyText, tag := Some(TEXT))), t1)
    else if allowMime && KeyOf(ts) == MIME then
      match Need(ts)
      case Bad(e) => Bad(e)
      case Good(_, t1) => Good(Some(c.(fun := Mime, tag := Some(MIME))), t1)
    else Good(None, ts)
  }

  /** `parse_section_part`. */
  function ParseParts(ts: Stream): (r: Parsed<seq<nat>>)
    requires ts != []
    ensures r.Good? ==> r.rest != [] && |r.rest| < |ts|
    decreases |ts|
  {
    match GetNumber(ts[0])
    case None => Bad(ExpectedNumber)
    case Some(n) =>
      match Need(ts)
      case Bad(e) => Bad(e)
      case Good(_, t1) =>
        if At(t1, '.') && |t1| > 1 && t1[1] != [] && IsDigit(t1[1][0]) then
          match ParseParts(t1[1..])
          case Bad(e) => Bad(e)
          case Good(more, t2) => Good([n] + more, t2)
        else Good([n], t1)
  }

  /** A section that begins with a part number. */
  function ParsePartSection(ts: Stream, c: Closure): (r: Parsed<Closure>)
    requires ts != []
    ensures r.Good? ==> |r.rest| <= |ts|
  {
    match ParseParts(ts)
    case Bad(e) => Bad(e)
    case Good(parts, t1) =>
      var c1 := c.(parts := parts);
      if !At(t1, '.') then Good(c1.(fun := BodyN), t1)
      else
        match Need(t1)
        case Bad(e) => Bad(e)
        case Good(_, t2) =>
          match ParseSectionText(t2, c1, true)
          case Bad(e) => Bad(e)
          case Good(None, t3) => Good(c1, t3)
          case Good(Some(c2), t3) => Good(c2, t3)
  }

  /** What stands between the brackets. */
  function ParseSpec(ts: Stream, c: Closure): (r: Parsed<Closure>)
    requires ts != []
    ensures r.Good? ==> |r.rest| <= |ts|
  {
    match ParseSectionText(ts, c, false)
    case Bad(e) => Bad(e)
    case Good(Some(c1), t1) => Good(c1, t1)
    case Good(None, _) =>
      if At(ts, ']') then Good(c.(fun := Body), ts)
      else if ts[0] != [] && IsDigit(ts[0][0]) then ParsePartSection(ts, c)
      else Bad(Syntax)
  }

  /** `parse_section`: no closure if there is no bracket. */
  function ParseSection(ts: Stream): (r: Parsed<Option<Closure>>)
    requires ts != []
    ensures r.Good? ==> |r.rest| <= |ts|
  {
    if !At(ts, '[') then Good(None, ts)
    else
      match Need(ts)
      case Bad(e) => Bad(e)
      case Good(_, t1) =>
        match ParseSpec(t1, Fresh(BodyText, Name.Section))
        case Bad(e) => Bad(e)
        case Good(c, t2) => if At(t2, ']') then Good(Some(c), Skip(t2)) else Bad(MissingBracket)
  }

  /** `["<" number "." nz-number ">"]`. */
  function ParseSubstring(ts: Stream, c: Closure): (r: Parsed<Closure>)
    ensures r.Good? ==> |r.rest| <= |ts|
  {
    if !At(ts, '<') then Good(c, ts)
    else if |ts| < 2 then Bad(TooFew)
    else if GetNumber(ts[1]).None? then Bad(ExpectedNumber)
    else if |ts| < 3 then Bad(TooFew)
    else if !At(ts[2..], '.') then Bad(ExpectedDot)
    else if |ts| < 4 then Bad(TooFew)
    else if GetNumber(ts[3]).None? then Bad(ExpectedNumber)
    else if |ts| < 5 then Bad(TooFew)
    else if !At(ts[4..], '>') then Bad(ExpectedGreater)
    else Good(c.(start := GetNumber(ts[1]).value, size := GetNumber(ts[3]).value), ts[5..])
  }

  /** `parse_body_args`. */
  function ParseBodyArgs(ts: Stream, peek: bool): (r: Parsed<Option<Closure>>)
    requires ts != []
    ensures r.Good? ==> |r.rest| <= |ts|
  {
    match ParseSection(ts)
    case Bad(e) => Bad(e)
    case Good(None, rest) => Good(None, rest)
    case Good(Some(c), t1) =>
      match ParseSubstring(t1, c)
      case Bad(e) => Bad(e)
      case Good(c1, t2) => Good(Some(c1.(peek := peek)), t2)
  }

  /** `parse_body_peek`, at the dot. */
  function ParseBodyPeek(ts: Stream): (r: Parsed<Closure>)
    requires ts != []
    ensures r.Good? ==> |r.rest| <= |ts|
  {
    match Need(ts)
    case Bad(e) => Bad(e)
    case Good(_, t1) =>
      if KeyOf(t1) != PEEK then Bad(ExpectedPeek)
      else
        match Need(t1)
        case Bad(e) => Bad(e)
        case Good(_, t2) =>
          match ParseBodyArgs(t2, true)
          case Bad(e) => Bad(e)
          case Good(None, _) => Bad(Syntax)
          case Good(Some(c), t3) => Good(c, t3)
  }

  const BARE_BODY := Fresh(BodyStructure0, Named(BODY, None))
  const BODY_STRUCTURE := Fresh(BodyStructure, Named(BODYSTRUCTURE, None))

  /** `parse_fetch_body`, behind `BODY`. */
  function ParseBody(ts: Stream): (r: Parsed<Closure>)
    ensures r.Good? ==> |r.rest| <= |ts|
  {
    if ts == [] || At(ts, ')') then Good(BARE_BODY, ts)
    else if At(ts, '.') then ParseBodyPeek(ts)
    else if KeyOf(ts) == STRUCTURE then Good(BODY_STRUCTURE, Skip(ts))
    else
      match ParseBodyArgs(ts, false)
      case Bad(e) => Bad(e)
      case Good(None, rest) => Good(BARE_BODY, rest)
      case Good(Some(c), rest) => Good(c, rest)
  }

  /** `parse_fetch_rfc822`, behind `RFC822`. */
  function ParseRfc822(ts: Stream): (r: Parsed<Closure>)
    ensures r.Good? ==> |r.rest| <= |ts|
  {
    if ts == [] || At(ts, ')') then Good(Fresh(Body, Named(RFC822, None)), ts)
    else if !At(ts, '.') then Bad(AfterRfc822)
    else
      match Need(ts)
      case Bad(e) => Bad(e)
      case Good(_, t1) =>
        if KeyOf(t1) == HEADER then Good(Fresh(Header, Named(RFC822, Some(HEADER))).(peek := true), Skip(t1))
        else if KeyOf(t1) == SIZE then Good(Fresh(Size, Named(RFC822, Some(SIZE))), Skip(t1))
        else if KeyOf(t1) == TEXT then Good(Fresh(BodyText, Named(RFC822, Some(TEXT))), Skip(t1))
        else Bad(AfterRfc822Dot)
  }

  /** `parse_fetch_att`: the closures it appends, or none if the token starts no
      attribute. */
  function ParseAtt(ts: Stream, isuid: bool): (r: Parsed<Option<seq<Closure>>>)
    requires ts != []
    ensures r.Good? ==> |r.rest| <= |ts|
    ensures r.Good? && r.value.Some? ==> |r.rest| < |ts|
  {
    var k := KeyOf(ts);
    if k in {ENVELOPE, FLAGS, INTERNALDATE, UID} then
      Good(Some(if k == UID && isuid then [] else [Fresh(Attribute(k), Named(k, None))]), Skip(ts))
    else if k == RFC822 then One(ParseRfc822(Skip(ts)))
    else if k == BODY then One(ParseBody(Skip(ts)))
    else if k == BODYSTRUCTURE then Good(Some([BODY_STRUCTURE]), Skip(ts))
    else Good(None, ts)
  }

  function One(r: Parsed<Closure>): Parsed<Option<seq<Closure>>> {
    match r
    case Bad(e) => Bad(e)
    case Good(c, rest) => Good(Some([c]), rest)
  }

  /** `parse_fetch_att_list`. */
  function ParseAttList(ts: Stream, isuid: bool): Parsed<seq<Closure>>
    decreases |ts|
  {
    if ts == [] then Good([], ts)
    else
      match ParseAtt(ts, isuid)
      case Bad(e) => Bad(e)
      case Good(None, rest) => Good([], rest)
      case Good(Some(cs), rest) =>
        match ParseAttList(rest, isuid)
        case Bad(e) => Bad(e)
        case Good(more, rest') => Good(cs + more, rest')
  }
}
